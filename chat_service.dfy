/** The chat log of `ChatService`: save a trimmed message, read the most
    recent ones oldest first, and purge old ones. */
module ChatService {
  import opened Wrappers
  import opened Seqs
  import opened Text
  import opened Time
  import opened Models

  const DefaultRecentLimit := 50
  const DefaultRetentionDays := 7

  /** `find().sort({timestamp: -1}).limit(limit)`: the newest messages,
      newest first. As in Mongo, a limit of 0 means no limit. */
  function Newest(messages: seq<ChatMessage>, limit: nat): (r: seq<ChatMessage>)
    ensures |r| == if limit == 0 then |messages| else Min(limit, |messages|)
    ensures multiset(r) <= multiset(messages)
    ensures forall m :: m in r ==> m in messages
    ensures forall i, j :: 0 <= i < j < |r| ==> r[i].timestamp >= r[j].timestamp
    ensures forall m, q :: m in messages && m !in r && q in r ==> m.timestamp <= q.timestamp
  {
    var key := (m: ChatMessage) => m.timestamp;
    var r := TopK(messages, key, if limit == 0 then |messages| else limit);
    forall m | m in r ensures m in messages {
      assert m in multiset(r);
    }
    forall i, j | 0 <= i < j < |r| ensures r[i].timestamp >= r[j].timestamp {
      assert key(r[i]) >= key(r[j]);
    }
    forall m, q | m in messages && m !in r && q in r ensures m.timestamp <= q.timestamp {
      assert key(m) <= key(q);
    }
    r
  }

  /** `getRecentMessages`: the newest `limit` messages put back in
      chronological order (oldest first). */
  function RecentMessages(messages: seq<ChatMessage>, limit: nat := DefaultRecentLimit): (r: seq<ChatMessage>)
    ensures |r| == if limit == 0 then |messages| else Min(limit, |messages|)
    ensures multiset(r) <= multiset(messages)
    ensures forall m :: m in r ==> m in messages
    ensures forall i, j :: 0 <= i < j < |r| ==> r[i].timestamp <= r[j].timestamp
    ensures forall m, q :: m in messages && m !in r && q in r ==> m.timestamp <= q.timestamp
  {
    Reverse(Newest(messages, limit))
  }

  /** The `deleteMany({timestamp: {$lt: cutoff}})` filter, inverted: the
      messages a purge keeps, each as often as it was stored and in stored
      order. */
  function KeepSince(messages: seq<ChatMessage>, cutoff: int): (r: seq<ChatMessage>)
    ensures forall m :: m in r <==> m in messages && m.timestamp >= cutoff
    ensures forall m :: multiset(r)[m] == if m.timestamp >= cutoff then multiset(messages)[m] else 0
    ensures IsSubseq(r, messages)
  {
    var keep := (m: ChatMessage) => m.timestamp >= cutoff;
    FilterCounts(messages, keep);
    FilterIsSubseq(messages, keep);
    Filter(messages, keep)
  }

  /** The cutoff of `clearOldMessages(daysOld)`: `daysOld` days before now. */
  function Cutoff(daysOld: int, now: int): (c: int)
    ensures daysOld >= 0 ==> c <= now
    ensures daysOld > 0 ==> c < now
  {
    now - daysOld * MillisPerDay
  }

  /** The ChatMessage collection. */
  class ChatLog {
    var messages: seq<ChatMessage>

    ghost predicate Valid()
      reads this
    {
      forall m :: m in messages ==> ValidChatMessage(m)
    }

    constructor ()
      ensures Valid() && messages == []
    {
      messages := [];
    }

    /** `saveMessage`: stores the trimmed text with the sender's name and role,
        stamped now, appended after every earlier message; a document the
        schema rejects (blank text, more than 500 characters, no sender name)
        is not stored. */
    method SaveMessage(senderName: string, senderRole: Role, message: string, now: int)
      returns (r: Result<ChatMessage, DbError>)
      requires Valid()
      modifies this
      ensures Valid()
      ensures r.Success? <==> ValidChatMessage(NewChatMessage(senderName, senderRole, Trim(message), now))
      ensures r.Success? ==>
        r.value == NewChatMessage(senderName, senderRole, Trim(message), now) && messages == old(messages) + [r.value]
      ensures r.Failure? ==> messages == old(messages)
    {
      var m := NewChatMessage(senderName, senderRole, Trim(message), now);
      if !ValidChatMessage(m) {
        return Failure(ValidationError);
      }
      messages := messages + [m];
      r := Success(m);
    }

    /** `clearOldMessages`: removes exactly the messages older than the cutoff. */
    method ClearOldMessages(now: int, daysOld: int := DefaultRetentionDays)
      requires Valid()
      modifies this
      ensures Valid()
      ensures messages == KeepSince(old(messages), Cutoff(daysOld, now))
    {
      messages := KeepSince(messages, Cutoff(daysOld, now));
    }
  }

  /** A purge never touches messages from the cutoff on, and keeps their order. */
  lemma {:induction false} PurgeKeepsRecent(messages: seq<ChatMessage>, cutoff: int)
    requires forall m :: m in messages ==> m.timestamp >= cutoff
    ensures KeepSince(messages, cutoff) == messages
  {
    FilterAll(messages, (m: ChatMessage) => m.timestamp >= cutoff);
  }
}
