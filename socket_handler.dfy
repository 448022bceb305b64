/** The socket handler: one method per socket event. Each method reads the
    registry of connected sockets and the stores, updates them, and appends
    the events it emits to an outbox, addressed either to the calling socket
    (or to one other socket) or to every client. The clock is a parameter;
    the auto-end timer of a poll is the separate `Expire` action, which the
    environment runs once the poll's duration has passed. */
module SocketHandler {
  import opened Wrappers
  import opened Seqs
  import opened Time
  import opened Text
  import opened Models
  import opened VoteService
  import opened PollService
  import opened ChatService
  import opened Users
  import opened ConnectionRegistry

  const UnauthorizedMessage := "Unauthorized"
  const CreateFailedMessage := "Failed to create poll"
  const ChatFailedMessage := "Failed to send message"
  /** `getRecentMessages(20)` on registration. */
  const ChatHistoryLength := 20

  datatype Target = ToSocket(socketId: SocketId) | ToAll

  /** A chat message as the handler sends it. */
  datatype ChatView = ChatView(name: string, message: string, timestamp: int, role: Role)

  /** The payload of `poll:state`: `{poll: null}` or the live poll. */
  datatype PollState =
    | NoPoll
    | LivePoll(poll: Poll, startedAt: Option<int>, hasVoted: bool, results: Option<PollResults>, timeRemaining: int)

  datatype Event =
    | UserRegistered
    | UserKicked
    | Error(message: string)
    | PollCreated(poll: Option<Poll>, startedAt: Option<int>)
    | PollEnded(poll: Option<Poll>, results: Option<PollResults>)
    | PollResultsUpdate(results: Option<PollResults>)
    | VoteSubmitted
    | PollStateEvent(state: PollState)
    | PollHistoryEvent(history: seq<PollResults>)
    | StudentsList(students: seq<StudentInfo>)
    | ChatMessageEvent(chat: ChatView)
    | ChatHistory(chats: seq<ChatView>)

  datatype Outbound = Outbound(to: Target, event: Event)

  function View(m: ChatMessage): (v: ChatView)
    ensures v.name == m.senderName && v.message == m.message && v.timestamp == m.timestamp && v.role == m.senderRole
  {
    ChatView(m.senderName, m.message, m.timestamp, m.senderRole)
  }

  function Views(ms: seq<ChatMessage>): (r: seq<ChatView>)
    ensures |r| == |ms|
    ensures forall i :: 0 <= i < |ms| ==> r[i] == View(ms[i])
  {
    seq(|ms|, i requires 0 <= i < |ms| => View(ms[i]))
  }

  /** The socket is registered with that role. */
  predicate HasRole(reg: Registry, socket: SocketId, role: Role) {
    Get(reg, socket).Some? && Get(reg, socket).value.role == role
  }

  /** The vote a registered socket casts: under its registered session and
      name. */
  function VoteBy(reg: Registry, socket: SocketId, pollId: PollId, optionId: string, now: int): (v: Vote)
    requires Get(reg, socket).Some?
    ensures v.studentSessionId == Get(reg, socket).value.sessionId && v.studentName == Get(reg, socket).value.name
    ensures v.pollId == pollId && v.optionId == optionId && v.votedAt == now
  {
    Ballot(pollId, Get(reg, socket).value.sessionId, Get(reg, socket).value.name, optionId, now)
  }

  /** The chat message a registered socket sends: the trimmed text under its
      registered name and role. */
  function MessageBy(reg: Registry, socket: SocketId, message: string, now: int): (m: ChatMessage)
    requires HasKey(reg, socket)
    ensures m == NewChatMessage(Get(reg, socket).value.name, Get(reg, socket).value.role, Trim(message), now)
  {
    NewChatMessage(Get(reg, socket).value.name, Get(reg, socket).value.role, Trim(message), now)
  }

  /** `sendCurrentState`: nothing when no poll is active; a poll whose
      deadline has passed is withheld from a late joiner; otherwise the
      first active poll with the session's vote status, its results and the
      whole seconds left (0 for a poll that was never started). */
  function CurrentState(polls: seq<Poll>, votes: seq<Vote>, sessionId: SessionId, now: int): (r: PollState)
    ensures r.NoPoll? <==>
      || GetActivePoll(polls).None?
      || (var p := GetActivePoll(polls).value;
          p.startedAt.Some? && now >= p.startedAt.value + MillisPerSecond * p.duration)
    ensures r.LivePoll? ==>
      && r.poll == GetActivePoll(polls).value
      && r.startedAt == r.poll.startedAt
      && (r.hasVoted <==> exists v :: v in votes && v.pollId == r.poll.id && v.studentSessionId == sessionId)
      && r.results == GetPollResults(polls, votes, r.poll.id) && r.results.Some?
    ensures r.LivePoll? && r.startedAt.Some? ==>
      && r.timeRemaining >= 1
      && MillisPerSecond * (r.timeRemaining - 1) < r.startedAt.value + MillisPerSecond * r.poll.duration - now
      && r.startedAt.value + MillisPerSecond * r.poll.duration - now <= MillisPerSecond * r.timeRemaining
    ensures r.LivePoll? && r.startedAt.None? ==> r.timeRemaining == 0
  {
    match FirstActive(polls)
    case None => NoPoll
    case Some(i) =>
      var p := polls[i];
      var results := GetPollResults(polls, votes, p.id);
      assert results.Some? by { assert p in polls; }
      var remaining := if p.startedAt.Some? then RemainingSeconds(p.startedAt.value, p.duration, now) else 0;
      if p.startedAt.Some? && remaining <= 0 then NoPoll
      else LivePoll(p, p.startedAt, HasVoted(votes, p.id, sessionId), results, remaining)
  }

  /** The handler's state: the registry and outbox it owns, and the four
      collections it reads and writes. */
  class SessionHandler {
    const pollStore: PollStore
    const ledger: VoteLedger
    const chatLog: ChatLog
    const userStore: UserStore
    var registry: Registry
    var outbox: seq<Outbound>

    ghost predicate Valid()
      reads this, pollStore, ledger, chatLog, userStore
    {
      pollStore.Valid() && ledger.Valid() && chatLog.Valid() && userStore.Valid() && KeysUnique(registry)
    }

    constructor ()
      ensures Valid()
      ensures pollStore.polls == [] && ledger.votes == [] && chatLog.messages == [] && userStore.users == []
      ensures registry == [] && outbox == []
      ensures fresh(pollStore) && fresh(ledger) && fresh(chatLog) && fresh(userStore)
    {
      pollStore := new PollStore();
      ledger := new VoteLedger();
      chatLog := new ChatLog();
      userStore := new UserStore();
      registry := [];
      outbox := [];
    }

    method Emit(to: Target, event: Event)
      modifies this
      ensures outbox == old(outbox) + [Outbound(to, event)]
      ensures registry == old(registry)
    {
      outbox := outbox + [Outbound(to, event)];
    }

    /** `user:register`. The socket is recorded in the registry before the
        kicked check, so a kicked session stays registered (and counts as a
        connected student) although it only receives `user:kicked`. */
    method Register(socket: SocketId, sessionId: SessionId, name: string, role: Role, now: int)
      requires Valid()
      modifies this, userStore
      ensures Valid()
      ensures registry == Set(old(registry), Connection(sessionId, name, role, socket))
      ensures Get(registry, socket) == Some(Connection(sessionId, name, role, socket))
      ensures old(IsKicked(userStore.users, sessionId)) ==>
        && userStore.users == old(userStore.users)
        && outbox == old(outbox) + [Outbound(ToSocket(socket), UserKicked)]
      ensures !old(IsKicked(userStore.users, sessionId)) ==>
        && userStore.users == Upserted(old(userStore.users), sessionId, socket, name, role, now)
        && outbox == old(outbox)
          + [Outbound(ToSocket(socket), PollStateEvent(CurrentState(pollStore.polls, ledger.votes, sessionId, now)))]
          + [Outbound(ToSocket(socket), ChatHistory(Views(RecentMessages(chatLog.messages, ChatHistoryLength))))]
          + (if role == Student then [Outbound(ToAll, StudentsList(Roster(registry)))] else [])
          + [Outbound(ToSocket(socket), UserRegistered)]
    {
      var c := Connection(sessionId, name, role, socket);
      SetGet(registry, c, socket);
      registry := Set(registry, c);
      if IsKicked(userStore.users, sessionId) {
        outbox := outbox + [Outbound(ToSocket(socket), UserKicked)];
        return;
      }
      userStore.Upsert(sessionId, socket, name, role, now);
      var state := CurrentState(pollStore.polls, ledger.votes, sessionId, now);
      var history := Views(RecentMessages(chatLog.messages, ChatHistoryLength));
      var roster := if role == Student then [Outbound(ToAll, StudentsList(Roster(registry)))] else [];
      outbox := outbox
        + [Outbound(ToSocket(socket), PollStateEvent(state))]
        + [Outbound(ToSocket(socket), ChatHistory(history))]
        + roster
        + [Outbound(ToSocket(socket), UserRegistered)];
    }

    /** `teacher:create-poll`: only a registered teacher; refused with the
        admission's reason while students are still answering; otherwise
        the poll is saved, started at once and broadcast with the roster.
        Returns the id whose auto-end timer is armed. */
    method CreatePoll(socket: SocketId, question: string, options: seq<OptionInput>, duration: Option<int>, now: int)
      returns (timer: Option<PollId>)
      requires Valid()
      modifies this, pollStore
      ensures Valid()
      ensures registry == old(registry)
      ensures !old(HasRole(registry, socket, Teacher)) ==>
        && pollStore.polls == old(pollStore.polls) && timer.None?
        && outbox == old(outbox) + [Outbound(ToSocket(socket), Error(UnauthorizedMessage))]
      ensures old(HasRole(registry, socket, Teacher)) && !old(CanCreateNewPoll(pollStore.polls, ledger.votes, StudentCount(registry)).canCreate) ==>
        && pollStore.polls == old(pollStore.polls) && timer.None?
        && outbox == old(outbox) + [Outbound(ToSocket(socket), Error(NotAllAnswered))]
      ensures old(HasRole(registry, socket, Teacher)) && old(CanCreateNewPoll(pollStore.polls, ledger.votes, StudentCount(registry)).canCreate)
              && !ValidPoll(old(Draft(pollStore.polls, question, options, duration, now))) ==>
        && pollStore.polls == old(pollStore.polls) && timer.None?
        && outbox == old(outbox) + [Outbound(ToSocket(socket), Error(CreateFailedMessage))]
      ensures old(HasRole(registry, socket, Teacher)) && old(CanCreateNewPoll(pollStore.polls, ledger.votes, StudentCount(registry)).canCreate)
              && ValidPoll(old(Draft(pollStore.polls, question, options, duration, now))) ==>
        var draft := old(Draft(pollStore.polls, question, options, duration, now));
        && pollStore.polls == old(pollStore.polls) + [Started(draft, now)]
        && timer == Some(draft.id)
        && outbox == old(outbox)
          + [Outbound(ToAll, PollCreated(Some(Started(draft, now)), Some(now)))]
          + [Outbound(ToAll, StudentsList(Roster(registry)))]
    {
      var user := Get(registry, socket);
      if user.None? || user.value.role != Teacher {
        Emit(ToSocket(socket), Error(UnauthorizedMessage));
        return None;
      }
      var admission := CanCreateNewPoll(pollStore.polls, ledger.votes, StudentCount(registry));
      if !admission.canCreate {
        Emit(ToSocket(socket), Error(admission.reason.value));
        return None;
      }
      ghost var before := pollStore.polls;
      var created := pollStore.CreatePoll(question, options, duration, now);
      if created.Failure? {
        Emit(ToSocket(socket), Error(CreateFailedMessage));
        return None;
      }
      FindAppended(before, created.value);
      UpdateAppended(before, created.value, (p: Poll) => Started(p, now));
      var started := pollStore.StartPoll(created.value.id, now);
      Emit(ToAll, PollCreated(started, if started.Some? then started.value.startedAt else None));
      Emit(ToAll, StudentsList(Roster(registry)));
      timer := Some(created.value.id);
    }

    /** The auto-end timer of poll `pollId`: ends it and broadcasts the
        ended poll with its final results. */
    method Expire(pollId: PollId, now: int)
      requires Valid()
      modifies this, pollStore
      ensures Valid()
      ensures registry == old(registry)
      ensures pollStore.polls == UpdateById(old(pollStore.polls), pollId, (p: Poll) => Ended(p, now))
      ensures outbox == old(outbox) + [Outbound(ToAll, PollEnded(
        if 0 <= pollId < |pollStore.polls| then Some(pollStore.polls[pollId]) else None,
        GetPollResults(pollStore.polls, ledger.votes, pollId)))]
    {
      FindPollAt(pollStore.polls, pollId);
      ghost var count := |pollStore.polls|;
      var ended := pollStore.EndPoll(pollId, now);
      assert |pollStore.polls| == count;
      assert ended == if 0 <= pollId < count then Some(pollStore.polls[pollId]) else None;
      var results := GetPollResults(pollStore.polls, ledger.votes, pollId);
      Emit(ToAll, PollEnded(ended, results));
    }

    /** `student:vote`: only a registered student; the ledger alone decides
        whether the vote is taken, so a vote on a poll that has ended, on
        an unknown poll or for an option the poll does not have is stored
        all the same. */
    method Vote(socket: SocketId, pollId: PollId, optionId: string, now: int)
      requires Valid()
      modifies this, ledger
      ensures Valid()
      ensures registry == old(registry)
      ensures !old(HasRole(registry, socket, Student)) ==>
        && ledger.votes == old(ledger.votes)
        && outbox == old(outbox) + [Outbound(ToSocket(socket), Error(UnauthorizedMessage))]
      ensures old(HasRole(registry, socket, Student))
              && old(HasVoted(ledger.votes, pollId, Get(registry, socket).value.sessionId)) ==>
        && ledger.votes == old(ledger.votes)
        && outbox == old(outbox) + [Outbound(ToSocket(socket), Error(AlreadyVotedMessage))]
      ensures old(HasRole(registry, socket, Student))
              && !old(HasVoted(ledger.votes, pollId, Get(registry, socket).value.sessionId))
              && !ValidVote(old(VoteBy(registry, socket, pollId, optionId, now))) ==>
        && ledger.votes == old(ledger.votes)
        && outbox == old(outbox) + [Outbound(ToSocket(socket), Error(InvalidVoteMessage))]
      ensures old(HasRole(registry, socket, Student))
              && !old(HasVoted(ledger.votes, pollId, Get(registry, socket).value.sessionId))
              && ValidVote(old(VoteBy(registry, socket, pollId, optionId, now))) ==>
        && ledger.votes == old(ledger.votes) + [old(VoteBy(registry, socket, pollId, optionId, now))]
        && outbox == old(outbox)
          + [Outbound(ToSocket(socket), VoteSubmitted)]
          + [Outbound(ToAll, PollResultsUpdate(GetPollResults(pollStore.polls, ledger.votes, pollId)))]
    {
      var user := Get(registry, socket);
      if user.None? || user.value.role != Student {
        Emit(ToSocket(socket), Error(UnauthorizedMessage));
        return;
      }
      var vote := ledger.SubmitVote(pollId, user.value.sessionId, user.value.name, optionId, now);
      if vote.Failure? {
        Emit(ToSocket(socket), Error(vote.error.Message()));
        return;
      }
      Emit(ToSocket(socket), VoteSubmitted);
      Emit(ToAll, PollResultsUpdate(GetPollResults(pollStore.polls, ledger.votes, pollId)));
    }

    /** `teacher:kick-student`: silently ignored unless sent by a teacher;
        otherwise flags the session's record, tells the session's first
        socket it was kicked and drops that socket from the registry, and
        rebroadcasts the roster. */
    method Kick(socket: SocketId, sessionId: SessionId)
      requires Valid()
      modifies this, userStore
      ensures Valid()
      ensures old(Get(registry, socket)).None? || old(Get(registry, socket)).value.role != Teacher ==>
        && registry == old(registry) && userStore.users == old(userStore.users) && outbox == old(outbox)
      ensures old(Get(registry, socket)).Some? && old(Get(registry, socket)).value.role == Teacher ==>
        && userStore.users == Flagged(old(userStore.users), sessionId)
        && (old(FindBySession(registry, sessionId)).None? ==>
             && registry == old(registry)
             && outbox == old(outbox) + [Outbound(ToAll, StudentsList(Roster(registry)))])
        && (old(FindBySession(registry, sessionId)).Some? ==>
             var target := old(FindBySession(registry, sessionId)).value.socketId;
             && registry == Delete(old(registry), target)
             && outbox == old(outbox)
               + [Outbound(ToSocket(target), UserKicked)]
               + [Outbound(ToAll, StudentsList(Roster(registry)))])
    {
      var user := Get(registry, socket);
      if user.None? || user.value.role != Teacher {
        return;
      }
      userStore.MarkKicked(sessionId);
      Evict(sessionId);
    }

    /** The second half of `teacher:kick-student`: tells the session's first
        socket it was kicked, drops that socket from the registry and
        rebroadcasts the roster. */
    method Evict(sessionId: SessionId)
      requires Valid()
      modifies this
      ensures Valid()
      ensures FindBySession(old(registry), sessionId).None? ==>
        && registry == old(registry)
        && outbox == old(outbox) + [Outbound(ToAll, StudentsList(Roster(registry)))]
      ensures FindBySession(old(registry), sessionId).Some? ==>
        var target := FindBySession(old(registry), sessionId).value.socketId;
        && registry == Delete(old(registry), target)
        && outbox == old(outbox)
          + [Outbound(ToSocket(target), UserKicked)]
          + [Outbound(ToAll, StudentsList(Roster(registry)))]
    {
      var target := FindBySession(registry, sessionId);
      if target.Some? {
        Emit(ToSocket(target.value.socketId), UserKicked);
        DeleteSubsequence(registry, target.value.socketId);
        registry := Delete(registry, target.value.socketId);
      }
      Emit(ToAll, StudentsList(Roster(registry)));
    }

    /** `get:current-state`: answered only for a registered socket. */
    method GetCurrentState(socket: SocketId, now: int)
      requires Valid()
      modifies this
      ensures Valid()
      ensures registry == old(registry)
      ensures Get(registry, socket).None? ==> outbox == old(outbox)
      ensures Get(registry, socket).Some? ==>
        outbox == old(outbox) + [Outbound(ToSocket(socket), PollStateEvent(
          CurrentState(pollStore.polls, ledger.votes, Get(registry, socket).value.sessionId, now)))]
    {
      var user := Get(registry, socket);
      if user.Some? {
        Emit(ToSocket(socket), PollStateEvent(CurrentState(pollStore.polls, ledger.votes, user.value.sessionId, now)));
      }
    }

    /** `get:poll-history`: answered for any socket, registered or not. */
    method GetPollHistory(socket: SocketId)
      requires Valid()
      modifies this
      ensures Valid()
      ensures registry == old(registry)
      ensures outbox == old(outbox) + [Outbound(ToSocket(socket), PollHistoryEvent(PollHistory(pollStore.polls, ledger.votes)))]
    {
      Emit(ToSocket(socket), PollHistoryEvent(PollHistory(pollStore.polls, ledger.votes)));
    }

    /** `chat:send`: ignored for an unregistered socket; otherwise the
        message is saved under the registered name and role and broadcast,
        or the sender is told it failed. */
    method ChatSend(socket: SocketId, message: string, now: int)
      requires Valid()
      modifies this, chatLog
      ensures Valid()
      ensures registry == old(registry)
      ensures !old(HasKey(registry, socket)) ==>
        chatLog.messages == old(chatLog.messages) && outbox == old(outbox)
      ensures old(HasKey(registry, socket)) && ValidChatMessage(old(MessageBy(registry, socket, message, now))) ==>
        && chatLog.messages == old(chatLog.messages) + [old(MessageBy(registry, socket, message, now))]
        && outbox == old(outbox) + [Outbound(ToAll, ChatMessageEvent(View(old(MessageBy(registry, socket, message, now)))))]
      ensures old(HasKey(registry, socket)) && !ValidChatMessage(old(MessageBy(registry, socket, message, now))) ==>
        && chatLog.messages == old(chatLog.messages)
        && outbox == old(outbox) + [Outbound(ToSocket(socket), Error(ChatFailedMessage))]
    {
      var user := Get(registry, socket);
      if user.None? {
        return;
      }
      ghost var m := MessageBy(registry, socket, message, now);
      var saved := chatLog.SaveMessage(user.value.name, user.value.role, message, now);
      assert saved.Success? <==> ValidChatMessage(m);
      if saved.Failure? {
        Emit(ToSocket(socket), Error(ChatFailedMessage));
        return;
      }
      Emit(ToAll, ChatMessageEvent(View(saved.value)));
    }

    /** `disconnect`: drops the socket and rebroadcasts the roster. */
    method Disconnect(socket: SocketId)
      requires Valid()
      modifies this
      ensures Valid()
      ensures registry == Delete(old(registry), socket)
      ensures Get(registry, socket).None?
      ensures outbox == old(outbox) + [Outbound(ToAll, StudentsList(Roster(registry)))]
    {
      DeleteGet(registry, socket, socket);
      registry := Delete(registry, socket);
      Emit(ToAll, StudentsList(Roster(registry)));
    }
  }

  /** First step of the scenario below: a teacher and then a student
      register on a fresh server. */
  method ConnectClassroom(teacher: Connection, student: Connection) returns (h: SessionHandler)
    requires teacher.role == Teacher && student.role == Student
    requires teacher.socketId != student.socketId && teacher.sessionId != student.sessionId
    ensures fresh(h) && fresh(h.pollStore) && fresh(h.ledger) && fresh(h.chatLog) && fresh(h.userStore)
    ensures h.Valid()
    ensures h.registry == [teacher, student]
    ensures h.pollStore.polls == [] && h.ledger.votes == []
  {
    h := new SessionHandler();
    Join(h, teacher, 0);
    Join(h, student, 1000);
  }

  /** A connection on a socket new to the registry, for a session nobody has
      kicked, registers. */
  method Join(h: SessionHandler, c: Connection, now: int)
    requires h.Valid()
    requires !HasKey(h.registry, c.socketId)
    requires !IsKicked(h.userStore.users, c.sessionId)
    modifies h, h.userStore
    ensures h.Valid()
    ensures h.registry == old(h.registry) + [c]
    ensures h.userStore.users == Upserted(old(h.userStore.users), c.sessionId, c.socketId, c.name, c.role, now)
  {
    h.Register(c.socketId, c.sessionId, c.name, c.role, now);
  }

  /** What the handler reads from the classroom's registry. */
  lemma {:induction false} ClassroomRegistry(teacher: Connection, student: Connection)
    requires teacher.role == Teacher && student.role == Student && teacher.socketId != student.socketId
    ensures HasRole([teacher, student], teacher.socketId, Teacher)
    ensures Get([teacher, student], student.socketId) == Some(student)
    ensures StudentCount([teacher, student]) == 1
  {
    SetGet([teacher], student, teacher.socketId);
    assert [teacher, student] == [teacher] + [student];
    FilterAppend([teacher], [student], (c: Connection) => c.role == Student);
  }

  /** The only student has answered the active first poll, so a second
      poll is admitted. */
  lemma {:induction false} SecondPollAdmitted(first: Poll, vote: Vote)
    requires first.id == 0 && first.isActive && vote.pollId == 0
    ensures CanCreateNewPoll([first], [vote], 1).canCreate
  {
    assert GetActivePoll([first]) == Some(first);
    assert VoteCount([vote], 0) == 1;
  }

  /** Second step: the teacher starts a poll of 60 seconds. */
  method StartFirstPoll(h: SessionHandler, teacher: Connection, student: Connection,
                        question: string, options: seq<OptionInput>)
    requires h.Valid()
    requires teacher.role == Teacher && student.role == Student && teacher.socketId != student.socketId
    requires h.registry == [teacher, student] && h.pollStore.polls == [] && h.ledger.votes == []
    requires question != [] && forall o :: o in options ==> o.id != [] && o.text != []
    modifies h, h.pollStore
    ensures h.Valid()
    ensures h.registry == [teacher, student] && h.ledger.votes == []
    ensures h.pollStore.polls == [Started(Draft([], question, options, Some(60), 2000), 2000)]
  {
    ClassroomRegistry(teacher, student);
    assert CanCreateNewPoll([], [], 1).canCreate;
    DraftValid([], question, options, Some(60), 2000);
    var timer := h.CreatePoll(teacher.socketId, question, options, Some(60), 2000);
  }

  /** Third step: the student answers the poll. */
  method StudentAnswers(h: SessionHandler, teacher: Connection, student: Connection, choice: string)
    requires h.Valid()
    requires teacher.role == Teacher && student.role == Student && teacher.socketId != student.socketId
    requires h.registry == [teacher, student] && h.ledger.votes == []
    requires student.name != [] && student.sessionId != [] && choice != []
    modifies h, h.ledger
    ensures h.Valid()
    ensures h.registry == [teacher, student] && h.pollStore.polls == old(h.pollStore.polls)
    ensures h.ledger.votes == [Ballot(0, student.sessionId, student.name, choice, 3000)]
  {
    ClassroomRegistry(teacher, student);
    h.Vote(student.socketId, 0, choice, 3000);
  }

  /** Last step: with the first poll still active and answered by the only
      student, the teacher starts a second poll. */
  method StartSecondPoll(h: SessionHandler, teacher: Connection, student: Connection,
                         first: Poll, question: string, options: seq<OptionInput>, choice: string)
    returns (second: Poll)
    requires h.Valid()
    requires teacher.role == Teacher && student.role == Student && teacher.socketId != student.socketId
    requires h.registry == [teacher, student]
    requires h.pollStore.polls == [first] && first.id == 0 && first.isActive
    requires h.ledger.votes == [Ballot(0, student.sessionId, student.name, choice, 3000)]
    requires question != [] && forall o :: o in options ==> o.id != [] && o.text != []
    modifies h, h.pollStore
    ensures h.pollStore.polls == [first, second]
    ensures second == Started(Draft([first], question, options, Some(60), 4000), 4000)
  {
    ClassroomRegistry(teacher, student);
    SecondPollAdmitted(first, Ballot(0, student.sessionId, student.name, choice, 3000));
    DraftValid([first], question, options, Some(60), 4000);
    var timer := h.CreatePoll(teacher.socketId, question, options, Some(60), 4000);
    second := h.pollStore.polls[1];
  }

  /** A teacher and one student connect; the teacher starts a poll and the
      student answers it; the teacher then starts a second poll before the
      first one's timer has fired. The admission rule lets it through (every
      connected student has voted) and both polls are now active. */
  method TwoActivePollsScenario(teacher: Connection, student: Connection,
                                question1: string, question2: string, options: seq<OptionInput>, choice: string)
    returns (h: SessionHandler, first: Poll, second: Poll)
    requires teacher.role == Teacher && student.role == Student
    requires teacher.socketId != student.socketId && teacher.sessionId != student.sessionId
    requires student.name != [] && student.sessionId != [] && choice != []
    requires question1 != [] && question2 != []
    requires forall o :: o in options ==> o.id != [] && o.text != []
    ensures first.id == 0 && second.id == 1
    ensures first.isActive && second.isActive
    ensures first.question == question1 && second.question == question2
    ensures first.endedAt.None? && second.endedAt.None?
    ensures h.pollStore.polls == [first, second]
  {
    h := ConnectClassroom(teacher, student);
    StartFirstPoll(h, teacher, student, question1, options);
    StudentAnswers(h, teacher, student, choice);
    first := h.pollStore.polls[0];
    second := StartSecondPoll(h, teacher, student, first, question2, options, choice);
  }
}
