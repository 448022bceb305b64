/** The four Mongoose schemas of the backend (Poll, Vote, User, ChatMessage)
    as datatypes. A schema's defaults are the values its `New…` function
    fills in; its `required`, `enum` and `maxlength` constraints are a
    validity predicate that a document must meet for `save()` to store it. */
module Models {
  import opened Wrappers
  import opened Text

  type PollId = int
  type SessionId = string
  type SocketId = string

  /** A document that `save()` rejects because it breaks its schema. */
  datatype DbError = ValidationError

  /** The `enum: ['teacher', 'student']` of User.role and ChatMessage.senderRole. */
  datatype Role = Teacher | Student

  // ---------------------------------------------------------------- Poll

  datatype PollOption = PollOption(id: string, text: string, isCorrect: bool)

  /** An option as a client sends it: `isCorrect` may be absent. */
  datatype OptionInput = OptionInput(id: string, text: string, isCorrect: Option<bool>)

  datatype Poll = Poll(
    id: PollId,
    question: string,
    options: seq<PollOption>,
    duration: int,
    startedAt: Option<int>,
    endedAt: Option<int>,
    isActive: bool,
    questionNumber: int,
    createdAt: int)

  const DefaultDuration := 60

  /** An option sub-document; `isCorrect` defaults to false. */
  function ToPollOption(o: OptionInput): (r: PollOption)
    ensures r.id == o.id && r.text == o.text
    ensures r.isCorrect <==> o.isCorrect == Some(true)
  {
    PollOption(o.id, o.text, o.isCorrect.GetOr(false))
  }

  /** A freshly constructed Poll document: inactive, never started or ended,
      created now. */
  function NewPoll(id: PollId, question: string, options: seq<OptionInput>, duration: int,
                   questionNumber: int, now: int): (p: Poll)
    ensures p.id == id && p.question == question && p.duration == duration
    ensures p.questionNumber == questionNumber && p.createdAt == now
    ensures !p.isActive && p.startedAt.None? && p.endedAt.None?
    ensures |p.options| == |options|
    ensures forall i :: 0 <= i < |options| ==> p.options[i] == ToPollOption(options[i])
  {
    Poll(id, question, seq(|options|, i requires 0 <= i < |options| => ToPollOption(options[i])),
         duration, None, None, false, questionNumber, now)
  }

  /** Mongoose's `required` rejects a missing value and, for strings, the
      empty string. */
  predicate ValidOption(o: PollOption) {
    o.id != [] && o.text != []
  }

  predicate ValidPoll(p: Poll) {
    p.question != [] && forall o :: o in p.options ==> ValidOption(o)
  }

  // ---------------------------------------------------------------- Vote

  datatype Vote = Vote(
    pollId: PollId,
    studentName: string,
    studentSessionId: SessionId,
    optionId: string,
    votedAt: int)

  predicate ValidVote(v: Vote) {
    v.studentName != [] && v.studentSessionId != [] && v.optionId != []
  }

  /** Two votes collide on the unique compound index (pollId, studentSessionId). */
  predicate SameBallot(v: Vote, w: Vote) {
    v.pollId == w.pollId && v.studentSessionId == w.studentSessionId
  }

  /** The unique index: no two stored votes share (pollId, studentSessionId). */
  ghost predicate UniqueBallots(votes: seq<Vote>) {
    forall i, j :: 0 <= i < j < |votes| ==> !SameBallot(votes[i], votes[j])
  }

  // ---------------------------------------------------------------- User

  datatype User = User(
    sessionId: SessionId,
    socketId: Option<SocketId>,
    name: string,
    role: Role,
    connectedAt: int,
    isKicked: bool)

  /** A User document created by an upsert: not kicked, connected now. */
  function NewUser(sessionId: SessionId, socketId: SocketId, name: string, role: Role, now: int): (u: User)
    ensures u.sessionId == sessionId && u.name == name && u.role == role
    ensures u.socketId == Some(socketId) && u.connectedAt == now
    ensures !u.isKicked
  {
    User(sessionId, Some(socketId), name, role, now, false)
  }

  /** The `unique: true` index on sessionId: at most one record per session. */
  ghost predicate UniqueSessions(users: seq<User>) {
    forall i, j :: 0 <= i < j < |users| ==> users[i].sessionId != users[j].sessionId
  }

  // ---------------------------------------------------------- ChatMessage

  const MaxMessageLength := 500

  datatype ChatMessage = ChatMessage(
    senderName: string,
    senderRole: Role,
    message: string,
    timestamp: int,
    sessionId: Option<SessionId>)

  /** A ChatMessage document: stamped now, with no session. */
  function NewChatMessage(senderName: string, senderRole: Role, message: string, now: int): (m: ChatMessage)
    ensures m.senderName == senderName && m.senderRole == senderRole && m.message == message
    ensures m.timestamp == now && m.sessionId.None?
  {
    ChatMessage(senderName, senderRole, message, now, None)
  }

  /** `required` on the name and the text, and `maxlength: 500` on the text,
      which Mongoose measures in UTF-16 code units as JavaScript does. */
  predicate ValidChatMessage(m: ChatMessage) {
    m.senderName != [] && m.message != [] && Utf16Length(m.message) <= MaxMessageLength
  }

  /** A message of more than 250 characters that all lie above U+FFFF (emoji,
      say) is over the bound, although it has fewer than 500 characters. */
  lemma {:induction false} WideCharactersCountTwice(m: ChatMessage)
    requires |m.message| > MaxMessageLength / 2
    requires forall i :: 0 <= i < |m.message| ==> m.message[i] as int > 0xFFFF
    ensures !ValidChatMessage(m)
  {
  }
}
