/** The broker as a protocol: any number of connection threads register in the shared tables under
    sem_mutex, and those that sem_control lets through forward messages for ever, reading the same
    tables without a lock. One step is one access to shared state (sequential consistency). */
module Broker {
  import opened Tokenizer
  import opened Topics

  const LIMIT_CONN_CLIENTS := 10
  const ZEROS: seq<int> := [0, 0, 0, 0, 0, 0]
  const NONE := "NONE"

  datatype Option<T> = None | Some(value: T)

  /** A connection: its descriptor, the two lines its client sends, and the contents of the
      registering thread's uninitialised subscribed_info. */
  datatype Conn = Conn(fd: int, name: string, filter: string, info: seq<int>)

  predicate IsConn(c: Conn) {
    && |c.info| == TOPICS_NUMBER
    && -1 !in c.info
    && (c.filter == NONE || IsSubscription(Tokens(c.filter, '/')))
  }

  /** What goes into client_sus_list and topic_list for this connection. */
  function SusOf(c: Conn): string
    requires IsConn(c)
  {
    if c.filter == NONE then NONE else Tokens(c.filter, '/')[0]
  }

  function RowOf(c: Conn): (row: seq<int>)
    requires IsConn(c)
    ensures |row| == TOPICS_NUMBER
  {
    if c.filter == NONE then ZEROS else Row(c.info, Tokens(c.filter, '/'))
  }

  /** One index of the four parallel tables. */
  datatype Slot = Slot(fd: int, name: Option<string>, sus: Option<string>, topics: seq<int>)

  const BLANK := Slot(0, None, None, ZEROS)

  function Full(c: Conn): Slot
    requires IsConn(c)
  {
    Slot(c.fd, Some(c.name), Some(SusOf(c)), RowOf(c))
  }

  /** What a forwarder has gathered for one slot. `settled` records whether the slot's client was
      registered when its subscription was read; the program itself does not keep it. */
  datatype Want = Want(slot: nat, pub: string, sub: string, settled: bool, row: seq<int>)

  datatype Pc =
    | Arrived                               // sem_wait(sem_mutex)
    | WriteFd | WriteName | WriteSus | WriteTopic(k: nat)
    | Increment                             // fd_idx += 1
    | PostControl | PostMutex
    | WaitControl                           // sem_wait(sem_control)
    | Scan(i: nat)                          // client_sus_list[i] != NULL
    | Compare(i: nat)                       // strcmp(client_sus_list[i], "NONE")
    | TakeName(i: nat, pub: string, settled: bool)
    | TakeTopics(want: Want)
    | FindPub(want: Want, k: nat) | TakePubFd(want: Want, k: nat)
    | FindSub(want: Want, fdPub: int, k: nat) | TakeSubFd(want: Want, fdPub: int, k: nat)
    | CallForward(want: Want, fdPub: int, fdSus: int)
    | NoPublisher                           // the lookup returned -1
    | NoSubscriber

  datatype Thread = Thread(conn: Conn, pc: Pc)

  datatype Call = Call(want: Want, fdPub: int, fdSus: int)

  /** The shared state, every thread's position, and two histories: the connections registered so
      far and the forward_message calls made so far. */
  datatype State = State(
    mutex: nat, control: nat, fdIdx: nat, slots: seq<Slot>,
    threads: map<nat, Thread>, log: seq<Conn>, calls: seq<Call>)

  const INIT := State(1, 0, 0, seq(LIMIT_CONN_CLIENTS, _ => BLANK), map[], [], [])

  datatype Action = Accept(t: nat, conn: Conn) | Run(t: nat)

  predicate InCritical(pc: Pc) {
    pc.WriteFd? || pc.WriteName? || pc.WriteSus? || pc.WriteTopic? || pc.Increment? || pc.PostControl? || pc.PostMutex?
  }

  predicate IsWriting(pc: Pc) {
    pc.WriteFd? || pc.WriteName? || pc.WriteSus? || pc.WriteTopic? || pc.Increment?
  }

  /** Past sem_wait(sem_control). */
  predicate IsPast(pc: Pc) {
    !pc.Arrived? && !InCritical(pc) && !pc.WaitControl?
  }

  predicate IsRegistered(pc: Pc) {
    !pc.Arrived? && !IsWriting(pc)
  }

  /** The table entry that the next step of this thread touches exists and is not a null pointer. */
  predicate Accessible(s: State, pc: Pc) {
    match pc
    case WriteFd | WriteName | WriteSus => s.fdIdx < |s.slots|
    case WriteTopic(k) => s.fdIdx < |s.slots| && k < TOPICS_NUMBER && |s.slots[s.fdIdx].topics| == TOPICS_NUMBER
    case Scan(i) => i < |s.slots|
    case Compare(i) => i < |s.slots| && s.slots[i].sus.Some?
    case TakeName(i, _, _) => i < |s.slots| && s.slots[i].name.Some?
    case TakeTopics(w) =>
      w.slot < |s.slots| && |w.row| < TOPICS_NUMBER && |s.slots[w.slot].topics| == TOPICS_NUMBER
    case FindPub(_, k) => k < |s.slots|
    case TakePubFd(_, k) => k < |s.slots|
    case FindSub(_, _, k) => k < |s.slots|
    case TakeSubFd(_, _, k) => k < |s.slots|
    case _ => true
  }

  /** Whether the step can be taken now. The tables have room for LIMIT_CONN_CLIENTS - 1 clients and
      the null entry that ends a scan; runs that register more are outside this model. */
  predicate Ready(s: State, pc: Pc) {
    match pc
    case Arrived => s.mutex > 0 && s.fdIdx < LIMIT_CONN_CLIENTS - 1
    case WaitControl => s.control > 0
    case NoPublisher | NoSubscriber => false
    case _ => true
  }

  predicate Enabled(s: State, a: Action) {
    match a
    case Accept(t, conn) => t !in s.threads && IsConn(conn)
    case Run(t) =>
      && t in s.threads && IsConn(s.threads[t].conn)
      && Ready(s, s.threads[t].pc) && Accessible(s, s.threads[t].pc)
  }

  function Goto(s: State, t: nat, pc: Pc): State
    requires t in s.threads
  {
    s.(threads := s.threads[t := s.threads[t].(pc := pc)])
  }

  function Put(s: State, slot: Slot): State
    requires s.fdIdx < |s.slots|
  {
    s.(slots := s.slots[s.fdIdx := slot])
  }

  /** The registering half: thread() up to the call of forward_messages. */
  function Register(s: State, t: nat): State
    requires t in s.threads && !IsPast(s.threads[t].pc) && Enabled(s, Run(t))
  {
    var c := s.threads[t].conn;
    match s.threads[t].pc
    case Arrived => Goto(s.(mutex := s.mutex - 1), t, WriteFd)
    case WriteFd => Goto(Put(s, s.slots[s.fdIdx].(fd := c.fd)), t, WriteName)
    case WriteName => Goto(Put(s, s.slots[s.fdIdx].(name := Some(c.name))), t, WriteSus)
    case WriteSus =>
      Goto(Put(s, s.slots[s.fdIdx].(sus := Some(SusOf(c)))), t,
           if c.filter == NONE then Increment else WriteTopic(0))
    case WriteTopic(k) =>
      var slot := s.slots[s.fdIdx];
      Goto(Put(s, slot.(topics := slot.topics[k := RowOf(c)[k]])), t,
           if k + 1 < TOPICS_NUMBER then WriteTopic(k + 1) else Increment)
    case Increment => Goto(s.(fdIdx := s.fdIdx + 1, log := s.log + [c]), t, PostControl)
    case PostControl => Goto(s.(control := if s.fdIdx >= 2 then s.control + 1 else s.control), t, PostMutex)
    case PostMutex => Goto(s.(mutex := s.mutex + 1), t, WaitControl)
    case WaitControl => Goto(s.(control := s.control - 1), t, Scan(0))
  }

  /** Where a forwarder goes next: forward_messages and find_index_by_client_name. */
  function NextPc(s: State, pc: Pc): Pc
    requires IsPast(pc) && Ready(s, pc) && Accessible(s, pc)
  {
    match pc
    case Scan(i) => if s.slots[i].sus.None? then Scan(0) else Compare(i)
    case Compare(i) =>
      if s.slots[i].sus.value == NONE then Scan(i + 1) else TakeName(i, s.slots[i].sus.value, i < s.fdIdx)
    case TakeName(i, pub, settled) => TakeTopics(Want(i, pub, s.slots[i].name.value, settled, []))
    case TakeTopics(w) =>
      var w' := w.(row := w.row + [s.slots[w.slot].topics[|w.row|]]);
      if |w'.row| < TOPICS_NUMBER then TakeTopics(w') else FindPub(w', 0)
    case FindPub(w, k) =>
      if s.slots[k].name.None? then NoPublisher
      else if s.slots[k].name.value == w.pub then TakePubFd(w, k) else FindPub(w, k + 1)
    case TakePubFd(w, k) => FindSub(w, s.slots[k].fd, 0)
    case FindSub(w, fdPub, k) =>
      if s.slots[k].name.None? then NoSubscriber
      else if s.slots[k].name.value == w.sub then TakeSubFd(w, fdPub, k) else FindSub(w, fdPub, k + 1)
    case TakeSubFd(w, fdPub, k) => CallForward(w, fdPub, s.slots[k].fd)
    case CallForward(w, _, _) => Scan(w.slot + 1)
  }

  function Apply(s: State, a: Action): State
    requires Enabled(s, a)
  {
    match a
    case Accept(t, conn) => s.(threads := s.threads[t := Thread(conn, Arrived)])
    case Run(t) =>
      var pc := s.threads[t].pc;
      if IsPast(pc) then
        var s' := if pc.CallForward? then s.(calls := s.calls + [Call(pc.want, pc.fdPub, pc.fdSus)]) else s;
        Goto(s', t, NextPc(s, pc))
      else
        Register(s, t)
  }
}
