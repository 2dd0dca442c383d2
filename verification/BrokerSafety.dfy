/** What holds in every reachable state of the broker, over every interleaving. */
module BrokerSafety {
  import opened Tokenizer
  import opened Topics
  import opened Broker

  /** What the registering thread has put into its slot so far. */
  function Written(pc: Pc, c: Conn): Slot
    requires IsConn(c)
  {
    match pc
    case WriteName => BLANK.(fd := c.fd)
    case WriteSus => BLANK.(fd := c.fd, name := Some(c.name))
    case WriteTopic(k) =>
      var n := if k <= TOPICS_NUMBER then k else TOPICS_NUMBER;
      Slot(c.fd, Some(c.name), Some(SusOf(c)), RowOf(c)[..n] + ZEROS[n..])
    case Increment => Full(c)
    case _ => BLANK
  }

  ghost predicate Shape(s: State) {
    && |s.slots| == LIMIT_CONN_CLIENTS
    && s.fdIdx == |s.log| < LIMIT_CONN_CLIENTS
    && (forall c :: c in s.log ==> IsConn(c))
    && (forall t :: t in s.threads ==> IsConn(s.threads[t].conn))
  }

  /** sem_mutex is a lock: it is free exactly when nobody is in the critical section, and two threads
      never are. */
  ghost predicate Locked(s: State) {
    && s.mutex <= 1
    && (forall t :: t in s.threads && InCritical(s.threads[t].pc) ==> s.mutex == 0)
    && (s.mutex == 0 ==> exists t :: t in s.threads && InCritical(s.threads[t].pc))
    && (forall t, u :: t in s.threads && u in s.threads && InCritical(s.threads[t].pc) && InCritical(s.threads[u].pc)
                       ==> t == u)
  }

  /** Below fd_idx every slot holds exactly the connection registered there; the slot at fd_idx holds
      what the thread in the critical section has written; nothing else has been touched. */
  ghost predicate Tables(s: State)
    requires Shape(s)
  {
    && (forall i :: 0 <= i < s.fdIdx ==> s.slots[i] == Full(s.log[i]))
    && (forall i :: s.fdIdx < i < LIMIT_CONN_CLIENTS ==> s.slots[i] == BLANK)
    && (forall t :: t in s.threads && InCritical(s.threads[t].pc) ==>
          && s.slots[s.fdIdx] == Written(s.threads[t].pc, s.threads[t].conn)
          && (s.threads[t].pc.WriteTopic? ==> s.threads[t].pc.k < TOPICS_NUMBER)
          && (IsWriting(s.threads[t].pc) ==> s.fdIdx < LIMIT_CONN_CLIENTS - 1))
    && (s.mutex == 1 ==> s.slots[s.fdIdx] == BLANK)
  }

  ghost predicate Registry(s: State) {
    Shape(s) && Locked(s) && Tables(s)
  }

  lemma RegistryAtStart()
    ensures Registry(INIT)
  {
  }

  /** A forwarding thread touches neither the tables nor the lock. */
  lemma ForwardKeepsRegistry(s: State, t: nat)
    requires Registry(s) && Enabled(s, Run(t)) && IsPast(s.threads[t].pc)
    ensures Registry(Apply(s, Run(t)))
  {
    var s' := Apply(s, Run(t));
    NextIsPast(s, s.threads[t].pc);
    assert forall u :: u != t && u in s.threads ==> u in s'.threads && s'.threads[u] == s.threads[u];
    if s.mutex == 0 {
      var u :| u in s.threads && InCritical(s.threads[u].pc);
      assert u in s'.threads && InCritical(s'.threads[u].pc);
    }
  }

  lemma NextIsPast(s: State, pc: Pc)
    requires IsPast(pc) && Ready(s, pc) && Accessible(s, pc)
    ensures IsPast(NextPc(s, pc))
  {
  }

  lemma AcceptKeepsRegistry(s: State, t: nat, conn: Conn)
    requires Registry(s) && Enabled(s, Accept(t, conn))
    ensures Registry(Apply(s, Accept(t, conn)))
  {
    var s' := Apply(s, Accept(t, conn));
    assert forall u :: u in s.threads ==> u in s'.threads && s'.threads[u] == s.threads[u];
    if s.mutex == 0 {
      var u :| u in s.threads && InCritical(s.threads[u].pc);
      assert u in s'.threads && InCritical(s'.threads[u].pc);
    }
  }

  lemma RegisterKeepsLock(s: State, t: nat)
    requires Shape(s) && Locked(s) && Enabled(s, Run(t)) && !IsPast(s.threads[t].pc)
    ensures Locked(Register(s, t))
  {
    var s' := Register(s, t);
    assert t in s'.threads && forall u :: u != t && u in s.threads ==> u in s'.threads && s'.threads[u] == s.threads[u];
    if s.mutex == 0 {
      var u :| u in s.threads && InCritical(s.threads[u].pc);
      assert u in s'.threads;
    }
  }

  /** The critical section writes one field of one slot at a time. */
  lemma WritingKeepsTables(s: State, t: nat)
    requires Registry(s) && Enabled(s, Run(t)) && IsWriting(s.threads[t].pc) && !s.threads[t].pc.Increment?
    requires Locked(Register(s, t))
    ensures Registry(Register(s, t))
  {
    hide Full, SusOf, RowOf, IsConn, Written;
    var s' := Register(s, t);
    var pc, c := s.threads[t].pc, s.threads[t].conn;
    WrittenFirst(c);
    assert s.mutex == 0 && s'.mutex == 0;
    assert s.slots[s.fdIdx] == Written(pc, c);
    WrittenNext(pc, c);
    assert s'.slots[s.fdIdx] == Written(s'.threads[t].pc, c);
    assert forall u :: u in s'.threads && InCritical(s'.threads[u].pc) ==> u == t;
  }

  lemma WrittenFirst(c: Conn)
    requires IsConn(c)
    ensures Written(WriteFd, c) == BLANK
  {
  }

  /** Field by field, the slot grows into the full record of the connection. */
  lemma WrittenNext(pc: Pc, c: Conn)
    requires IsConn(c)
    ensures Written(WriteFd, c).(fd := c.fd) == Written(WriteName, c)
    ensures Written(WriteName, c).(name := Some(c.name)) == Written(WriteSus, c)
    ensures Written(WriteSus, c).(sus := Some(SusOf(c))) ==
              Written(if c.filter == NONE then Increment else WriteTopic(0), c)
    ensures pc.WriteTopic? && pc.k < TOPICS_NUMBER ==>
              var slot := Written(pc, c);
              && |slot.topics| == TOPICS_NUMBER
              && slot.(topics := slot.topics[pc.k := RowOf(c)[pc.k]]) ==
                   Written(if pc.k + 1 < TOPICS_NUMBER then WriteTopic(pc.k + 1) else Increment, c)
  {
    hide Full, SusOf, RowOf;
    WrittenSus(c);
    if pc.WriteTopic? && pc.k < TOPICS_NUMBER {
      WrittenTopic(pc.k, c);
    }
  }

  lemma WrittenSus(c: Conn)
    requires IsConn(c)
    ensures Written(WriteSus, c).(sus := Some(SusOf(c))) ==
              Written(if c.filter == NONE then Increment else WriteTopic(0), c)
  {
  }

  lemma WrittenTopic(k: nat, c: Conn)
    requires IsConn(c) && k < TOPICS_NUMBER
    ensures
      var slot := Written(WriteTopic(k), c);
      && |slot.topics| == TOPICS_NUMBER
      && slot.(topics := slot.topics[k := RowOf(c)[k]]) ==
           Written(if k + 1 < TOPICS_NUMBER then WriteTopic(k + 1) else Increment, c)
  {
    hide SusOf, IsSubscription, Tokens, Row, RowOf;
    var row := RowOf(c);
    RowFill(row, ZEROS, k);
    assert Written(WriteTopic(k), c).topics == row[..k] + ZEROS[k..];
    if k + 1 < TOPICS_NUMBER {
      assert Written(WriteTopic(k + 1), c).topics == row[..k + 1] + ZEROS[k + 1..];
    } else {
      assert ZEROS[k + 1..] == [] && row[..k + 1] == row;
    }
  }

  lemma RowFill(row: seq<int>, zeros: seq<int>, k: nat)
    requires |row| == |zeros| && k < |row|
    ensures row[..0] + zeros[0..] == zeros
    ensures (row[..k] + zeros[k..])[k := row[k]] == row[..k + 1] + zeros[k + 1..]
    ensures row[..|row|] + zeros[|row|..] == row
  {
  }

  lemma LockingKeepsTables(s: State, t: nat)
    requires Registry(s) && Enabled(s, Run(t))
    requires s.threads[t].pc.Arrived? || s.threads[t].pc.PostMutex?
    requires Locked(Register(s, t))
    ensures Registry(Register(s, t))
  {
  }

  lemma IncrementKeepsTables(s: State, t: nat)
    requires Registry(s) && Enabled(s, Run(t)) && s.threads[t].pc.Increment?
    requires Locked(Register(s, t))
    ensures Registry(Register(s, t))
  {
    hide RowOf, SusOf, IsConn;
    var s' := Register(s, t);
    assert s.slots[s.fdIdx] == Full(s.threads[t].conn);
    assert forall u :: u in s'.threads && InCritical(s'.threads[u].pc) ==> u == t;
    assert s'.slots == s.slots && s'.mutex == 0;
  }

  lemma ControlKeepsTables(s: State, t: nat)
    requires Registry(s) && Enabled(s, Run(t))
    requires s.threads[t].pc.PostControl? || s.threads[t].pc.WaitControl?
    requires Locked(Register(s, t))
    ensures Registry(Register(s, t))
  {
    hide Full, RowOf, SusOf, IsConn;
    var s' := Register(s, t);
    assert s'.slots == s.slots && s'.mutex == s.mutex;
    assert forall u :: u in s'.threads ==> u == t || s'.threads[u] == s.threads[u];
  }

  lemma StepKeepsRegistry(s: State, a: Action)
    requires Registry(s) && Enabled(s, a)
    ensures Registry(Apply(s, a))
  {
    match a {
      case Accept(t, conn) => AcceptKeepsRegistry(s, t, conn);
      case Run(t) =>
        var pc := s.threads[t].pc;
        if IsPast(pc) {
          ForwardKeepsRegistry(s, t);
        } else {
          RegisterKeepsLock(s, t);
          if pc.Increment? {
            IncrementKeepsTables(s, t);
          } else if IsWriting(pc) {
            WritingKeepsTables(s, t);
          } else if pc.Arrived? || pc.PostMutex? {
            LockingKeepsTables(s, t);
          } else {
            ControlKeepsTables(s, t);
          }
        }
    }
  }
}
