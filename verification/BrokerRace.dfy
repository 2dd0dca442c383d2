/** Why CallsAreRight speaks of settled slots only, and which clients that can hurt: the name of the
    publisher is published before the topic row is, so a forwarder can copy a row not yet there. */
module BrokerRace {
  import opened Topics
  import opened Broker
  import opened BrokerRuns

  const INFO := [7, 7, 7, 7, 7, 7]

  ghost predicate Reaches(s: State, s': State) {
    exists acts :: IsRun(s, acts) && After(s, acts) == s'
  }

  lemma {:induction false} RunThen(s: State, acts: seq<Action>, a: Action)
    requires IsRun(s, acts) && Enabled(After(s, acts), a)
    ensures IsRun(s, acts + [a]) && After(s, acts + [a]) == Apply(After(s, acts), a)
    decreases |acts|
  {
    hide Enabled, Apply;
    if acts == [] {
      assert acts + [a] == [a];
      assert [a][1..] == [];
    } else {
      assert (acts + [a])[1..] == acts[1..] + [a];
      RunThen(Apply(s, acts[0]), acts[1..], a);
    }
  }

  lemma ReachesItself(s: State)
    ensures Reaches(s, s)
  {
    assert IsRun(s, []) && After(s, []) == s;
  }

  lemma OneMore(s: State, s': State, a: Action)
    requires Reaches(s, s') && Enabled(s', a)
    ensures Reaches(s, Apply(s', a))
  {
    var acts :| IsRun(s, acts) && After(s, acts) == s';
    RunThen(s, acts, a);
  }

  /** A client without a subscription that registers with nobody in its way. */
  lemma RegistersAlone(s0: State, s: State, t: nat, c: Conn)
    requires Reaches(s0, s) && t !in s.threads && IsConn(c) && c.filter == NONE
    requires s.mutex == 1 && s.fdIdx < LIMIT_CONN_CLIENTS - 1 && |s.slots| == LIMIT_CONN_CLIENTS
    requires s.slots[s.fdIdx] == BLANK
    ensures Reaches(s0, s.(
              slots := s.slots[s.fdIdx := Full(c)], fdIdx := s.fdIdx + 1, log := s.log + [c],
              control := if s.fdIdx + 1 >= 2 then s.control + 1 else s.control,
              threads := s.threads[t := Thread(c, WaitControl)]))
  {
    hide Reaches, IsConn;
    var s1 := Apply(s, Accept(t, c));
    OneMore(s0, s, Accept(t, c));
    var s2 := Apply(s1, Run(t));
    OneMore(s0, s1, Run(t));
    var s3 := Apply(s2, Run(t));
    OneMore(s0, s2, Run(t));
    var s4 := Apply(s3, Run(t));
    OneMore(s0, s3, Run(t));
    var s5 := Apply(s4, Run(t));
    OneMore(s0, s4, Run(t));
    var full := s.slots[s.fdIdx := Full(c)];
    assert s5.slots == full;
    var mid := s1.(mutex := 0, slots := full);
    assert s5 == Goto(mid, t, Increment);
    FinishesAlone(s0, mid, t, c);
    assert mid.threads[t := Thread(c, WaitControl)] == s.threads[t := Thread(c, WaitControl)];
  }

  lemma FinishesAlone(s0: State, s: State, t: nat, c: Conn)
    requires t in s.threads && s.threads[t].conn == c && IsConn(c) && s.mutex == 0
    requires Reaches(s0, Goto(s, t, Increment))
    ensures Reaches(s0, s.(
              mutex := 1, fdIdx := s.fdIdx + 1, log := s.log + [c],
              control := if s.fdIdx + 1 >= 2 then s.control + 1 else s.control,
              threads := s.threads[t := Thread(c, WaitControl)]))
  {
    hide Reaches, IsConn;
    var s5 := Goto(s, t, Increment);
    var s6 := Apply(s5, Run(t));
    OneMore(s0, s5, Run(t));
    var s7 := Apply(s6, Run(t));
    OneMore(s0, s6, Run(t));
    OneMore(s0, s7, Run(t));
    assert Apply(s7, Run(t)).threads == s.threads[t := Thread(c, WaitControl)];
  }

  /** The subscriber as far as publishing the name it subscribes to. */
  lemma PublishesEarly(s0: State, s: State, t: nat, c: Conn)
    requires Reaches(s0, s) && t !in s.threads && IsConn(c) && c.filter != NONE
    requires s.mutex == 1 && s.fdIdx < LIMIT_CONN_CLIENTS - 1 && |s.slots| == LIMIT_CONN_CLIENTS
    requires s.slots[s.fdIdx] == BLANK
    ensures Reaches(s0, s.(
              mutex := 0, slots := s.slots[s.fdIdx := BLANK.(fd := c.fd, name := Some(c.name), sus := Some(SusOf(c)))],
              threads := s.threads[t := Thread(c, WriteTopic(0))]))
  {
    hide Reaches, IsConn, SusOf;
    var s1 := Apply(s, Accept(t, c));
    OneMore(s0, s, Accept(t, c));
    var s2 := Apply(s1, Run(t));
    OneMore(s0, s1, Run(t));
    var s3 := Apply(s2, Run(t));
    OneMore(s0, s2, Run(t));
    var s4 := Apply(s3, Run(t));
    OneMore(s0, s3, Run(t));
    var s5 := Apply(s4, Run(t));
    OneMore(s0, s4, Run(t));
    assert s5.slots == s.slots[s.fdIdx := BLANK.(fd := c.fd, name := Some(c.name), sus := Some(SusOf(c)))];
    assert s5.threads == s.threads[t := Thread(c, WriteTopic(0))];
  }

  /** One step of thread t while nothing else moves. */
  lemma Walk(s0: State, s: State, t: nat, pc: Pc, next: Pc)
    requires t in s.threads && IsConn(s.threads[t].conn) && Reaches(s0, Goto(s, t, pc))
    requires IsPast(pc) && Ready(s, pc) && Accessible(s, pc) && !pc.CallForward? && NextPc(s, pc) == next
    ensures Reaches(s0, Goto(s, t, next))
  {
    hide Reaches, IsConn;
    var here := Goto(s, t, pc);
    assert NextPc(here, pc) == next by { NextPcSame(s, here, pc); }
    OneMore(s0, here, Run(t));
    assert Apply(here, Run(t)) == Goto(s, t, next);
  }

  lemma NextPcSame(s: State, s': State, pc: Pc)
    requires s'.slots == s.slots && s'.fdIdx == s.fdIdx && s'.control == s.control && s'.mutex == s.mutex
    requires IsPast(pc) && Ready(s, pc) && Accessible(s, pc)
    ensures Ready(s', pc) && Accessible(s', pc) && NextPc(s', pc) == NextPc(s, pc)
  {
  }

  /** The six entries of a topic row, copied one at a time. */
  lemma {:induction false} WalkTopics(s0: State, s: State, t: nat, w: Want, n: nat)
    requires t in s.threads && IsConn(s.threads[t].conn) && w.slot < |s.slots|
    requires n < TOPICS_NUMBER && w.row == ZEROS[..n] && s.slots[w.slot].topics == ZEROS
    requires Reaches(s0, Goto(s, t, TakeTopics(w)))
    ensures Reaches(s0, Goto(s, t, FindPub(w.(row := ZEROS), 0)))
    decreases TOPICS_NUMBER - n
  {
    hide Reaches, IsConn;
    var row := ZEROS[..n] + [ZEROS[n]];
    assert row == ZEROS[..n + 1];
    var w' := w.(row := row);
    if n + 1 < TOPICS_NUMBER {
      Walk(s0, s, t, TakeTopics(w), TakeTopics(w'));
      WalkTopics(s0, s, t, w', n + 1);
    } else {
      assert row == ZEROS;
      Walk(s0, s, t, TakeTopics(w), FindPub(w', 0));
    }
  }

  predicate Subscribes(c: Conn) {
    IsConn(c) && SusOf(c) != NONE
  }

  /** A client without a subscription. */
  predicate IsPlain(p: Conn) {
    IsConn(p) && p.filter == NONE
  }

  function Publisher(c: Conn, fd: int): (p: Conn)
    requires Subscribes(c)
    ensures IsPlain(p)
  {
    Conn(fd, SusOf(c), NONE, INFO)
  }

  /** Somebody of a third name. */
  function Bystander(c: Conn): Conn
    requires Subscribes(c)
  {
    Conn(0, c.name + SusOf(c) + "'", NONE, INFO)
  }

  /** The scene: two clients have registered, the subscriber's name and publisher are in its slot,
      its topic row is not, and thread 0 has been let into the loop. */
  function Scene(c: Conn, p: Conn): State
    requires Subscribes(c) && IsPlain(p)
  {
    var q := Bystander(c);
    State(0, 0, 2,
          [Full(p), Full(q), Slot(c.fd, Some(c.name), Some(SusOf(c)), ZEROS),
           BLANK, BLANK, BLANK, BLANK, BLANK, BLANK, BLANK],
          map[0 := Thread(p, Scan(0)), 1 := Thread(q, WaitControl), 2 := Thread(c, WriteTopic(0))],
          [p, q], [])
  }

  lemma HasFilter(c: Conn)
    requires Subscribes(c)
    ensures c.filter != NONE && IsPlain(Bystander(c))
  {
  }

  lemma SceneIsReached(c: Conn, p: Conn)
    requires Subscribes(c) && IsPlain(p)
    ensures Reaches(INIT, Scene(c, p))
  {
    HasFilter(c);
    hide Reaches, Full, SusOf, IsConn;
    var q := Bystander(c);
    ReachesItself(INIT);
    RegistersAlone(INIT, INIT, 0, p);
    var s1 := INIT.(slots := INIT.slots[0 := Full(p)], fdIdx := 1, log := [p],
                    threads := map[0 := Thread(p, WaitControl)]);
    assert INIT.log + [p] == [p] && INIT.threads[0 := Thread(p, WaitControl)] == s1.threads;
    RegistersAlone(INIT, s1, 1, q);
    var s2 := s1.(slots := s1.slots[1 := Full(q)], fdIdx := 2, log := [p, q], control := 1,
                  threads := map[0 := Thread(p, WaitControl), 1 := Thread(q, WaitControl)]);
    assert s1.log + [q] == s2.log && s1.threads[1 := Thread(q, WaitControl)] == s2.threads;
    PublishesEarly(INIT, s2, 2, c);
    assert s2.slots == [Full(p), Full(q), BLANK, BLANK, BLANK, BLANK, BLANK, BLANK, BLANK, BLANK];
    LetIn(c, p, s2);
  }

  /** The step of thread 0 through sem_wait(sem_control). */
  lemma LetIn(c: Conn, p: Conn, s2: State)
    requires Subscribes(c) && IsPlain(p)
    requires s2.fdIdx == 2 && s2.control == 1 && s2.calls == [] && |s2.slots| == LIMIT_CONN_CLIENTS
    requires s2.log == [p, Bystander(c)]
    requires s2.slots == [Full(p), Full(Bystander(c)),
                          BLANK, BLANK, BLANK, BLANK, BLANK, BLANK, BLANK, BLANK]
    requires s2.threads == map[0 := Thread(p, WaitControl), 1 := Thread(Bystander(c), WaitControl)]
    requires Reaches(INIT, s2.(
               mutex := 0, slots := s2.slots[2 := BLANK.(fd := c.fd, name := Some(c.name), sus := Some(SusOf(c)))],
               threads := s2.threads[2 := Thread(c, WriteTopic(0))]))
    ensures Reaches(INIT, Scene(c, p))
  {
    hide Reaches, Full, SusOf;
    var s3 := s2.(mutex := 0, slots := s2.slots[2 := BLANK.(fd := c.fd, name := Some(c.name), sus := Some(SusOf(c)))],
                  threads := s2.threads[2 := Thread(c, WriteTopic(0))]);
    OneMore(INIT, s3, Run(0));
    assert s3.slots == Scene(c, p).slots;
    assert Apply(s3, Run(0)).threads == Scene(c, p).threads;
  }

  /** What thread 0 finds in the tables of the scene. */
  lemma SceneFacts(c: Conn, p: Conn)
    requires Subscribes(c) && IsPlain(p)
    ensures
      var m := Scene(c, p);
      && |m.slots| == LIMIT_CONN_CLIENTS && m.fdIdx == 2 && m.calls == []
      && 0 in m.threads && IsConn(m.threads[0].conn) && m == Goto(m, 0, Scan(0))
      && m.slots[0].sus == m.slots[1].sus == Some(NONE) && m.slots[2].sus == Some(SusOf(c))
      && m.slots[0].name == Some(p.name) && m.slots[0].fd == p.fd
      && m.slots[1].name.Some? && m.slots[1].name.value != c.name && m.slots[1].name.value != SusOf(c)
      && m.slots[2].name == Some(c.name) && m.slots[2].fd == c.fd && m.slots[2].topics == ZEROS
  {
  }

  lemma WalkPast(c: Conn, p: Conn)
    requires Subscribes(c) && IsPlain(p) && Reaches(INIT, Scene(c, p))
    ensures 0 in Scene(c, p).threads
    ensures Reaches(INIT, Goto(Scene(c, p), 0, Scan(2)))
  {
    SceneFacts(c, p);
    hide Reaches, Scene, SusOf, IsConn, Apply, Goto;
    var m := Scene(c, p);
    Walk(INIT, m, 0, Scan(0), Compare(0));
    Walk(INIT, m, 0, Compare(0), Scan(1));
    Walk(INIT, m, 0, Scan(1), Compare(1));
    Walk(INIT, m, 0, Compare(1), Scan(2));
  }

  lemma WalkToSlot(c: Conn, p: Conn)
    requires Subscribes(c) && IsPlain(p) && 0 in Scene(c, p).threads && Reaches(INIT, Goto(Scene(c, p), 0, Scan(2)))
    ensures Reaches(INIT, Goto(Scene(c, p), 0, FindPub(Want(2, SusOf(c), c.name, false, ZEROS), 0)))
  {
    SceneFacts(c, p);
    hide Reaches, Scene, SusOf, IsConn, Apply, Goto;
    var m := Scene(c, p);
    Walk(INIT, m, 0, Scan(2), Compare(2));
    Walk(INIT, m, 0, Compare(2), TakeName(2, SusOf(c), false));
    var w := Want(2, SusOf(c), c.name, false, []);
    Walk(INIT, m, 0, TakeName(2, SusOf(c), false), TakeTopics(w));
    WalkTopics(INIT, m, 0, w, 0);
    assert w.(row := ZEROS) == Want(2, SusOf(c), c.name, false, ZEROS);
  }

  lemma WalkToSubscriber(c: Conn, p: Conn, w: Want)
    requires Subscribes(c) && IsPlain(p) && p.name == SusOf(c) && w == Want(2, SusOf(c), c.name, false, ZEROS)
    requires 0 in Scene(c, p).threads && Reaches(INIT, Goto(Scene(c, p), 0, FindPub(w, 0)))
    ensures Reaches(INIT, Goto(Scene(c, p), 0, FindSub(w, p.fd, 0)))
  {
    SceneFacts(c, p);
    hide Reaches, Scene, SusOf, IsConn, Apply, Goto;
    var m := Scene(c, p);
    Walk(INIT, m, 0, FindPub(w, 0), TakePubFd(w, 0));
    Walk(INIT, m, 0, TakePubFd(w, 0), FindSub(w, p.fd, 0));
  }

  /** find_index_by_client_name stops at the publisher for a client that subscribes to its own name. */
  function SubscriberFd(c: Conn, fd: int): int
    requires Subscribes(c)
  {
    if c.name == SusOf(c) then fd else c.fd
  }

  lemma WalkToOwnSlot(c: Conn, p: Conn, w: Want)
    requires Subscribes(c) && IsPlain(p) && p.name == SusOf(c) && c.name != SusOf(c)
    requires w == Want(2, SusOf(c), c.name, false, ZEROS)
    requires 0 in Scene(c, p).threads && Reaches(INIT, Goto(Scene(c, p), 0, FindSub(w, p.fd, 0)))
    ensures Reaches(INIT, Goto(Scene(c, p), 0, FindSub(w, p.fd, 2)))
  {
    SceneFacts(c, p);
    hide Reaches, Scene, SusOf, IsConn, Apply, Goto;
    var m := Scene(c, p);
    Walk(INIT, m, 0, FindSub(w, p.fd, 0), FindSub(w, p.fd, 1));
    Walk(INIT, m, 0, FindSub(w, p.fd, 1), FindSub(w, p.fd, 2));
  }

  lemma WalkToCall(c: Conn, p: Conn, w: Want)
    requires Subscribes(c) && IsPlain(p) && p.name == SusOf(c) && w == Want(2, SusOf(c), c.name, false, ZEROS)
    requires 0 in Scene(c, p).threads && Reaches(INIT, Goto(Scene(c, p), 0, FindSub(w, p.fd, 0)))
    ensures Reaches(INIT, Goto(Scene(c, p), 0, CallForward(w, p.fd, SubscriberFd(c, p.fd))))
  {
    if c.name == SusOf(c) {
      WalkFromFound(c, p, w, 0);
    } else {
      WalkToOwnSlot(c, p, w);
      WalkFromFound(c, p, w, 2);
    }
  }

  lemma WalkFromFound(c: Conn, p: Conn, w: Want, k: nat)
    requires Subscribes(c) && IsPlain(p) && p.name == SusOf(c) && w == Want(2, SusOf(c), c.name, false, ZEROS)
    requires k == if c.name == SusOf(c) then 0 else 2
    requires 0 in Scene(c, p).threads && Reaches(INIT, Goto(Scene(c, p), 0, FindSub(w, p.fd, k)))
    ensures Reaches(INIT, Goto(Scene(c, p), 0, CallForward(w, p.fd, SubscriberFd(c, p.fd))))
  {
    SceneFacts(c, p);
    hide Reaches, Scene, SusOf, IsConn, Apply, Goto;
    var m := Scene(c, p);
    Walk(INIT, m, 0, FindSub(w, p.fd, k), TakeSubFd(w, p.fd, k));
    Walk(INIT, m, 0, TakeSubFd(w, p.fd, k), CallForward(w, p.fd, SubscriberFd(c, p.fd)));
  }

  /** Thread t fills in the rest of its row; no call is made meanwhile. */
  lemma {:induction false} FinishesRow(s: State, t: nat, c: Conn, k: nat) returns (s': State)
    requires Reaches(INIT, s) && IsConn(c) && k < TOPICS_NUMBER
    requires t in s.threads && s.threads[t] == Thread(c, WriteTopic(k))
    requires s.fdIdx < |s.slots| && |s.slots[s.fdIdx].topics| == TOPICS_NUMBER
    ensures Reaches(INIT, s') && t in s'.threads && s'.threads[t] == Thread(c, Increment)
    ensures s'.fdIdx == s.fdIdx && s'.log == s.log && s'.calls == s.calls
    decreases TOPICS_NUMBER - k
  {
    hide Reaches, IsConn, RowOf;
    OneMore(INIT, s, Run(t));
    s' := Apply(s, Run(t));
    if k + 1 < TOPICS_NUMBER {
      s' := FinishesRow(s', t, c, k + 1);
    }
  }

  /** For every subscriber, whatever its filter, there is a run that calls forward_message with a row
      of zeros for its slot, and then registers it there. */
  lemma LateRow(c: Conn, fd: int) returns (s: State, call: Call)
    requires Subscribes(c)
    ensures Reaches(INIT, s) && call in s.calls && !call.want.settled
    ensures call.fdPub == fd && call.fdSus == SubscriberFd(c, fd)
    ensures call.want.slot < |s.log| && s.log[call.want.slot] == c && call.want.row == ZEROS
  {
    hide Reaches;
    var p := Publisher(c, fd);
    SceneIsReached(c, p);
    WalkPast(c, p);
    WalkToSlot(c, p);
    var w := Want(2, SusOf(c), c.name, false, ZEROS);
    WalkToSubscriber(c, p, w);
    WalkToCall(c, p, w);
    SceneFacts(c, p);
    SceneWriter(c, p);
    hide Scene, SusOf, IsConn;
    call := Call(w, fd, SubscriberFd(c, fd));
    s := CallThenRegister(c, Scene(c, p), call);
  }

  lemma SceneWriter(c: Conn, p: Conn)
    requires Subscribes(c) && IsPlain(p)
    ensures
      var m := Scene(c, p);
      2 in m.threads && m.threads[2] == Thread(c, WriteTopic(0)) && |m.log| == 2
  {
  }

  lemma CallThenRegister(c: Conn, m: State, call: Call) returns (s: State)
    requires IsConn(c) && |m.slots| == LIMIT_CONN_CLIENTS && m.fdIdx == 2 == |m.log| && m.calls == []
    requires 0 in m.threads && IsConn(m.threads[0].conn)
    requires 2 in m.threads && m.threads[2] == Thread(c, WriteTopic(0)) && |m.slots[2].topics| == TOPICS_NUMBER
    requires Reaches(INIT, Goto(m, 0, CallForward(call.want, call.fdPub, call.fdSus)))
    ensures Reaches(INIT, s) && s.calls == [call] && s.log == m.log + [c]
  {
    hide Reaches, IsConn;
    var here := Goto(m, 0, CallForward(call.want, call.fdPub, call.fdSus));
    OneMore(INIT, here, Run(0));
    var called := Apply(here, Run(0));
    assert called.calls == [] + [call];
    var filled := FinishesRow(called, 2, c, 0);
    OneMore(INIT, filled, Run(2));
    s := Apply(filled, Run(2));
  }

  ghost predicate SameTopics(row: seq<int>, wanted: seq<int>) {
    |row| == |wanted| && forall m :: 0 <= m < |row| ==> (row[m] == -1 <==> wanted[m] == -1)
  }

  predicate IsCallFor(c: Conn, s: State, call: Call) {
    call in s.calls && call.want.slot < |s.log| && s.log[call.want.slot] == c
  }

  /** Every call made so far for a slot where client c is registered by now has c's own topics. */
  ghost predicate RightTopics(c: Conn, s: State)
    requires IsConn(c)
  {
    forall call :: IsCallFor(c, s, call) ==> SameTopics(call.want.row, RowOf(c))
  }

  /** The race can be lost by every client that subscribes to somebody and whose filter leaves a topic
      out, and by no other. */
  lemma RaceIsLostExactly(c: Conn)
    requires IsConn(c)
    ensures (forall s :: Reaches(INIT, s) ==> RightTopics(c, s)) <==> SusOf(c) == NONE || -1 !in RowOf(c)
  {
    hide RowOf, SusOf, Reaches;
    if SusOf(c) == NONE || -1 !in RowOf(c) {
      forall s, call | Reaches(INIT, s) && IsCallFor(c, s, call) ensures SameTopics(call.want.row, RowOf(c)) {
        CannotBeLost(c, s, call);
      }
    } else {
      var s, call := LateRow(c, 0);
      assert IsCallFor(c, s, call);
      assert !SameTopics(call.want.row, RowOf(c));
    }
  }

  lemma CannotBeLost(c: Conn, s: State, call: Call)
    requires IsConn(c) && (SusOf(c) == NONE || -1 !in RowOf(c))
    requires Reaches(INIT, s) && IsCallFor(c, s, call)
    ensures SameTopics(call.want.row, RowOf(c))
  {
    var acts :| IsRun(INIT, acts) && After(INIT, acts) == s;
    hide RowOf, SusOf, IsRun, After, IsConn;
    CallsAreRight(acts, call);
    NeverTooFewTopics(acts, call, 0);
    forall m | 0 <= m < TOPICS_NUMBER ensures call.want.row[m] == -1 ==> RowOf(c)[m] == -1 {
      NeverTooFewTopics(acts, call, m);
    }
  }
}
