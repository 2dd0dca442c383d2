/** The forwarding loop inside the protocol: while the tables stay as they are, every forwarder of the
    broker, interleaved with whatever else, makes its calls in the turns of Dispatch. */
module BrokerTurns {
  import opened Broker
  import opened BrokerSafety
  import opened BrokerCounting
  import opened BrokerScan
  import opened BrokerRuns
  import opened Dispatch

  /** No step of the run changes the tables. */
  ghost predicate IsQuiet(s: State, acts: seq<Action>)
    requires IsRun(s, acts)
    decreases |acts|
  {
    acts == [] || (Apply(s, acts[0]).slots == s.slots && IsQuiet(Apply(s, acts[0]), acts[1..]))
  }

  /** The call that this action makes for thread t, if any. */
  function CallBy(s: State, a: Action, t: nat): seq<Served> {
    if a == Run(t) && t in s.threads && s.threads[t].pc.CallForward? then
      var pc := s.threads[t].pc;
      [Served(pc.want.slot, pc.fdPub, pc.fdSus, pc.want.row)]
    else
      []
  }

  /** The calls of forward_message that thread t makes in a run. */
  ghost function CallsBy(s: State, acts: seq<Action>, t: nat): seq<Served>
    requires IsRun(s, acts)
    decreases |acts|
  {
    if acts == [] then [] else CallBy(s, acts[0], t) + CallsBy(Apply(s, acts[0]), acts[1..], t)
  }

  /** The slot that a forwarder is busy with. */
  function SlotOf(pc: Pc): nat {
    match pc
    case Scan(i) => i
    case Compare(i) => i
    case TakeName(i, _, _) => i
    case TakeTopics(w) => w.slot
    case FindPub(w, _) => w.slot
    case TakePubFd(w, _) => w.slot
    case FindSub(w, _, _) => w.slot
    case TakeSubFd(w, _, _) => w.slot
    case CallForward(w, _, _) => w.slot
    case _ => 0
  }

  /** A forwarder in its `rounds`-th pass over a complete table. */
  ghost predicate InTurns(slots: seq<Slot>, n: nat, pc: Pc, rounds: nat, calls: seq<Served>)
    requires n <= |slots| && Subscribed(slots, n) != []
  {
    && IsPast(pc) && !pc.NoPublisher? && !pc.NoSubscriber?
    && SlotOf(pc) <= n && Progress(slots, n, rounds, SlotOf(pc), calls)
    && (!pc.Scan? ==> SlotOf(pc) < n)
    && (!pc.Scan? && !pc.Compare? ==> IsSubscribed(slots[SlotOf(pc)]))
    && (pc.TakeName? ==> pc.settled)
    && (HasWant(pc) ==> pc.want.settled)
  }

  predicate HasWant(pc: Pc) {
    pc.TakeTopics? || pc.FindPub? || pc.TakePubFd? || pc.FindSub? || pc.TakeSubFd? || pc.CallForward?
  }

  /** A gathered call serves its own slot. */
  lemma CallServesOwn(s: State, n: nat, w: Want, fdPub: int, fdSus: int)
    requires Table(s.slots, n) && w.slot < n && w.settled && CallOk(s, Call(w, fdPub, fdSus))
    ensures ServesOwn(s.slots, n, Served(w.slot, fdPub, fdSus, w.row))
  {
    var p: nat :| IsFirst(s, w.sub, p) && s.slots[p].fd == fdSus;
    assert p == w.slot;
    var q: nat :| IsFirst(s, w.pub, q) && s.slots[q].fd == fdPub;
    var k :| 0 <= k < n && s.slots[k].name == s.slots[w.slot].sus;
    assert q <= k;
    assert w.row == s.slots[w.slot].topics;
  }

  /** The publisher lookup does not run into the null entry. */
  lemma PublisherIsThere(s: State, n: nat, w: Want, k: nat)
    requires Table(s.slots, n) && w.slot < n && WantOk(s, w) && NotAmong(s, w.pub, k) && k < |s.slots|
    ensures s.slots[k].name.Some?
  {
    var p :| 0 <= p < n && s.slots[p].name == s.slots[w.slot].sus;
    if k > p {
      assert false;
    }
  }

  /** Gathering and looking up stay with the slot. */
  lemma GatherStep(s: State, n: nat, pc: Pc, rounds: nat, calls: seq<Served>)
    requires Table(s.slots, n) && Subscribed(s.slots, n) != []
    requires InTurns(s.slots, n, pc, rounds, calls) && (HasWant(pc) || pc.TakeName?) && !pc.CallForward?
    requires Ready(s, pc) && Accessible(s, pc) && Knows(s, pc)
    ensures InTurns(s.slots, n, NextPc(s, pc), rounds, calls)
  {
    hide Progress, Subscribed, IsSubscribed;
    if pc.FindPub? {
      PublisherIsThere(s, n, pc.want, pc.k);
    }
    hide Table;
  }

  /** One step of the forwarder. */
  lemma TurnStep(s: State, n: nat, pc: Pc, rounds: nat, calls: seq<Served>) returns (rounds': nat)
    requires Table(s.slots, n) && n <= s.fdIdx && Subscribed(s.slots, n) != []
    requires InTurns(s.slots, n, pc, rounds, calls)
    requires Ready(s, pc) && Accessible(s, pc) && Knows(s, pc)
    ensures
      var next := if pc.CallForward? then [Served(pc.want.slot, pc.fdPub, pc.fdSus, pc.want.row)] else [];
      InTurns(s.slots, n, NextPc(s, pc), rounds', calls + next)
  {
    hide Progress, Subscribed, ServesOwn;
    rounds' := rounds;
    assert calls + [] == calls;
    if pc.Scan? {
      if s.slots[pc.i].sus.None? {
        assert pc.i == n;
        ProgressRound(s.slots, n, rounds, calls);
        rounds' := rounds + 1;
      }
    } else if pc.Compare? {
      if s.slots[pc.i].sus.value == NONE {
        ProgressSkip(s.slots, n, rounds, pc.i, calls);
      }
    } else if pc.CallForward? {
      CallServesOwn(s, n, pc.want, pc.fdPub, pc.fdSus);
      ProgressServe(s.slots, n, rounds, pc.want.slot, calls,
                    Served(pc.want.slot, pc.fdPub, pc.fdSus, pc.want.row));
    } else {
      hide InTurns, Table, Knows, NextPc;
      GatherOrElse(s.slots, n, pc, rounds, calls);
      GatherStep(s, n, pc, rounds, calls);
    }
  }

  lemma GatherOrElse(slots: seq<Slot>, n: nat, pc: Pc, rounds: nat, calls: seq<Served>)
    requires n <= |slots| && Subscribed(slots, n) != [] && InTurns(slots, n, pc, rounds, calls)
    ensures pc.Scan? || pc.Compare? || pc.TakeName? || HasWant(pc)
  {
  }

  /** From the start of a pass over a complete table on, as long as the table does not change, the calls
      of thread t go round the subscribed slots in slot order, each for its own slot, at every point of
      every interleaving. */
  lemma TurnsInRun(s: State, acts: seq<Action>, t: nat, n: nat)
    requires Inv(s) && IsRun(s, acts) && IsQuiet(s, acts)
    requires t in s.threads && s.threads[t].pc == Scan(0)
    requires Table(s.slots, n) && n <= s.fdIdx && Subscribed(s.slots, n) != []
    ensures
      var calls := CallsBy(s, acts, t);
      && Slots(calls) == Cycle(Subscribed(s.slots, n), |calls|)
      && forall call :: call in calls ==> ServesOwn(s.slots, n, call)
  {
    ProgressStarts(s.slots, n);
    hide Inv, IsRun, IsQuiet, CallsBy, Progress, Subscribed, ServesOwn, Cycle, Table;
    TurnsContinue(s, acts, t, n, 0, []);
    assert [] + CallsBy(s, acts, t) == CallsBy(s, acts, t);
  }

  lemma {:induction false} TurnsContinue(s: State, acts: seq<Action>, t: nat, n: nat, rounds: nat, done: seq<Served>)
    requires Inv(s) && IsRun(s, acts) && IsQuiet(s, acts) && t in s.threads
    requires Table(s.slots, n) && n <= s.fdIdx && Subscribed(s.slots, n) != []
    requires InTurns(s.slots, n, s.threads[t].pc, rounds, done)
    ensures
      var calls := done + CallsBy(s, acts, t);
      && Slots(calls) == Cycle(Subscribed(s.slots, n), |calls|)
      && forall call :: call in calls ==> ServesOwn(s.slots, n, call)
    decreases |acts|
  {
    assert n <= |s.slots|;
    hide Inv, InTurns, Subscribed, Table, CallsBy, CallBy, IsRun, IsQuiet, Slots, Cycle, ServesOwn, Enabled, Apply;
    CallsByStep(s, acts, t);
    if acts == [] {
      TurnsSoFar(s.slots, n, s.threads[t].pc, rounds, done);
      assert done + [] == done;
    } else {
      var a := acts[0];
      var s' := Apply(s, a);
      StepKeepsInv(s, a);
      var rounds' := OneStep(s, a, t, n, rounds, done);
      TurnsContinue(s', acts[1..], t, n, rounds', done + CallBy(s, a, t));
      Regroup(done, CallBy(s, a, t), CallsBy(s', acts[1..], t));
    }
  }

  lemma Regroup(a: seq<Served>, b: seq<Served>, c: seq<Served>)
    ensures a + b + c == a + (b + c)
  {
  }

  lemma CallsByStep(s: State, acts: seq<Action>, t: nat)
    requires IsRun(s, acts) && IsQuiet(s, acts)
    ensures acts == [] ==> CallsBy(s, acts, t) == []
    ensures acts != [] ==>
              && Enabled(s, acts[0])
              && var s' := Apply(s, acts[0]);
                 && s'.slots == s.slots && IsRun(s', acts[1..]) && IsQuiet(s', acts[1..])
                 && CallsBy(s, acts, t) == CallBy(s, acts[0], t) + CallsBy(s', acts[1..], t)
  {
  }

  lemma TurnsSoFar(slots: seq<Slot>, n: nat, pc: Pc, rounds: nat, calls: seq<Served>)
    requires n <= |slots| && Subscribed(slots, n) != [] && InTurns(slots, n, pc, rounds, calls)
    ensures Slots(calls) == Cycle(Subscribed(slots, n), |calls|)
    ensures forall call :: call in calls ==> ServesOwn(slots, n, call)
  {
  }

  lemma PastStep(s: State, t: nat)
    requires Enabled(s, Run(t)) && IsPast(s.threads[t].pc)
    ensures
      var pc := s.threads[t].pc;
      && t in Apply(s, Run(t)).threads && Apply(s, Run(t)).threads[t].pc == NextPc(s, pc)
      && Ready(s, pc) && Accessible(s, pc)
      && CallBy(s, Run(t), t) ==
           if pc.CallForward? then [Served(pc.want.slot, pc.fdPub, pc.fdSus, pc.want.row)] else []
  {
  }

  lemma KnownAndLater(s: State, a: Action, t: nat)
    requires Inv(s) && Enabled(s, a) && t in s.threads
    ensures Knows(s, s.threads[t].pc) && s.fdIdx <= Apply(s, a).fdIdx
  {
    hide Registry, Knows, Apply;
    StepIsLater(s, a);
  }

  lemma OneStep(s: State, a: Action, t: nat, n: nat, rounds: nat, done: seq<Served>) returns (rounds': nat)
    requires Inv(s) && Enabled(s, a) && Apply(s, a).slots == s.slots && t in s.threads
    requires Table(s.slots, n) && n <= s.fdIdx && Subscribed(s.slots, n) != []
    requires InTurns(s.slots, n, s.threads[t].pc, rounds, done)
    ensures t in Apply(s, a).threads && n <= Apply(s, a).fdIdx
    ensures InTurns(s.slots, n, Apply(s, a).threads[t].pc, rounds', done + CallBy(s, a, t))
  {
    assert IsPast(s.threads[t].pc) && n <= |s.slots|;
    hide Inv, InTurns, Knows, Table, NextPc, Ready, Accessible, Apply, Subscribed, IsPast;
    KnownAndLater(s, a, t);
    if a == Run(t) {
      hide Enabled, CallBy;
      PastStep(s, t);
      rounds' := TurnStep(s, n, s.threads[t].pc, rounds, done);
    } else {
      rounds' := rounds;
      StepNumbers(s, a);
      assert done + [] == done;
    }
  }
}
