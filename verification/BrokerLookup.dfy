/** When a forwarder is stranded: its lookup of a publisher finds nobody (the source then indexes its
    tables with -1), and when every forwarder goes on for ever. */
module BrokerLookup {
  import opened Broker
  import opened BrokerSafety
  import opened BrokerCounting
  import opened BrokerScan
  import opened BrokerRuns
  import opened BrokerProgress
  import opened BrokerRace

  /** Every published subscription names a client at or before its own slot. */
  ghost predicate InOrder(slots: seq<Slot>) {
    forall i :: 0 <= i < |slots| && slots[i].sus.Some? && slots[i].sus.value != NONE ==> HasPublisher(slots, i)
  }

  ghost predicate HasPublisher(slots: seq<Slot>, i: nat)
    requires i < |slots|
  {
    exists k :: 0 <= k <= i && slots[k].name == slots[i].sus
  }

  ghost predicate NobodyStranded(s: State) {
    forall t :: t in s.threads ==> !s.threads[t].pc.NoPublisher?
  }

  /** Names are in place before a subscription is published, so order now is order from the start. */
  lemma InOrderBefore(s: State, s': State)
    requires Registry(s) && Later(s, s') && InOrder(s'.slots)
    ensures InOrder(s.slots)
  {
    hide Registry;
    forall i | 0 <= i < |s.slots| && s.slots[i].sus.Some? && s.slots[i].sus.value != NONE
      ensures HasPublisher(s.slots, i)
    {
      assert Grows(s.slots[i], s'.slots[i]);
      assert HasPublisher(s'.slots, i);
      var k :| 0 <= k <= i && s'.slots[k].name == s'.slots[i].sus;
      PublishedMeansNamed(s, i);
      assert Grows(s.slots[k], s'.slots[k]);
    }
  }

  /** A lookup that has come to the null entry has passed the slot it is made for. */
  lemma LookupSucceeds(s: State, pc: Pc)
    requires Registry(s) && InOrder(s.slots) && Knows(s, pc) && pc.FindPub? && Accessible(s, pc)
    ensures s.slots[pc.k].name.Some?
  {
    var w := pc.want;
    PublishedMeansNamed(s, w.slot);
    hide Registry;
    assert HasPublisher(s.slots, w.slot);
    var k :| 0 <= k <= w.slot && s.slots[k].name == s.slots[w.slot].sus;
    assert pc.k <= k;
  }

  lemma NextNotStranded(s: State, pc: Pc)
    requires Registry(s) && InOrder(s.slots) && Knows(s, pc)
    requires IsPast(pc) && Ready(s, pc) && Accessible(s, pc)
    ensures !NextPc(s, pc).NoPublisher?
  {
    if pc.FindPub? {
      LookupSucceeds(s, pc);
    }
    hide Registry, InOrder, Knows;
  }

  lemma ActorNotStranded(s: State, a: Action)
    requires Enabled(s, a)
    requires a.Run? && IsPast(s.threads[a.t].pc) ==> !NextPc(s, s.threads[a.t].pc).NoPublisher?
    ensures a.t in Apply(s, a).threads && !Apply(s, a).threads[a.t].pc.NoPublisher?
  {
    hide NextPc;
  }

  lemma StepStrandsNobody(s: State, a: Action)
    requires Inv(s) && Enabled(s, a) && InOrder(s.slots) && NobodyStranded(s)
    ensures NobodyStranded(Apply(s, a))
  {
    hide Registry, InOrder, Knows, Apply, NextPc, IsPast;
    if a.Run? && IsPast(s.threads[a.t].pc) {
      NextNotStranded(s, s.threads[a.t].pc);
    }
    ActorNotStranded(s, a);
    StepNumbers(s, a);
  }

  lemma {:induction false} RunStrandsNobody(s: State, acts: seq<Action>)
    requires Inv(s) && IsRun(s, acts) && NobodyStranded(s) && InOrder(After(s, acts).slots)
    ensures NobodyStranded(After(s, acts))
    decreases |acts|
  {
    hide InOrder, NobodyStranded, Enabled, Apply, Registry;
    RunKeepsInv(s, acts);
    if acts != [] {
      InOrderBefore(s, After(s, acts));
      StepKeepsInv(s, acts[0]);
      StepStrandsNobody(s, acts[0]);
      RunStrandsNobody(Apply(s, acts[0]), acts[1..]);
    }
  }

  /** If the subscriptions published in a run are in order, no forwarder has been stranded in it: each
      one that sem_control let through is still in its loop. */
  lemma InOrderStrandsNobody(acts: seq<Action>)
    requires IsRun(INIT, acts) && InOrder(After(INIT, acts).slots)
    ensures NobodyStranded(After(INIT, acts))
  {
    InvAtStart();
    RunStrandsNobody(INIT, acts);
  }

  /** Nobody but c subscribes to anybody. */
  ghost predicate OnlySubscriber(s: State, c: Conn) {
    forall t :: t in s.threads ==> s.threads[t].conn == c || s.threads[t].conn.filter == NONE
  }

  /** A client that subscribes to itself is always in order. */
  lemma OwnSubscriptionInOrder(acts: seq<Action>, c: Conn)
    requires IsConn(c) && (SusOf(c) == NONE || SusOf(c) == c.name)
    requires IsRun(INIT, acts) && OnlySubscriber(After(INIT, acts), c)
    ensures InOrder(After(INIT, acts).slots)
  {
    InvAtStart();
    RunKeepsInv(INIT, acts);
    RunKeepsAccepted(INIT, [], acts);
    var s := After(INIT, acts);
    hide IsRun, After, IsConn, RowOf;
    forall i | 0 <= i < |s.slots| && s.slots[i].sus.Some? && s.slots[i].sus.value != NONE
      ensures HasPublisher(s.slots, i)
    {
      SlotOfThread(s, acts, i);
      assert s.slots[i].name == s.slots[i].sus;
    }
  }

  /** A published slot belongs to a thread. */
  lemma SlotOfThread(s: State, acts: seq<Action>, i: nat)
    requires Registry(s) && AllAccepted(s, acts) && i < |s.slots| && s.slots[i].sus.Some?
    ensures exists t ::
              && t in s.threads && IsConn(s.threads[t].conn)
              && s.slots[i].name == Some(s.threads[t].conn.name) && s.slots[i].sus == Some(SusOf(s.threads[t].conn))
  {
    hide IsConn, SusOf, RowOf;
    PublishedMeansNamed(s, i);
    if i < s.fdIdx {
      var c := s.log[i];
      assert c in s.log && s.slots[i] == Full(c);
      var t :| t in s.threads && s.threads[t].conn == c;
    } else {
      var t :| t in s.threads && InCritical(s.threads[t].pc);
      assert s.slots[i] == Written(s.threads[t].pc, s.threads[t].conn);
    }
  }

  /** A client who is nobody's publisher, and not c. */
  function Stranger(c: Conn): (p: Conn)
    requires Subscribes(c)
    ensures IsPlain(p) && p.name != SusOf(c)
  {
    var p := Conn(0, SusOf(c) + "'", NONE, INFO);
    assert |p.name| > |SusOf(c)|;
    p
  }

  /** For every client that subscribes to another, a run in which a forwarder is stranded: the client
      has published its subscription and its publisher is not there. */
  lemma StrandsForwarder(c: Conn) returns (s: State)
    requires Subscribes(c) && c.name != SusOf(c)
    ensures Reaches(INIT, s) && OnlySubscriber(s, c) && !NobodyStranded(s)
  {
    var p := Stranger(c);
    hide Reaches;
    SceneIsReached(c, p);
    WalkPast(c, p);
    WalkToSlot(c, p);
    var w := Want(2, SusOf(c), c.name, false, ZEROS);
    WalkToNobody(c, p, w);
    s := Goto(Scene(c, p), 0, NoPublisher);
    assert s.threads[0].pc.NoPublisher?;
    hide SusOf, IsConn;
    assert s.threads.Keys == {0, 1, 2};
  }

  lemma WalkToOwnName(c: Conn, p: Conn, w: Want)
    requires Subscribes(c) && IsPlain(p) && p.name != SusOf(c)
    requires w == Want(2, SusOf(c), c.name, false, ZEROS)
    requires 0 in Scene(c, p).threads && Reaches(INIT, Goto(Scene(c, p), 0, FindPub(w, 0)))
    ensures Reaches(INIT, Goto(Scene(c, p), 0, FindPub(w, 2)))
  {
    SceneFacts(c, p);
    hide Reaches, Scene, SusOf, IsConn, Apply, Goto;
    var m := Scene(c, p);
    Walk(INIT, m, 0, FindPub(w, 0), FindPub(w, 1));
    Walk(INIT, m, 0, FindPub(w, 1), FindPub(w, 2));
  }

  lemma WalkToNobody(c: Conn, p: Conn, w: Want)
    requires Subscribes(c) && c.name != SusOf(c) && IsPlain(p) && p.name != SusOf(c)
    requires w == Want(2, SusOf(c), c.name, false, ZEROS)
    requires 0 in Scene(c, p).threads && Reaches(INIT, Goto(Scene(c, p), 0, FindPub(w, 0)))
    ensures Reaches(INIT, Goto(Scene(c, p), 0, NoPublisher))
  {
    WalkToOwnName(c, p, w);
    SceneFacts(c, p);
    var m := Scene(c, p);
    assert m.slots[3].name.None?;
    hide Reaches, Scene, SusOf, IsConn, Apply, Goto;
    Walk(INIT, m, 0, FindPub(w, 2), FindPub(w, 3));
    Walk(INIT, m, 0, FindPub(w, 3), NoPublisher);
  }

  /** A client can strand a forwarder by its subscription alone exactly when it subscribes to another. */
  lemma StrandsExactly(c: Conn)
    requires IsConn(c)
    ensures (forall s :: Reaches(INIT, s) && OnlySubscriber(s, c) ==> NobodyStranded(s))
            <==> SusOf(c) == NONE || SusOf(c) == c.name
  {
    hide Reaches, OnlySubscriber, NobodyStranded;
    if SusOf(c) == NONE || SusOf(c) == c.name {
      forall s | Reaches(INIT, s) && OnlySubscriber(s, c) ensures NobodyStranded(s) {
        SelfSubscriberStrandsNobody(c, s);
      }
    } else {
      var s := StrandsForwarder(c);
    }
  }

  lemma SelfSubscriberStrandsNobody(c: Conn, s: State)
    requires IsConn(c) && (SusOf(c) == NONE || SusOf(c) == c.name)
    requires Reaches(INIT, s) && OnlySubscriber(s, c)
    ensures NobodyStranded(s)
  {
    var acts :| IsRun(INIT, acts) && After(INIT, acts) == s;
    hide IsRun, After, OnlySubscriber, NobodyStranded, InOrder, IsConn, SusOf;
    OwnSubscriptionInOrder(acts, c);
    InOrderStrandsNobody(acts);
  }
}
