/** Where threads can come to a stop, where they come from, and what becomes of their calls. */
module BrokerProgress {
  import opened Broker
  import opened BrokerCounting
  import opened BrokerScan
  import opened BrokerRuns

  /** In every reachable state a thread can take its next step unless it waits for one of the two
      semaphores, the tables are full, or its lookup of a publisher has failed; and while the lock is
      held, the thread that holds it can take a step. */
  lemma OnlySemaphoresBlock(acts: seq<Action>, t: nat)
    requires IsRun(INIT, acts) && t in After(INIT, acts).threads
    ensures
      var s := After(INIT, acts);
      var pc := s.threads[t].pc;
      && (Enabled(s, Run(t)) <==>
            && (pc.Arrived? ==> s.mutex > 0 && s.fdIdx < 9)
            && (pc.WaitControl? ==> s.control > 0)
            && !pc.NoPublisher?)
      && (s.mutex == 0 ==> exists u :: u in s.threads && InCritical(s.threads[u].pc) && Enabled(s, Run(u)))
  {
    InvAtStart();
    RunKeepsInv(INIT, acts);
    var s := After(INIT, acts);
    hide IsRun, After, Counting, INIT, IsConn;
    NothingOutOfBounds(s, t);
    assert Knows(s, s.threads[t].pc);
    if s.mutex == 0 {
      var u :| u in s.threads && InCritical(s.threads[u].pc);
      NothingOutOfBounds(s, u);
      assert Enabled(s, Run(u));
    }
  }

  /** Every connection in sight was accepted by one of these actions. */
  ghost predicate AllAccepted(s: State, acts: seq<Action>) {
    && (forall t :: t in s.threads ==> Accept(t, s.threads[t].conn) in acts)
    && (forall c :: c in s.log ==>
          exists t :: t in s.threads && s.threads[t].conn == c && IsRegistered(s.threads[t].pc))
  }

  lemma StepKeepsAccepted(s: State, before: seq<Action>, a: Action)
    requires AllAccepted(s, before) && Enabled(s, a)
    ensures AllAccepted(Apply(s, a), before + [a])
  {
    var s' := Apply(s, a);
    hide IsConn, RowOf, SusOf, Ready, Accessible, NextPc;
    StepNumbers(s, a);
    ConnStays(s, a);
    assert forall b :: b in before ==> b in before + [a];
    forall c | c in s'.log
      ensures exists t :: t in s'.threads && s'.threads[t].conn == c && IsRegistered(s'.threads[t].pc)
    {
      if c in s.log {
        var t :| t in s.threads && s.threads[t].conn == c && IsRegistered(s.threads[t].pc);
        assert t in s'.threads;
      } else {
        assert a.t in s'.threads;
      }
    }
  }

  /** A step leaves its thread's connection as it is, and registers no other. */
  lemma ConnStays(s: State, a: Action)
    requires Enabled(s, a)
    ensures
      var s' := Apply(s, a);
      && a.t in s'.threads
      && s'.threads[a.t].conn == (if a.Accept? then a.conn else s.threads[a.t].conn)
      && s'.log == s.log + if a.Run? && s.threads[a.t].pc.Increment? then [s.threads[a.t].conn] else []
  {
  }

  lemma {:induction false} RunKeepsAccepted(s: State, before: seq<Action>, acts: seq<Action>)
    requires AllAccepted(s, before) && IsRun(s, acts)
    ensures AllAccepted(After(s, acts), before + acts)
    decreases |acts|
  {
    hide AllAccepted, Enabled, Apply;
    if acts == [] {
      assert before + acts == before;
    } else {
      StepKeepsAccepted(s, before, acts[0]);
      RunKeepsAccepted(Apply(s, acts[0]), before + [acts[0]], acts[1..]);
      assert before + [acts[0]] + acts[1..] == before + acts;
    }
  }

  /** Every registered client is a connection that was accepted in the run, just as it arrived. */
  lemma RegisteredWereAccepted(acts: seq<Action>, c: Conn)
    requires IsRun(INIT, acts) && c in After(INIT, acts).log
    ensures exists t :: Accept(t, c) in acts
  {
    RunKeepsAccepted(INIT, [], acts);
    assert [] + acts == acts;
    var s := After(INIT, acts);
    var t :| t in s.threads && s.threads[t].conn == c;
    assert Accept(t, s.threads[t].conn) in acts;
  }

  /** The call of forward_message that this action makes, if any. */
  function CallMade(s: State, a: Action): seq<Call> {
    if a.Run? && a.t in s.threads && s.threads[a.t].pc.CallForward? then
      var pc := s.threads[a.t].pc;
      [Call(pc.want, pc.fdPub, pc.fdSus)]
    else
      []
  }

  /** The calls that all threads make in a run, in order. */
  ghost function CallsMade(s: State, acts: seq<Action>): seq<Call>
    requires IsRun(s, acts)
    decreases |acts|
  {
    if acts == [] then [] else CallMade(s, acts[0]) + CallsMade(Apply(s, acts[0]), acts[1..])
  }

  lemma OneCallKept(s: State, a: Action)
    requires Enabled(s, a)
    ensures Apply(s, a).calls == s.calls + CallMade(s, a)
  {
  }

  /** The history of calls holds exactly the calls made. */
  lemma {:induction false} EveryCallIsKept(s: State, acts: seq<Action>)
    requires IsRun(s, acts)
    ensures After(s, acts).calls == s.calls + CallsMade(s, acts)
    decreases |acts|
  {
    hide Apply, Enabled, CallMade;
    if acts != [] {
      var s' := Apply(s, acts[0]);
      EveryCallIsKept(s', acts[1..]);
      OneCallKept(s, acts[0]);
      var one, more := CallMade(s, acts[0]), CallsMade(s', acts[1..]);
      assert s.calls + one + more == s.calls + (one + more);
    }
  }
}
