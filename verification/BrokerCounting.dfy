/** How many threads sem_control lets into the forwarding loop. */
module BrokerCounting {
  import opened Broker
  import opened BrokerSafety

  ghost function Past(s: State): set<nat> {
    set t | t in s.threads && IsPast(s.threads[t].pc)
  }

  ghost function Registered(s: State): set<nat> {
    set t | t in s.threads && IsRegistered(s.threads[t].pc)
  }

  /** A thread has raised fd_idx and not yet posted. */
  ghost predicate Posting(s: State) {
    exists t :: t in s.threads && s.threads[t].pc.PostControl?
  }

  /** The posts made so far: one per registration after the first. */
  ghost function Posts(s: State): int {
    (if s.fdIdx >= 1 then s.fdIdx - 1 else 0) - (if Posting(s) && s.fdIdx >= 2 then 1 else 0)
  }

  ghost predicate Counting(s: State) {
    && s.control + |Past(s)| == Posts(s)
    && |Registered(s)| == s.fdIdx
  }

  lemma CountingAtStart()
    ensures Counting(INIT)
  {
  }

  /** Moving one thread changes a count by that thread only. */
  lemma Moved(s: State, t: nat, s': State)
    requires t in s'.threads
    requires forall u :: u != t ==> (u in s.threads <==> u in s'.threads)
    requires forall u :: u != t && u in s.threads ==> s'.threads[u] == s.threads[u]
    ensures Past(s') == if IsPast(s'.threads[t].pc) then Past(s) + {t} else Past(s) - {t}
    ensures Registered(s') == if IsRegistered(s'.threads[t].pc) then Registered(s) + {t} else Registered(s) - {t}
  {
  }

  /** What one step does to the two counters and to the moving thread's position. */
  lemma StepNumbers(s: State, a: Action)
    requires Enabled(s, a)
    ensures a.t in Apply(s, a).threads
    ensures forall u :: u != a.t ==> (u in s.threads <==> u in Apply(s, a).threads)
    ensures forall u :: u != a.t && u in s.threads ==> Apply(s, a).threads[u] == s.threads[u]
    ensures
      var s' := Apply(s, a);
      var pc, pc' := if a.Run? then s.threads[a.t].pc else Arrived, s'.threads[a.t].pc;
      && (a.Accept? ==> a.t !in s.threads)
      && (IsPast(pc') <==> IsPast(pc) || pc.WaitControl?)
      && (IsRegistered(pc') <==> IsRegistered(pc) || pc.Increment?)
      && s'.fdIdx == s.fdIdx + (if pc.Increment? then 1 else 0)
      && s'.control ==
           s.control + (if pc.PostControl? && s.fdIdx >= 2 then 1 else 0) - (if pc.WaitControl? then 1 else 0)
  {
    if a.Run? && IsPast(s.threads[a.t].pc) {
      NextIsPast(s, s.threads[a.t].pc);
    }
  }

  predicate RunsFrom(s: State, a: Action, pc: Pc) {
    a.Run? && a.t in s.threads && s.threads[a.t].pc == pc
  }

  lemma PastAfter(s: State, a: Action)
    requires Enabled(s, a)
    ensures |Past(Apply(s, a))| == |Past(s)| + if RunsFrom(s, a, WaitControl) then 1 else 0
    ensures |Registered(Apply(s, a))| == |Registered(s)| + if RunsFrom(s, a, Increment) then 1 else 0
  {
    var s' := Apply(s, a);
    StepNumbers(s, a);
    Moved(s, a.t, s');
    var past, registered := Past(s), Registered(s);
    assert a.Run? ==>
             && (a.t in past <==> IsPast(s.threads[a.t].pc))
             && (a.t in registered <==> IsRegistered(s.threads[a.t].pc));
    assert a.Accept? ==> a.t !in past && a.t !in registered;
    hide Apply, Past, Registered, Enabled;
    AddOne(past, a.t);
    AddOne(registered, a.t);
  }

  lemma PostsAfter(s: State, a: Action)
    requires Registry(s) && Enabled(s, a)
    ensures Posts(Apply(s, a)) == Posts(s) + if RunsFrom(s, a, PostControl) && s.fdIdx >= 2 then 1 else 0
  {
    StepNumbers(s, a);
    PostingAfter(s, a);
    hide Shape, Tables, Locked, Registry, Apply, Posting, Enabled, IsPast, IsRegistered;
  }

  lemma StepKeepsCounting(s: State, a: Action)
    requires Registry(s) && Counting(s) && Enabled(s, a)
    ensures Counting(Apply(s, a))
  {
    StepNumbers(s, a);
    PastAfter(s, a);
    PostsAfter(s, a);
    hide Shape, Tables, Locked, Registry, Apply, Past, Registered, Posts, Enabled, IsPast, IsRegistered;
  }

  lemma AddOne(x: set<nat>, t: nat)
    ensures t in x ==> x + {t} == x
    ensures t !in x ==> |x + {t}| == |x| + 1 && x - {t} == x
  {
  }

  /** When a post is pending after a step: right after the increment, and otherwise as before until
      the post is made. Only the thread in the critical section can have one pending. */
  lemma PostingAfter(s: State, a: Action)
    requires Registry(s) && Enabled(s, a)
    ensures
      Posting(Apply(s, a)) <==>
        if a.Run? && s.threads[a.t].pc.Increment? then true
        else if a.Run? && s.threads[a.t].pc.PostControl? then false
        else Posting(s)
    ensures a.Run? && s.threads[a.t].pc.Increment? ==> !Posting(s)
    ensures a.Run? && s.threads[a.t].pc.PostControl? ==> Posting(s)
  {
    hide Shape, Tables;
    var s' := Apply(s, a);
    var t := a.t;
    assert forall u :: u != t && u in s.threads ==> u in s'.threads && s'.threads[u] == s.threads[u];
    assert t in s'.threads;
    if a.Run? && IsPast(s.threads[t].pc) {
      NextIsPast(s, s.threads[t].pc);
    }
  }

  /** Nobody forwards before two registrations, and N clients never give more than N - 1 forwarders:
      outside that window the registered threads that are not past sem_control are exactly one more
      than its value, so when it is used up exactly one of them is left, until the next registration. */
  lemma OneIsLeftOver(s: State)
    requires Counting(s)
    ensures Past(s) != {} ==> s.fdIdx >= 2
    ensures s.fdIdx > 0 ==> |Past(s)| <= s.fdIdx - 1
    ensures s.fdIdx > 0 && !Posting(s) ==> |Registered(s) - Past(s)| == s.control + 1
  {
  }
}
