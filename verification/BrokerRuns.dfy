/** The broker's guarantees, over whole runs: any number of threads, any interleaving. */
module BrokerRuns {
  import opened Topics
  import opened Broker
  import opened BrokerSafety
  import opened BrokerCounting
  import opened BrokerScan

  ghost predicate IsRun(s: State, acts: seq<Action>)
    decreases |acts|
  {
    acts == [] || (Enabled(s, acts[0]) && IsRun(Apply(s, acts[0]), acts[1..]))
  }

  ghost function After(s: State, acts: seq<Action>): State
    requires IsRun(s, acts)
    decreases |acts|
  {
    if acts == [] then s else After(Apply(s, acts[0]), acts[1..])
  }

  ghost predicate Inv(s: State) {
    Registry(s) && Counting(s) && Scanning(s)
  }

  lemma InvAtStart()
    ensures Inv(INIT)
  {
    RegistryAtStart();
    CountingAtStart();
  }

  lemma StepKeepsInv(s: State, a: Action)
    requires Inv(s) && Enabled(s, a)
    ensures Inv(Apply(s, a))
  {
    hide Registry, Counting, Scanning;
    StepKeepsRegistry(s, a);
    StepKeepsCounting(s, a);
    StepKeepsScanning(s, a);
  }

  lemma LaterSame(s: State)
    requires Registry(s)
    ensures Later(s, s)
  {
  }

  lemma LaterTransitive(a: State, b: State, c: State)
    requires Later(a, b) && Later(b, c)
    ensures Later(a, c)
  {
  }

  /** The invariants hold after every run, and no run overwrites what an earlier state had. */
  lemma {:induction false} RunKeepsInv(s: State, acts: seq<Action>)
    requires Inv(s) && IsRun(s, acts)
    ensures Inv(After(s, acts)) && Later(s, After(s, acts))
    decreases |acts|
  {
    hide Registry, Counting, Scanning, Later, Enabled, Apply;
    if acts == [] {
      LaterSame(s);
    } else {
      var s' := Apply(s, acts[0]);
      StepKeepsInv(s, acts[0]);
      StepIsLater(s, acts[0]);
      RunKeepsInv(s', acts[1..]);
      LaterTransitive(s, s', After(s, acts));
    }
  }

  /** Two threads are never in the critical section; a registered slot holds exactly its connection's
      descriptor, name, subscription and topic row; slots above fd_idx are untouched; and no thread
      is ever about to touch a table entry that is out of range or still null. */
  lemma SafeTables(acts: seq<Action>)
    requires IsRun(INIT, acts)
    ensures
      var s := After(INIT, acts);
      && (forall t, u | t in s.threads && u in s.threads ::
            InCritical(s.threads[t].pc) && InCritical(s.threads[u].pc) ==> t == u)
      && s.fdIdx == |s.log| < LIMIT_CONN_CLIENTS == |s.slots|
      && (forall i :: 0 <= i < s.fdIdx ==> IsConn(s.log[i]) && s.slots[i] == Full(s.log[i]))
      && (forall i :: s.fdIdx < i < LIMIT_CONN_CLIENTS ==> s.slots[i] == BLANK)
      && (forall t :: t in s.threads ==> Accessible(s, s.threads[t].pc) && !s.threads[t].pc.NoSubscriber?)
  {
    InvAtStart();
    RunKeepsInv(INIT, acts);
    var s := After(INIT, acts);
    hide IsRun, After, Counting, Full, Accessible, INIT;
    forall i | 0 <= i < s.fdIdx ensures IsConn(s.log[i]) && s.slots[i] == Full(s.log[i]) {
      assert s.log[i] in s.log;
    }
    forall t | t in s.threads ensures Accessible(s, s.threads[t].pc) && !s.threads[t].pc.NoSubscriber? {
      NothingOutOfBounds(s, t);
      assert Knows(s, s.threads[t].pc);
    }
  }

  /** In every reachable state, also in the middle of a registration: a subscription that a forwarder
      can read has the descriptors and names of their clients in its slot and in all before it. */
  lemma PublishedInOrder(acts: seq<Action>, i: nat)
    requires IsRun(INIT, acts)
    requires i < |After(INIT, acts).slots| && After(INIT, acts).slots[i].sus.Some?
    ensures forall m: nat :: m <= i ==> HasClient(After(INIT, acts), m)
  {
    InvAtStart();
    RunKeepsInv(INIT, acts);
    PublishedMeansNamed(After(INIT, acts), i);
  }

  /** Registered slots are written once: whatever happens later, they and the order of registration
      stay as they are. */
  lemma WrittenOnce(acts: seq<Action>, more: seq<Action>)
    requires IsRun(INIT, acts) && IsRun(After(INIT, acts), more)
    ensures
      var s := After(INIT, acts);
      var s' := After(s, more);
      && s.log <= s'.log
      && s.fdIdx <= s'.fdIdx && |s'.slots| == |s.slots|
      && forall i :: 0 <= i < s.fdIdx ==> i < |s.slots| && s'.slots[i] == s.slots[i]
  {
    InvAtStart();
    RunKeepsInv(INIT, acts);
    RunKeepsInv(After(INIT, acts), more);
  }

  /** The law of sem_control, at every point of every run: outside the window between the increment and
      the post, its value and the threads it has let through add up to one less than the number of
      registered clients. */
  lemma ForwarderCount(acts: seq<Action>)
    requires IsRun(INIT, acts)
    ensures
      var s := After(INIT, acts);
      && (!Posting(s) ==> s.control + |Past(s)| == if s.fdIdx >= 1 then s.fdIdx - 1 else 0)
      && (Past(s) != {} ==> s.fdIdx >= 2 && |Past(s)| <= s.fdIdx - 1)
      && (s.fdIdx > 0 && !Posting(s) ==> |Registered(s) - Past(s)| == s.control + 1)
  {
    InvAtStart();
    RunKeepsInv(INIT, acts);
    OneIsLeftOver(After(INIT, acts));
  }

  ghost predicate NamesDiffer(log: seq<Conn>) {
    forall i, j :: 0 <= i < j < |log| ==> log[i].name != log[j].name
  }

  /** Client p of the log is the first of its name. */
  ghost predicate FirstInLog(log: seq<Conn>, name: string, p: nat) {
    p < |log| && log[p].name == name && forall m :: 0 <= m < p ==> log[m].name != name
  }

  /** Call c is for the client registered in its slot: it has that client's subscription and name, it
      writes to the first client of the subscriber's name and reads from the first client of the
      publisher's, if registered; and if the client was registered when the scan read its
      subscription, it has that client's topic row. */
  ghost predicate IsRight(log: seq<Conn>, c: Call) {
    && c.want.slot < |log| && IsConn(log[c.want.slot])
    && c.want.pub == SusOf(log[c.want.slot]) != NONE
    && c.want.sub == log[c.want.slot].name
    && (exists p: nat :: p <= c.want.slot && FirstInLog(log, c.want.sub, p) && c.fdSus == log[p].fd)
    && (forall p: nat :: FirstInLog(log, c.want.pub, p) ==> c.fdPub == log[p].fd)
    && (c.want.settled ==> c.want.row == RowOf(log[c.want.slot]))
  }

  /** Every call of forward_message, in every run, once the client of its slot is registered; a call
      can be made before that only for the one client that is registering. */
  lemma CallsAreRight(acts: seq<Action>, c: Call)
    requires IsRun(INIT, acts) && c in After(INIT, acts).calls
    ensures
      var s := After(INIT, acts);
      && (c.want.slot < |s.log| ==> IsRight(s.log, c))
      && (c.want.slot >= |s.log| ==> c.want.slot == |s.log| && s.mutex == 0 && !c.want.settled)
  {
    InvAtStart();
    RunKeepsInv(INIT, acts);
    var s := After(INIT, acts);
    hide IsRun, After, Counting, INIT;
    CallIsRight(s, c);
  }

  lemma CallIsRight(s: State, c: Call)
    requires Registry(s) && Scanning(s) && c in s.calls
    ensures c.want.slot < |s.log| ==> IsRight(s.log, c)
    ensures c.want.slot >= |s.log| ==> c.want.slot == |s.log| && s.mutex == 0 && !c.want.settled
  {
    hide RowOf, SusOf, IsConn;
    var w := c.want;
    assert CallOk(s, c);
    PublishedMeansNamed(s, w.slot);
    if w.slot < |s.log| {
      assert s.log[w.slot] in s.log && s.slots[w.slot] == Full(s.log[w.slot]);
      FirstIsLogged(s, w.sub, w.slot, c.fdSus);
      forall p: nat | FirstInLog(s.log, w.pub, p) ensures c.fdPub == s.log[p].fd {
        FirstIsLogged(s, w.pub, p, c.fdPub);
        var q: nat :| q <= p && FirstInLog(s.log, w.pub, q) && c.fdPub == s.log[q].fd;
        assert q == p;
      }
    }
  }

  lemma FirstIsLogged(s: State, name: string, i: nat, fd: int)
    requires Registry(s) && HasFd(s, name, fd)
    requires i < |s.log| && s.log[i].name == name
    ensures exists p: nat :: p <= i && FirstInLog(s.log, name, p) && fd == s.log[p].fd
  {
    hide RowOf, SusOf, IsConn;
    var p: nat :| IsFirst(s, name, p) && s.slots[p].fd == fd;
    assert s.slots[i] == Full(s.log[i]);
    assert p <= i;
    forall m | 0 <= m <= p ensures s.slots[m] == Full(s.log[m]) {}
    assert FirstInLog(s.log, name, p);
  }

  /** Any call at all, also one whose slot was still being filled: once that slot is registered, the
      copied topics never leave out one that the subscription selects. They may include others. */
  lemma NeverTooFewTopics(acts: seq<Action>, c: Call, m: nat)
    requires IsRun(INIT, acts) && c in After(INIT, acts).calls && m < TOPICS_NUMBER
    requires c.want.slot < |After(INIT, acts).log|
    ensures
      var log := After(INIT, acts).log;
      && |c.want.row| == TOPICS_NUMBER && IsConn(log[c.want.slot])
      && (c.want.row[m] == -1 ==> RowOf(log[c.want.slot])[m] == -1)
  {
    InvAtStart();
    RunKeepsInv(INIT, acts);
    var s := After(INIT, acts);
    hide IsRun, After, Counting, INIT, RowOf, SusOf, IsConn;
    assert CallOk(s, c);
    assert s.log[c.want.slot] in s.log && s.slots[c.want.slot] == Full(s.log[c.want.slot]);
  }

  /** With distinct names, a subscriber gets its messages from its own publisher, and no other's. */
  lemma CallsWithDistinctNames(acts: seq<Action>, c: Call, p: nat)
    requires IsRun(INIT, acts) && c in After(INIT, acts).calls && c.want.slot < |After(INIT, acts).log|
    requires NamesDiffer(After(INIT, acts).log)
    requires p < |After(INIT, acts).log| && After(INIT, acts).log[p].name == c.want.pub
    ensures
      var log := After(INIT, acts).log;
      c.fdSus == log[c.want.slot].fd && c.fdPub == log[p].fd
  {
    CallsAreRight(acts, c);
    var log := After(INIT, acts).log;
    assert FirstInLog(log, c.want.pub, p);
  }
}
