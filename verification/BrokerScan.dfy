/** The forwarders' lock-free reading of the tables. */
module BrokerScan {
  import opened Topics
  import opened Broker
  import opened BrokerSafety

  /** Every subscription below n has been published. */
  ghost predicate SusUpTo(s: State, n: nat) {
    n <= |s.slots| && forall m :: 0 <= m < n ==> s.slots[m].sus.Some?
  }

  /** The first n slots are named, and not by this name. */
  ghost predicate NotAmong(s: State, name: string, n: nat) {
    n <= |s.slots| && forall m :: 0 <= m < n ==> s.slots[m].name.Some? && s.slots[m].name.value != name
  }

  /** Slot p is where find_index_by_client_name finds this name. */
  ghost predicate IsFirst(s: State, name: string, p: nat) {
    NotAmong(s, name, p) && p < |s.slots| && s.slots[p].name == Some(name)
  }

  ghost predicate HasFd(s: State, name: string, fd: int) {
    exists p: nat :: IsFirst(s, name, p) && s.slots[p].fd == fd
  }

  /** What a forwarder copied from a row: the row itself if the client was registered when its
      subscription was read; otherwise some entries may still be the zeros the row started with. */
  ghost predicate RowSeen(row: seq<int>, topics: seq<int>, settled: bool) {
    && |row| <= |topics| == TOPICS_NUMBER
    && forall m :: 0 <= m < |row| ==> row[m] == topics[m] || (!settled && row[m] == 0)
  }

  ghost predicate WantOk(s: State, w: Want) {
    && w.slot < |s.slots|
    && SusUpTo(s, w.slot + 1)
    && s.slots[w.slot].sus == Some(w.pub) && w.pub != NONE
    && s.slots[w.slot].name == Some(w.sub)
    && (w.settled ==> w.slot < s.fdIdx)
    && RowSeen(w.row, s.slots[w.slot].topics, w.settled)
  }

  /** What a forwarding thread knows at each point of its loop. */
  ghost predicate Knows(s: State, pc: Pc) {
    match pc
    case Scan(i) => i < LIMIT_CONN_CLIENTS && SusUpTo(s, i)
    case Compare(i) => i < LIMIT_CONN_CLIENTS && SusUpTo(s, i + 1)
    case TakeName(i, pub, settled) =>
      && i < |s.slots| && SusUpTo(s, i + 1) && s.slots[i].sus == Some(pub) && pub != NONE
      && (settled ==> i < s.fdIdx)
    case TakeTopics(w) => WantOk(s, w) && |w.row| < TOPICS_NUMBER
    case FindPub(w, k) => WantOk(s, w) && |w.row| == TOPICS_NUMBER && k < LIMIT_CONN_CLIENTS && NotAmong(s, w.pub, k)
    case TakePubFd(w, k) => WantOk(s, w) && |w.row| == TOPICS_NUMBER && IsFirst(s, w.pub, k)
    case FindSub(w, fdPub, k) =>
      && WantOk(s, w) && |w.row| == TOPICS_NUMBER && HasFd(s, w.pub, fdPub)
      && k <= w.slot && NotAmong(s, w.sub, k)
    case TakeSubFd(w, fdPub, k) =>
      && WantOk(s, w) && |w.row| == TOPICS_NUMBER && HasFd(s, w.pub, fdPub)
      && IsFirst(s, w.sub, k)
    case CallForward(w, fdPub, fdSus) => CallOk(s, Call(w, fdPub, fdSus))
    case NoSubscriber => false
    case _ => true
  }

  /** A call of forward_message: from the client found under the publisher's name, to the client found
      under the subscriber's name, with the topics of the subscriber's slot. */
  ghost predicate CallOk(s: State, c: Call) {
    && WantOk(s, c.want) && |c.want.row| == TOPICS_NUMBER
    && HasFd(s, c.want.pub, c.fdPub) && HasFd(s, c.want.sub, c.fdSus)
  }

  ghost predicate Scanning(s: State) {
    && (forall t :: t in s.threads ==> Knows(s, s.threads[t].pc))
    && (forall c :: c in s.calls ==> CallOk(s, c))
  }

  /** What a step can do to a slot: fill in what is still missing. */
  ghost predicate Grows(a: Slot, b: Slot) {
    && (a.name.Some? ==> b.name == a.name && b.fd == a.fd)
    && (a.sus.Some? ==> b.sus == a.sus)
    && |a.topics| == |b.topics| == TOPICS_NUMBER
    && (forall m :: 0 <= m < TOPICS_NUMBER ==> b.topics[m] == a.topics[m] || a.topics[m] == 0)
  }

  ghost predicate Later(s: State, s': State) {
    && |s.slots| == |s'.slots| && s.fdIdx <= s'.fdIdx && s.fdIdx <= |s.slots|
    && (forall i :: 0 <= i < |s.slots| ==> Grows(s.slots[i], s'.slots[i]))
    && (forall i :: 0 <= i < s.fdIdx ==> s'.slots[i] == s.slots[i])
    && s.log <= s'.log
  }

  /** A client whose descriptor and name are in slot m: the m-th registered, or the one registering. */
  ghost predicate Holds(s: State, m: nat, c: Conn) {
    && m < |s.slots| && s.slots[m].fd == c.fd && s.slots[m].name == Some(c.name)
    && if m < |s.log| then c == s.log[m] else
         m == |s.log| && exists t :: t in s.threads && InCritical(s.threads[t].pc) && s.threads[t].conn == c
  }

  ghost predicate HasClient(s: State, m: nat) {
    exists c :: Holds(s, m, c)
  }

  /** A published subscription means that every slot up to it has the descriptor and the name of its
      client, because that is the order in which they are written. */
  lemma PublishedMeansNamed(s: State, i: nat)
    requires Registry(s) && i < |s.slots| && s.slots[i].sus.Some?
    ensures i < LIMIT_CONN_CLIENTS - 1
    ensures forall m: nat :: m <= i ==> s.slots[m].name.Some? && HasClient(s, m)
    ensures i < s.fdIdx || (i == s.fdIdx && s.mutex == 0)
  {
    hide RowOf, SusOf, IsConn;
    if i >= s.fdIdx {
      assert i == s.fdIdx && s.mutex == 0;
      var t :| t in s.threads && InCritical(s.threads[t].pc);
      assert s.slots[i] == Written(s.threads[t].pc, s.threads[t].conn);
      assert Holds(s, i, s.threads[t].conn);
    }
    forall m: nat | m <= i && m < s.fdIdx ensures Holds(s, m, s.log[m]) {
      assert s.slots[m] == Full(s.log[m]);
    }
  }

  /** Table entries are written once. */
  lemma StepIsLater(s: State, a: Action)
    requires Registry(s) && Enabled(s, a)
    ensures Later(s, Apply(s, a))
  {
    var s' := Apply(s, a);
    SlotsAreRows(s);
    if a.Run? && IsWriting(s.threads[a.t].pc) {
      WriteGrows(s, a.t);
    }
  }

  lemma SlotsAreRows(s: State)
    requires Registry(s)
    ensures forall i :: 0 <= i < |s.slots| ==> |s.slots[i].topics| == TOPICS_NUMBER
  {
  }

  lemma WriteGrows(s: State, t: nat)
    requires Registry(s) && Enabled(s, Run(t)) && IsWriting(s.threads[t].pc)
    ensures Later(s, Register(s, t))
  {
    SlotsAreRows(s);
    var s' := Register(s, t);
    var pc, c := s.threads[t].pc, s.threads[t].conn;
    assert s.slots[s.fdIdx] == Written(pc, c);
    assert Grows(s.slots[s.fdIdx], s'.slots[s.fdIdx]);
  }

  /** What was seen stays true. */
  lemma FirstStays(s: State, s': State, name: string, n: nat)
    requires Later(s, s')
    ensures NotAmong(s, name, n) ==> NotAmong(s', name, n)
    ensures IsFirst(s, name, n) ==> IsFirst(s', name, n) && s'.slots[n].fd == s.slots[n].fd
  {
  }

  lemma FdStays(s: State, s': State, name: string, fd: int)
    requires Later(s, s') && HasFd(s, name, fd)
    ensures HasFd(s', name, fd)
  {
  }

  lemma SusStays(s: State, s': State, n: nat)
    requires Later(s, s') && SusUpTo(s, n)
    ensures SusUpTo(s', n)
  {
  }

  lemma WantStays(s: State, s': State, w: Want)
    requires Later(s, s') && WantOk(s, w)
    ensures WantOk(s', w)
  {
  }

  lemma CallStays(s: State, s': State, c: Call)
    requires Later(s, s') && CallOk(s, c)
    ensures CallOk(s', c)
  {
  }

  lemma KnowsStays(s: State, s': State, pc: Pc)
    requires Later(s, s') && Knows(s, pc)
    ensures Knows(s', pc)
  {
    hide Later, WantOk, SusUpTo, HasFd, IsFirst, NotAmong;
    match pc {
      case Scan(i) => SusStays(s, s', i);
      case Compare(i) => SusStays(s, s', i + 1);
      case TakeName(i, pub, settled) =>
        SusStays(s, s', i + 1);
        SlotStays(s, s', i);
      case TakeTopics(w) => WantStays(s, s', w);
      case FindPub(w, k) => WantStays(s, s', w); FirstStays(s, s', w.pub, k);
      case TakePubFd(w, k) => WantStays(s, s', w); FirstStays(s, s', w.pub, k);
      case FindSub(w, fdPub, k) =>
        WantStays(s, s', w);
        FdStays(s, s', w.pub, fdPub);
        FirstStays(s, s', w.sub, k);
      case TakeSubFd(w, fdPub, k) =>
        WantStays(s, s', w);
        FdStays(s, s', w.pub, fdPub);
        FirstStays(s, s', w.sub, k);
      case CallForward(w, fdPub, fdSus) => CallStays(s, s', Call(w, fdPub, fdSus));
      case _ =>
    }
  }

  lemma SlotStays(s: State, s': State, i: nat)
    requires Later(s, s') && i < |s.slots| && s.slots[i].sus.Some?
    ensures i < |s'.slots| && s'.slots[i].sus == s.slots[i].sus && s.fdIdx <= s'.fdIdx
  {
  }

  /** The same knowledge in a state that differs only in threads and calls. */
  lemma SameTables(s: State, s': State)
    requires s'.slots == s.slots && s'.fdIdx == s.fdIdx && s'.log == s.log
    requires Registry(s)
    ensures Later(s, s')
  {
  }

  lemma LookupKnows(s: State, pc: Pc)
    requires Registry(s) && IsPast(pc) && Ready(s, pc) && Accessible(s, pc) && Knows(s, pc)
    requires pc.FindPub? || pc.TakePubFd? || pc.FindSub? || pc.TakeSubFd?
    ensures Knows(s, NextPc(s, pc))
  {
    hide Registry, RowOf, SusOf, IsConn, Full;
    match pc {
      case FindPub(w, k) =>
        if s.slots[k].name.Some? {
          NamedInside(s, k);
        }
      case TakePubFd(w, k) =>
        assert IsFirst(s, w.pub, k) && s.slots[k].fd == s.slots[k].fd;
      case FindSub(w, fdPub, k) =>
        PublishedMeansNamed(s, w.slot);
        assert k == w.slot ==> s.slots[k].name.value == w.sub;
      case TakeSubFd(w, fdPub, k) =>
        assert IsFirst(s, w.sub, k) && s.slots[k].fd == s.slots[k].fd;
    }
  }

  /** One step of a forwarder: from what it knows, everything it needs at its next position follows;
      in particular the subscriber's name is found, at or before the subscriber's own slot. */
  lemma NextKnows(s: State, pc: Pc)
    requires Registry(s) && IsPast(pc) && Ready(s, pc) && Accessible(s, pc) && Knows(s, pc)
    ensures Knows(s, NextPc(s, pc))
  {
    hide Registry, RowOf, SusOf, IsConn, Full;
    match pc {
      case Compare(i) => PublishedMeansNamed(s, i);
      case TakeName(i, pub, settled) => SlotsAreRows(s);
      case CallForward(w, fdPub, fdSus) => PublishedMeansNamed(s, w.slot);
      case Scan(_) =>
      case TakeTopics(_) =>
      case _ => LookupKnows(s, pc);
    }
  }

  /** The last slot stays empty: it is the null entry that ends every scan. */
  lemma NamedInside(s: State, k: nat)
    requires Registry(s) && k < |s.slots| && s.slots[k].name.Some?
    ensures k < LIMIT_CONN_CLIENTS - 1
  {
  }

  /** Memory safety of the scan: whatever a thread is about to touch exists. */
  lemma NothingOutOfBounds(s: State, t: nat)
    requires Registry(s) && Scanning(s) && t in s.threads
    ensures Accessible(s, s.threads[t].pc)
  {
  }

  lemma StepKeepsScanning(s: State, a: Action)
    requires Registry(s) && Scanning(s) && Enabled(s, a)
    ensures Scanning(Apply(s, a))
  {
    hide Registry, Knows, CallOk, Later, IsConn;
    var s' := Apply(s, a);
    StepIsLater(s, a);
    forall c | c in s.calls ensures CallOk(s', c) {
      CallStays(s, s', c);
    }
    forall u | u in s.threads ensures Knows(s', s.threads[u].pc) {
      KnowsStays(s, s', s.threads[u].pc);
    }
    ActorKnows(s, a);
    NewCallOk(s, a);
  }

  lemma ActorKnows(s: State, a: Action)
    requires Registry(s) && Scanning(s) && Enabled(s, a)
    ensures a.t in Apply(s, a).threads && Knows(Apply(s, a), Apply(s, a).threads[a.t].pc)
  {
    var s' := Apply(s, a);
    if a.Run? && IsPast(s.threads[a.t].pc) {
      var pc := s.threads[a.t].pc;
      NextKnows(s, pc);
      SameTables(s, s');
      KnowsStays(s, s', NextPc(s, pc));
    } else if a.Run? && s.threads[a.t].pc.WaitControl? {
      assert SusUpTo(s', 0);
    }
  }

  lemma NewCallOk(s: State, a: Action)
    requires Registry(s) && Scanning(s) && Enabled(s, a)
    ensures forall c :: c in Apply(s, a).calls ==> c in s.calls || CallOk(Apply(s, a), c)
  {
    var s' := Apply(s, a);
    if a.Run? && s.threads[a.t].pc.CallForward? {
      var pc := s.threads[a.t].pc;
      assert Knows(s, pc);
      SameTables(s, s');
      CallStays(s, s', Call(pc.want, pc.fdPub, pc.fdSus));
    }
  }
}
