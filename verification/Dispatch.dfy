/** The turns of one forwarding thread over tables that no longer change. */
module Dispatch {
  import opened Broker

  /** n clients are registered, each publisher that is subscribed to among them, and no two of the
      same name; the next entry is null. */
  ghost predicate Table(slots: seq<Slot>, n: nat) {
    && n < |slots| && slots[n].name.None? && slots[n].sus.None?
    && (forall i :: 0 <= i < n ==> slots[i].name.Some? && slots[i].sus.Some?)
    && (forall i, j :: 0 <= i < j < n ==> slots[i].name != slots[j].name)
    && (forall i :: 0 <= i < n && slots[i].sus != Some(NONE) ==>
          exists k :: 0 <= k < n && slots[k].name == slots[i].sus)
  }

  predicate NoneBefore(slots: seq<Slot>, name: string, n: int) {
    n <= |slots| && forall k :: 0 <= k < n ==> slots[k].name.Some? && slots[k].name != Some(name)
  }

  method FindIndexByClientName(slots: seq<Slot>, clientName: string) returns (index: int)
    requires exists k :: 0 <= k < |slots| && slots[k].name.None?
    ensures -1 <= index < |slots|
    ensures index >= 0 ==> slots[index].name == Some(clientName)
    ensures NoneBefore(slots, clientName, index)
    ensures index == -1 ==>
              exists z :: 0 <= z < |slots| && slots[z].name.None? && NoneBefore(slots, clientName, z)
  {
    var i := 0;
    ghost var z :| 0 <= z < |slots| && slots[z].name.None?;
    while slots[i].name.Some?
      invariant 0 <= i <= z
      invariant NoneBefore(slots, clientName, i)
      decreases z - i
    {
      if clientName == slots[i].name.value {
        return i;
      }
      i := i + 1;
    }
    return -1;
  }

  predicate IsSubscribed(slot: Slot) {
    slot.sus.Some? && slot.sus.value != NONE
  }

  /** The subscribed slots among the first n, in slot order. */
  function Subscribed(slots: seq<Slot>, n: nat): (subs: seq<nat>)
    requires n <= |slots|
    ensures forall i :: i in subs <==> 0 <= i < n && IsSubscribed(slots[i])
    ensures forall j, k :: 0 <= j < k < |subs| ==> subs[j] < subs[k]
  {
    if n == 0 then [] else
    var front := Subscribed(slots, n - 1);
    assert forall j :: 0 <= j < |front| ==> front[j] in front;
    if IsSubscribed(slots[n - 1]) then front + [n - 1] else front
  }

  datatype Served = Served(slot: nat, fdPub: int, fdSus: int, topics: seq<int>)

  /** A call for slot i reads from the client named in i's subscription and writes to i itself. */
  ghost predicate ServesOwn(slots: seq<Slot>, n: nat, call: Served) {
    && call.slot < n <= |slots| && IsSubscribed(slots[call.slot])
    && call.fdSus == slots[call.slot].fd
    && call.topics == slots[call.slot].topics
    && exists k :: 0 <= k < n && slots[k].name == slots[call.slot].sus && slots[k].fd == call.fdPub
  }

  /** Whose turn the m-th call is, among l. */
  function Turn(m: nat, l: nat): (r: nat)
    requires l > 0
    ensures r < l
  {
    m % l
  }

  /** subs over and over, m elements in all. */
  function Cycle<T>(subs: seq<T>, m: nat): (c: seq<T>)
    requires subs != []
    ensures |c| == m
  {
    seq(m, j requires 0 <= j < m => subs[Turn(j, |subs|)])
  }

  function Slots(calls: seq<Served>): (slots: seq<nat>)
    ensures |slots| == |calls|
  {
    seq(|calls|, j requires 0 <= j < |calls| => calls[j].slot)
  }

  lemma OneMoreCall(subs: seq<nat>, calls: seq<Served>, call: Served)
    requires subs != [] && Slots(calls) == Cycle(subs, |calls|)
    requires call.slot == subs[Turn(|calls|, |subs|)]
    ensures Slots(calls + [call]) == Cycle(subs, |calls| + 1)
  {
    var m := |calls|;
    forall j | 0 <= j < m + 1 ensures Slots(calls + [call])[j] == Cycle(subs, m + 1)[j] {
      if j < m {
        assert Slots(calls)[j] == Cycle(subs, m)[j];
      }
    }
  }

  /** The body of the scan for a subscribed slot, up to the call of forward_message. */
  method ServeSlot(slots: seq<Slot>, n: nat, i: nat) returns (call: Served)
    requires Table(slots, n) && i < n && IsSubscribed(slots[i])
    ensures call.slot == i && ServesOwn(slots, n, call)
  {
    var publisher, suscriber := slots[i].sus.value, slots[i].name.value;
    var pub := FindIndexByClientName(slots, publisher);
    var sus := FindIndexByClientName(slots, suscriber);
    assert slots[sus].name == slots[i].name;
    call := Served(i, slots[pub].fd, slots[sus].fd, slots[i].topics);
  }

  /** After `rounds` whole passes and the first i slots of the next. */
  ghost predicate Progress(slots: seq<Slot>, n: nat, rounds: nat, i: nat, calls: seq<Served>)
    requires i <= n <= |slots| && Subscribed(slots, n) != []
  {
    && |calls| == rounds * |Subscribed(slots, n)| + |Subscribed(slots, i)|
    && Slots(calls) == Cycle(Subscribed(slots, n), |calls|)
    && forall call :: call in calls ==> ServesOwn(slots, n, call)
  }

  lemma ProgressServe(slots: seq<Slot>, n: nat, rounds: nat, i: nat, calls: seq<Served>, call: Served)
    requires Table(slots, n) && i < n && IsSubscribed(slots[i]) && Subscribed(slots, n) != []
    requires Progress(slots, n, rounds, i, calls) && call.slot == i && ServesOwn(slots, n, call)
    ensures Progress(slots, n, rounds, i + 1, calls + [call])
  {
    var subs := Subscribed(slots, n);
    SubscribedPrefix(slots, i + 1, n);
    assert Subscribed(slots, i + 1) == Subscribed(slots, i) + [i];
    hide ServesOwn, Table;
    Remainder(rounds, |subs|, |Subscribed(slots, i)|);
    OneMoreCall(subs, calls, call);
  }

  lemma ProgressRound(slots: seq<Slot>, n: nat, rounds: nat, calls: seq<Served>)
    requires n <= |slots| && Subscribed(slots, n) != [] && Progress(slots, n, rounds, n, calls)
    ensures Progress(slots, n, rounds + 1, 0, calls)
  {
  }

  lemma ProgressStarts(slots: seq<Slot>, n: nat)
    requires n <= |slots| && Subscribed(slots, n) != []
    ensures Progress(slots, n, 0, 0, [])
  {
  }

  lemma ProgressSkip(slots: seq<Slot>, n: nat, rounds: nat, i: nat, calls: seq<Served>)
    requires i < n <= |slots| && Subscribed(slots, n) != [] && Progress(slots, n, rounds, i, calls)
    requires !IsSubscribed(slots[i])
    ensures Progress(slots, n, rounds, i + 1, calls)
  {
  }

  lemma {:induction false} SubscribedPrefix(slots: seq<Slot>, i: nat, n: nat)
    requires i <= n <= |slots|
    ensures Subscribed(slots, i) <= Subscribed(slots, n)
    decreases n
  {
    if i < n {
      SubscribedPrefix(slots, i, n - 1);
    }
  }

  lemma Remainder(q: nat, l: nat, r: nat)
    requires r < l
    ensures (q * l + r) / l == q && (q * l + r) % l == r
  {
    var v := q * l + r;
    var d := v / l - q;
    assert l * d == r - v % l;
    Scaled(l, d);
  }

  lemma Scaled(l: int, d: int)
    requires l > 0
    ensures d >= 1 ==> l * d >= l
    ensures d <= -1 ==> l * d <= -l
  {
  }

  lemma CycleNext<T>(subs: seq<T>, m: nat)
    requires subs != []
    ensures Cycle(subs, m + 1) == Cycle(subs, m) + [subs[Turn(m, |subs|)]]
  {
  }

  lemma DivModNext(m: nat, l: nat)
    requires l > 0
    ensures m % l == l - 1 ==> (m + 1) / l == m / l + 1 && (m + 1) % l == 0
    ensures m % l != l - 1 ==> (m + 1) / l == m / l && (m + 1) % l == m % l + 1
  {
    var q, r := m / l, m % l;
    assert m == q * l + r;
    if r == l - 1 {
      assert m + 1 == (q + 1) * l + 0;
      Remainder(q + 1, l, 0);
    } else {
      assert m + 1 == q * l + (r + 1);
      Remainder(q, l, r + 1);
    }
  }

  function Occurrences(s: seq<nat>, x: nat): nat {
    if s == [] then 0 else Occurrences(s[..|s| - 1], x) + if s[|s| - 1] == x then 1 else 0
  }

  /** How often slot x is served by the first m calls. */
  function Times(subs: seq<nat>, m: nat, x: nat): nat
    requires subs != []
  {
    Occurrences(Cycle(subs, m), x)
  }

  /** Fair shares, at every point of a run: after m calls each of the |subs| subscribed slots has been
      served m / |subs| times, and the first m % |subs| of them once more. */
  lemma {:induction false} FairShares(subs: seq<nat>, m: nat, p: nat)
    requires p < |subs| && forall j, k :: 0 <= j < k < |subs| ==> subs[j] < subs[k]
    ensures Times(subs, m, subs[p]) == m / |subs| + if p < Turn(m, |subs|) then 1 else 0
    decreases m
  {
    hide Times;
    var l := |subs|;
    TimesNone(subs, subs[p]);
    if m == 0 {
      Remainder(0, l, 0);
    } else {
      FairShares(subs, m - 1, p);
      TimesNext(subs, m - 1, subs[p]);
      DivModNext(m - 1, l);
      var r := Turn(m - 1, l);
      assert subs[r] == subs[p] <==> r == p;
    }
  }

  lemma TimesNone(subs: seq<nat>, x: nat)
    requires subs != []
    ensures Times(subs, 0, x) == 0
  {
  }

  lemma TimesNext(subs: seq<nat>, m: nat, x: nat)
    requires subs != []
    ensures Times(subs, m + 1, x) == Times(subs, m, x) + if subs[Turn(m, |subs|)] == x then 1 else 0
  {
    CycleNext(subs, m);
    hide Cycle, Turn;
    AppendCounts(Cycle(subs, m), subs[Turn(m, |subs|)], x);
  }

  lemma AppendCounts(a: seq<nat>, y: nat, x: nat)
    ensures Occurrences(a + [y], x) == Occurrences(a, x) + if y == x then 1 else 0
  {
  }

  /** So no subscribed slot is ever more than one call ahead of another. */
  lemma RoundRobin(slots: seq<Slot>, n: nat, m: nat, a: nat, b: nat)
    requires n <= |slots| && a < n && b < n && IsSubscribed(slots[a]) && IsSubscribed(slots[b])
    ensures Subscribed(slots, n) != []
    ensures
      var subs := Subscribed(slots, n);
      -1 <= Times(subs, m, a) - Times(subs, m, b) <= 1
  {
    assert a in Subscribed(slots, n) && b in Subscribed(slots, n);
    InTurn(Subscribed(slots, n), m, a, b);
    InTurn(Subscribed(slots, n), m, b, a);
  }

  lemma InTurn(subs: seq<nat>, m: nat, a: nat, b: nat)
    requires a in subs && b in subs
    requires forall j, k :: 0 <= j < k < |subs| ==> subs[j] < subs[k]
    ensures Times(subs, m, a) <= Times(subs, m, b) + 1
  {
    var p :| 0 <= p < |subs| && subs[p] == a;
    var q :| 0 <= q < |subs| && subs[q] == b;
    FairShares(subs, m, p);
    FairShares(subs, m, q);
    hide *;
  }

  predicate Follows(slots: seq<Slot>, i: nat, publisher: string) {
    i < |slots| && slots[i].sus == Some(publisher)
  }

  /** The slots among xs that subscribe to this publisher. */
  function OfPublisher(slots: seq<Slot>, xs: seq<nat>, publisher: string): seq<nat> {
    if xs == [] then [] else
    (if Follows(slots, xs[0], publisher) then [xs[0]] else []) + OfPublisher(slots, xs[1..], publisher)
  }

  lemma OfPublisherStep(slots: seq<Slot>, turns: seq<nat>, publisher: string)
    requires turns != []
    ensures OfPublisher(slots, turns, publisher) ==
              (if Follows(slots, turns[0], publisher) then [turns[0]] else [])
              + OfPublisher(slots, turns[1..], publisher)
  {
  }

  lemma {:induction false} OfPublisherAppend(slots: seq<Slot>, xs: seq<nat>, ys: seq<nat>, publisher: string)
    ensures OfPublisher(slots, xs + ys, publisher) ==
              OfPublisher(slots, xs, publisher) + OfPublisher(slots, ys, publisher)
    decreases |xs|
  {
    hide Follows;
    if xs == [] {
      assert xs + ys == ys;
    } else {
      assert (xs + ys)[1..] == xs[1..] + ys;
      OfPublisherAppend(slots, xs[1..], ys, publisher);
      hide OfPublisher;
      OfPublisherStep(slots, xs, publisher);
      OfPublisherStep(slots, xs + ys, publisher);
      var first := if Follows(slots, xs[0], publisher) then [xs[0]] else [];
      var rest, more := OfPublisher(slots, xs[1..], publisher), OfPublisher(slots, ys, publisher);
      assert first + (rest + more) == first + rest + more;
    }
  }

  lemma TurnBack(j: nat, l: nat)
    requires l > 0
    ensures if j < l then Turn(j, l) == j else Turn(j, l) == Turn(j - l, l)
  {
    if j < l {
      Remainder(0, l, j);
    } else {
      var q, r := (j - l) / l, (j - l) % l;
      assert j == (q + 1) * l + r;
      Remainder(q + 1, l, r);
    }
  }

  lemma CycleRound<T>(subs: seq<T>, m: nat)
    requires subs != [] && m >= |subs|
    ensures Cycle(subs, m) == subs + Cycle(subs, m - |subs|)
  {
    hide Turn;
    forall j | 0 <= j < m ensures Cycle(subs, m)[j] == (subs + Cycle(subs, m - |subs|))[j] {
      TurnBack(j, |subs|);
    }
  }

  lemma CycleShort<T>(subs: seq<T>, m: nat)
    requires subs != [] && m <= |subs|
    ensures Cycle(subs, m) == subs[..m]
  {
  }

  /** The subscribers of one publisher take turns: the calls that read from it serve its own subscribers
      round and round, whoever else is served in between. */
  lemma {:induction false} PublisherTakesTurns(slots: seq<Slot>, subs: seq<nat>, m: nat, publisher: string)
    requires subs != [] && OfPublisher(slots, subs, publisher) != []
    ensures
      var served := OfPublisher(slots, Cycle(subs, m), publisher);
      served == Cycle(OfPublisher(slots, subs, publisher), |served|)
    decreases m
  {
    var own := OfPublisher(slots, subs, publisher);
    hide Cycle, OfPublisher;
    if m >= |subs| {
      PublisherTakesTurns(slots, subs, m - |subs|, publisher);
      CycleRound(subs, m);
      var rest := Cycle(subs, m - |subs|);
      OfPublisherAppend(slots, subs, rest, publisher);
      CycleRound(own, |own| + |OfPublisher(slots, rest, publisher)|);
    } else {
      CycleShort(subs, m);
      assert subs == subs[..m] + subs[m..];
      OfPublisherAppend(slots, subs[..m], subs[m..], publisher);
      CycleShort(own, |OfPublisher(slots, subs[..m], publisher)|);
    }
  }
}
