/** Which line goes to which subscriber, when the slots take turns and every turn reads one line from
    its publisher. */
module Deliveries {
  import opened Kernel
  import opened RioSpec
  import opened Arrivals
  import opened Broker
  import opened Dispatch
  import opened Forwarding

  datatype Delivery = Delivery(slot: nat, line: string)

  /** Slot t is subscribed and its publisher has a stream. */
  predicate CanTakeTurn(slots: seq<Slot>, src: map<string, Source>, t: nat) {
    t < |slots| && IsSubscribed(slots[t]) && slots[t].sus.value in src
  }

  predicate CanTakeTurns(slots: seq<Slot>, src: map<string, Source>, turns: seq<nat>) {
    forall j :: 0 <= j < |turns| ==> CanTakeTurn(slots, src, turns[j])
  }

  /** The lines delivered in these turns; src holds what each publisher will still send. The process
      ends at a failed read, and a turn at the end of a stream delivers nothing. */
  function Deliver(slots: seq<Slot>, src: map<string, Source>, turns: seq<nat>): seq<Delivery>
    requires CanTakeTurns(slots, src, turns)
    decreases |turns|
  {
    if turns == [] then [] else
    assert CanTakeTurn(slots, src, turns[0]);
    var pub := slots[turns[0]].sus.value;
    var (got, r) := ReadLine(Reader("", src[pub]), LIMIT);
    if !got.ok then []
    else if got.bytes == "" then Deliver(slots, src[pub := r.source], turns[1..])
    else [Delivery(turns[0], got.bytes)] + Deliver(slots, src[pub := r.source], turns[1..])
  }

  /** The deliveries that come from this publisher. */
  function From(slots: seq<Slot>, ds: seq<Delivery>, publisher: string): seq<Delivery> {
    if ds == [] then [] else
    (if Follows(slots, ds[0].slot, publisher) then [ds[0]] else []) + From(slots, ds[1..], publisher)
  }

  ghost predicate NoneFails(src: map<string, Source>) {
    forall p :: p in src ==> NeverFails(src[p])
  }

  lemma DeliverStep(slots: seq<Slot>, src: map<string, Source>, turns: seq<nat>)
    requires CanTakeTurns(slots, src, turns) && turns != []
    ensures
      var t := turns[0];
      && CanTakeTurn(slots, src, t)
      && var pub := slots[t].sus.value;
      var (got, r) := ReadLine(Reader("", src[pub]), LIMIT);
      && CanTakeTurns(slots, src[pub := r.source], turns[1..])
      && Deliver(slots, src, turns) == (
           if !got.ok then [] else
           (if got.bytes == "" then [] else [Delivery(t, got.bytes)])
           + Deliver(slots, src[pub := r.source], turns[1..]))
      && (NoneFails(src) ==> got.ok && NoneFails(src[pub := r.source]))
      && (got.ok && got.bytes == "" ==> r.source.incoming == "")
  {
    assert CanTakeTurn(slots, src, turns[0]);
    var pub := slots[turns[0]].sus.value;
    ReadLineLaw(Reader("", src[pub]), LIMIT);
    FirstLineEmpty(Reader("", src[pub]).Rest());
    var later := src[pub := ReadLine(Reader("", src[pub]), LIMIT).1.source];
    forall j | 0 <= j < |turns| - 1 ensures CanTakeTurn(slots, later, turns[1..][j]) {
      assert CanTakeTurn(slots, src, turns[j + 1]);
    }
  }

  /** After the end of its stream a publisher's lines are over. */
  lemma NothingMore(k: Source, n: nat)
    requires k.incoming == ""
    ensures Consumed(k, n) == []
  {
    hide Consumed, Taken, Chunks, Broken;
    ConsumedIsTaken(k, n);
    ChunksConcat(k, RIO_BUFSIZE);
    NoBytesNoChunks(Chunks(k, RIO_BUFSIZE));
    TakenNothing(Broken(k, RIO_BUFSIZE), n);
  }

  /** The deliveries from one publisher pair the lines of its stream, in order, with the turns of its
      subscribers, in order. They are all the lines its turns can read, unless some read fails. */
  ghost predicate Paired(mine: seq<Delivery>, served: seq<nat>, lines: seq<string>) {
    && |mine| <= |lines| <= |served|
    && forall j :: 0 <= j < |mine| ==> mine[j] == Delivery(served[j], lines[j])
  }

  lemma FromCons(slots: seq<Slot>, d: Delivery, ds: seq<Delivery>, publisher: string)
    ensures From(slots, [d] + ds, publisher) ==
              (if Follows(slots, d.slot, publisher) then [d] else []) + From(slots, ds, publisher)
  {
    assert ([d] + ds)[1..] == ds;
  }

  lemma PairedNext(t: nat, line: string, mine: seq<Delivery>, served: seq<nat>, lines: seq<string>)
    requires Paired(mine, served, lines)
    ensures Paired([Delivery(t, line)] + mine, [t] + served, [line] + lines)
  {
  }

  lemma {:induction false} ConsumedLength(k: Source, n: nat)
    ensures |Consumed(k, n)| <= n
    decreases n
  {
    hide Consumed, ReadLine;
    if n == 0 {
      ConsumedNone(k);
    } else {
      ConsumedStep(k, n);
      ConsumedLength(ReadLine(Reader("", k), LIMIT).1.source, n - 1);
    }
  }

  lemma {:induction false} EachLineOnce(slots: seq<Slot>, src: map<string, Source>, turns: seq<nat>, publisher: string)
    requires CanTakeTurns(slots, src, turns) && publisher in src
    ensures
      var mine := From(slots, Deliver(slots, src, turns), publisher);
      var served := OfPublisher(slots, turns, publisher);
      var lines := Consumed(src[publisher], |served|);
      && Paired(mine, served, lines)
      && (NoneFails(src) ==> |mine| == |lines|)
    decreases |turns|
  {
    hide Consumed, Deliver, ReadLine, NeverFails, CanTakeTurns, NoneFails, Follows, Paired;
    var served := OfPublisher(slots, turns, publisher);
    ConsumedLength(src[publisher], |served|);
    NonePaired(served, Consumed(src[publisher], |served|));
    if turns == [] {
      NoTurns(slots, src);
      ConsumedNone(src[publisher]);
    } else {
      DeliverStep(slots, src, turns);
      OfPublisherStep(slots, turns, publisher);
      var t, rest := turns[0], turns[1..];
      var pub := slots[t].sus.value;
      var (got, r) := ReadLine(Reader("", src[pub]), LIMIT);
      var later := src[pub := r.source];
      assert Follows(slots, t, publisher) <==> pub == publisher by { FollowsPub(slots, t, publisher); }
      if got.ok {
        EachLineOnce(slots, later, rest, publisher);
        var ds := Deliver(slots, later, rest);
        FromCons(slots, Delivery(t, got.bytes), ds, publisher);
        assert [] + ds == ds && [] + From(slots, ds, publisher) == From(slots, ds, publisher);
        if pub == publisher {
          OwnTurn(slots, src[pub], t, rest, publisher, ds);
        } else {
          assert later[publisher] == src[publisher];
          assert [] + OfPublisher(slots, rest, publisher) == OfPublisher(slots, rest, publisher);
        }
      }
    }
  }

  lemma FollowsPub(slots: seq<Slot>, t: nat, publisher: string)
    requires t < |slots| && slots[t].sus.Some?
    ensures Follows(slots, t, publisher) <==> slots[t].sus.value == publisher
  {
  }

  lemma NonePaired(served: seq<nat>, lines: seq<string>)
    requires |lines| <= |served|
    ensures Paired([], served, lines)
  {
  }

  lemma NoTurns(slots: seq<Slot>, src: map<string, Source>)
    requires CanTakeTurns(slots, src, [])
    ensures Deliver(slots, src, []) == []
  {
  }

  /** A turn of one of the publisher's own subscribers. */
  lemma OwnTurn(slots: seq<Slot>, k: Source, t: nat, rest: seq<nat>, publisher: string, ds: seq<Delivery>)
    requires ReadLine(Reader("", k), LIMIT).0.ok
    requires
      var served := OfPublisher(slots, rest, publisher);
      Paired(From(slots, ds, publisher), served, Consumed(ReadLine(Reader("", k), LIMIT).1.source, |served|))
    requires
      var (got, r) := ReadLine(Reader("", k), LIMIT);
      got.bytes == "" ==> r.source.incoming == ""
    ensures
      var got := ReadLine(Reader("", k), LIMIT).0;
      var served := [t] + OfPublisher(slots, rest, publisher);
      var mine := (if got.bytes == "" then [] else [Delivery(t, got.bytes)]) + From(slots, ds, publisher);
      var lines := Consumed(k, |served|);
      && Paired(mine, served, lines)
      && var more := Consumed(ReadLine(Reader("", k), LIMIT).1.source, |OfPublisher(slots, rest, publisher)|);
         |From(slots, ds, publisher)| == |more| ==> |mine| == |lines|
  {
    hide Consumed, ReadLine, From, OfPublisher;
    var served := OfPublisher(slots, rest, publisher);
    var (got, r) := ReadLine(Reader("", k), LIMIT);
    ConsumedStep(k, 1 + |served|);
    assert |[t] + served| == 1 + |served|;
    if got.bytes == "" {
      NothingMore(r.source, |served|);
    } else {
      PairedNext(t, got.bytes, From(slots, ds, publisher), served, Consumed(r.source, |served|));
    }
  }

  /** Each line that is read from a publisher goes to exactly one of its subscribers, and they take
      turns: the j-th line of its stream goes to the j-th of its own subscribers, counted round and
      round in slot order, whoever else is served in between and however often. */
  lemma LinesTakeTurns(slots: seq<Slot>, src: map<string, Source>, subs: seq<nat>, m: nat, publisher: string)
    requires subs != [] && CanTakeTurns(slots, src, Cycle(subs, m)) && publisher in src
    requires OfPublisher(slots, subs, publisher) != []
    ensures
      var turns := Cycle(subs, m);
      var own := OfPublisher(slots, subs, publisher);
      var lines := Consumed(src[publisher], |OfPublisher(slots, turns, publisher)|);
      var mine := From(slots, Deliver(slots, src, turns), publisher);
      && |mine| <= |lines| && (NoneFails(src) ==> |mine| == |lines|)
      && forall j :: 0 <= j < |mine| ==> mine[j] == Delivery(own[Turn(j, |own|)], lines[j])
  {
    hide Consumed, Deliver, From, OfPublisher, CanTakeTurns, NoneFails, Turn;
    EachLineOnce(slots, src, Cycle(subs, m), publisher);
    PublisherTakesTurns(slots, subs, m, publisher);
  }

  /** In a table whose subscribed publishers are registered, all turns can be taken. */
  lemma TableCanTakeTurns(slots: seq<Slot>, src: map<string, Source>, n: nat, m: nat)
    requires Table(slots, n) && Subscribed(slots, n) != []
    requires forall i :: 0 <= i < n ==> slots[i].name.value in src
    ensures CanTakeTurns(slots, src, Cycle(Subscribed(slots, n), m))
  {
    var subs := Subscribed(slots, n);
    forall j | 0 <= j < m ensures CanTakeTurn(slots, src, Cycle(subs, m)[j]) {
      var t := subs[Turn(j, |subs|)];
      assert t in subs;
      assert slots[t].sus != Some(NONE);
      var k :| 0 <= k < n && slots[k].name == slots[t].sus;
      assert slots[k].name.value in src;
    }
  }

  /** The lines delivered to slot i, in order. */
  function LinesTo(ds: seq<Delivery>, i: nat): seq<string> {
    if ds == [] then [] else (if ds[0].slot == i then [ds[0].line] else []) + LinesTo(ds[1..], i)
  }

  lemma {:induction false} LinesToAppend(a: seq<Delivery>, b: seq<Delivery>, i: nat)
    ensures LinesTo(a + b, i) == LinesTo(a, i) + LinesTo(b, i)
    decreases |a|
  {
    if a == [] {
      assert a + b == b;
    } else {
      assert (a + b)[1..] == a[1..] + b;
      LinesToAppend(a[1..], b, i);
    }
  }

  /** What slot i's client receives of these deliveries. */
  function Received(slots: seq<Slot>, ds: seq<Delivery>, i: nat): string
    requires i < |slots|
  {
    ForwardedAll(LinesTo(ds, i), slots[i].topics)
  }

  lemma ReceivedNext(slots: seq<Slot>, ds: seq<Delivery>, d: Delivery, i: nat)
    requires i < |slots|
    ensures Received(slots, ds + [d], i) ==
              Received(slots, ds, i) + if d.slot == i then TextOf(d.line, slots[i].topics) else ""
  {
    hide TextOf, ForwardedAll;
    LinesToAppend(ds, [d], i);
    assert [d][1..] == [] && LinesTo([], i) == [];
    assert LinesTo([d], i) == if d.slot == i then [d.line] else [];
    if d.slot == i {
      ForwardedAllAppend(LinesTo(ds, i), d.line, slots[i].topics);
    } else {
      var text := Received(slots, ds, i);
      assert LinesTo(ds, i) + [] == LinesTo(ds, i) && text + "" == text;
    }
  }
}
