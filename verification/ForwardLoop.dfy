/** forward_messages with its calls of forward_message: one thread that serves the subscribed slots of
    a table in turn, over the clients' descriptors. */
module ForwardLoop {
  import opened Kernel
  import opened RioSpec
  import opened CStrings
  import opened Tokenizer
  import opened Broker
  import opened Dispatch
  import opened Forwarding
  import opened Deliveries
  import Frames

  /** Every registered client has its own open descriptor. */
  ghost predicate Connected(slots: seq<Slot>, n: nat, open: map<int, Descriptor>)
    requires n <= |slots|
  {
    && (forall i :: 0 <= i < n ==> slots[i].fd in open)
    && (forall i, j :: 0 <= i < j < n ==> open[slots[i].fd] != open[slots[j].fd])
  }

  ghost function Clients(slots: seq<Slot>, n: nat, open: map<int, Descriptor>): set<Descriptor>
    requires n <= |slots| && Connected(slots, n, open)
  {
    set i | 0 <= i < n :: open[slots[i].fd]
  }

  /** src holds, under each client's name, what that client will still send. */
  ghost predicate Streams(slots: seq<Slot>, n: nat, open: map<int, Descriptor>, src: map<string, Source>)
    requires n <= |slots| && Connected(slots, n, open)
    reads Clients(slots, n, open)
  {
    forall i :: 0 <= i < n ==>
      slots[i].name.Some? && slots[i].name.value in src && src[slots[i].name.value] == open[slots[i].fd].Input()
  }

  /** Every delivery has the tokens its subscriber's topics need. */
  ghost predicate AllDeliverable(slots: seq<Slot>, ds: seq<Delivery>) {
    forall d :: d in ds ==>
      d.slot < |slots| && Frames.EnoughTokens(Tokens(CStr(d.line), ','), slots[d.slot].topics)
  }

  /** The stream of a publisher after one line has been read from it through a new rio_t. */
  function AfterLine(k: Source): Source {
    ReadLine(Reader("", k), LIMIT).1.source
  }

  /** One read of a line through a new rio_t succeeds. */
  predicate CanRead(k: Source) {
    ReadLine(Reader("", k), LIMIT).0.ok
  }

  /** The body of the scan for a subscribed slot. */
  method ForwardOne(slots: seq<Slot>, n: nat, i: nat, open: map<int, Descriptor>, ghost src: map<string, Source>)
    returns (call: Served, status: Frames.Status)
    requires Table(slots, n) && Connected(slots, n, open) && Streams(slots, n, open, src)
    requires i < n && CanTakeTurn(slots, src, i)
    requires
      var line := Frames.LineTaken(src[slots[i].sus.value]);
      line != "" ==> Frames.EnoughTokens(Tokens(CStr(line), ','), slots[i].topics)
    modifies Clients(slots, n, open)
    ensures call.slot == i && ServesOwn(slots, n, call)
    ensures
      var pub := slots[i].sus.value;
      var line := Frames.LineTaken(src[pub]);
      && Streams(slots, n, open, src[pub := AfterLine(src[pub])])
      && (status != Frames.Exited ==>
            && CanRead(src[pub])
            && open[slots[i].fd].outgoing ==
                 old(open[slots[i].fd].outgoing) + if line == "" then "" else TextOf(line, slots[i].topics))
    ensures forall k :: 0 <= k < n && k != i ==> open[slots[k].fd].outgoing == old(open[slots[k].fd].outgoing)
    ensures forall k, w :: 0 <= k < n && w in open[slots[k].fd].writePlan ==> w in old(open[slots[k].fd].writePlan)
    ensures
      && CanRead(src[slots[i].sus.value])
      && (forall w :: w in old(open[slots[i].fd].writePlan) ==> !IsHard(w))
      ==> status != Frames.Exited
  {
    hide Frames.LineTaken, ReadLine, IsHard, Frames.Forwarded, Frames.EnoughTokens, Tokens, CStr;
    call := ServeSlot(slots, n, i);
    ghost var p :| 0 <= p < n && slots[p].name == slots[i].sus && slots[p].fd == call.fdPub;
    ghost var pub := slots[i].sus.value;
    ghost var k := src[pub];
    assert open[call.fdPub] in Clients(slots, n, open) && open[call.fdSus] in Clients(slots, n, open);
    status := Frames.ForwardMessage(open[call.fdPub], open[call.fdSus], call.topics);
    if Frames.LineTaken(k) == "" {
      ghost var base := old(open[slots[i].fd].outgoing);
      assert base + "" == base;
    }
    forall j | 0 <= j < n
      ensures slots[j].name.value in src && src[pub := AfterLine(k)][slots[j].name.value] == open[slots[j].fd].Input()
    {
      assert j != p ==> slots[j].name != slots[p].name;
    }
  }

  /** What has been delivered so far and what is still to be delivered make up all deliveries; `fine`
      says that no read fails. */
  ghost predicate Delivering(slots: seq<Slot>, all: seq<Delivery>, ds: seq<Delivery>,
                             src: map<string, Source>, turns: seq<nat>, done: nat, fine: bool)
  {
    && done <= |turns| && CanTakeTurns(slots, src, turns[done..]) && (fine ==> NoneFails(src))
    && all == ds + Deliver(slots, src, turns[done..])
  }

  lemma DeliveringStarts(slots: seq<Slot>, src: map<string, Source>, turns: seq<nat>)
    requires CanTakeTurns(slots, src, turns)
    ensures Delivering(slots, Deliver(slots, src, turns), [], src, turns, 0, NoneFails(src))
  {
    assert turns[0..] == turns;
    assert [] + Deliver(slots, src, turns) == Deliver(slots, src, turns);
  }

  lemma DeliveringNext(slots: seq<Slot>, all: seq<Delivery>, ds: seq<Delivery>,
                       src: map<string, Source>, turns: seq<nat>, done: nat, fine: bool)
    returns (ds': seq<Delivery>)
    requires Delivering(slots, all, ds, src, turns, done, fine) && done < |turns|
    ensures CanTakeTurn(slots, src, turns[done])
    ensures
      var i := turns[done];
      var pub := slots[i].sus.value;
      var line := Frames.LineTaken(src[pub]);
      && (fine ==> CanRead(src[pub]))
      && ds' == (if line == "" then ds else ds + [Delivery(i, line)])
      && (line != "" ==> Delivery(i, line) in all)
      && (CanRead(src[pub]) ==> Delivering(slots, all, ds', src[pub := AfterLine(src[pub])], turns, done + 1, fine))
  {
    hide Deliver, ReadLine, NoneFails;
    var rest := turns[done..];
    assert rest[0] == turns[done] && rest[1..] == turns[done + 1..];
    DeliverStep(slots, src, rest);
    var i := turns[done];
    var pub := slots[i].sus.value;
    var line := Frames.LineTaken(src[pub]);
    var more := Deliver(slots, src[pub := AfterLine(src[pub])], rest[1..]);
    if line == "" {
      ds' := ds;
      assert [] + more == more;
    } else {
      ds' := ds + [Delivery(i, line)];
      assert ds + ([Delivery(i, line)] + more) == ds' + more;
      assert all[|ds|] == Delivery(i, line);
    }
  }

  lemma DeliveringEnds(slots: seq<Slot>, all: seq<Delivery>, ds: seq<Delivery>,
                       src: map<string, Source>, turns: seq<nat>, fine: bool)
    requires Delivering(slots, all, ds, src, turns, |turns|, fine)
    ensures ds == all
  {
    assert turns[|turns|..] == [];
  }

  /** Every client has received what has been delivered to its slot, after its bytes in bases, and its
      descriptor has no write outcomes to come but those in plans. */
  ghost predicate Delivered(slots: seq<Slot>, n: nat, open: map<int, Descriptor>, ds: seq<Delivery>,
                            bases: seq<string>, plans: seq<seq<WriteOutcome>>)
    requires n <= |slots| && Connected(slots, n, open)
    reads Clients(slots, n, open)
  {
    && |bases| == |plans| == n
    && (forall k :: 0 <= k < n ==> open[slots[k].fd].outgoing == bases[k] + Received(slots, ds, k))
    && (forall k, w :: 0 <= k < n && w in open[slots[k].fd].writePlan ==> w in plans[k])
  }

  lemma DeliveredStarts(slots: seq<Slot>, n: nat, open: map<int, Descriptor>)
    returns (bases: seq<string>, plans: seq<seq<WriteOutcome>>)
    requires n <= |slots| && Connected(slots, n, open)
    ensures Delivered(slots, n, open, [], bases, plans)
    ensures forall k :: 0 <= k < n ==> bases[k] == open[slots[k].fd].outgoing && plans[k] == open[slots[k].fd].writePlan
  {
    bases, plans := [], [];
    for k := 0 to n
      invariant |bases| == |plans| == k
      invariant forall j :: 0 <= j < k ==>
                  bases[j] == open[slots[j].fd].outgoing && plans[j] == open[slots[j].fd].writePlan
    {
      bases, plans := bases + [open[slots[k].fd].outgoing], plans + [open[slots[k].fd].writePlan];
    }
  }

  /** One turn, with everything that has been delivered. */
  method TakeTurn(slots: seq<Slot>, n: nat, i: nat, open: map<int, Descriptor>, ghost all: seq<Delivery>,
                  ghost ds: seq<Delivery>, ghost src: map<string, Source>, ghost turns: seq<nat>, ghost done: nat,
                  ghost fine: bool, ghost bases: seq<string>, ghost plans: seq<seq<WriteOutcome>>)
    returns (call: Served, exited: bool, ghost ds': seq<Delivery>, ghost src': map<string, Source>)
    requires Table(slots, n) && Connected(slots, n, open) && AllDeliverable(slots, all)
    requires i < n && done < |turns| && turns[done] == i
    requires Delivering(slots, all, ds, src, turns, done, fine) && Streams(slots, n, open, src)
    requires Delivered(slots, n, open, ds, bases, plans)
    modifies Clients(slots, n, open)
    ensures call.slot == i && ServesOwn(slots, n, call)
    ensures !exited ==>
              && Delivering(slots, all, ds', src', turns, done + 1, fine) && Streams(slots, n, open, src')
              && Delivered(slots, n, open, ds', bases, plans)
    ensures fine && (forall w :: w in plans[i] ==> !IsHard(w)) ==> !exited
  {
    hide Delivering, ServesOwn, Received, IsHard, AfterLine, TextOf, Streams, CanRead;
    hide Frames.LineTaken, Frames.EnoughTokens;
    ds' := DeliveringNext(slots, all, ds, src, turns, done, fine);
    ghost var pub := slots[i].sus.value;
    ghost var line := Frames.LineTaken(src[pub]);
    src' := src[pub := AfterLine(src[pub])];
    var status;
    call, status := ForwardOne(slots, n, i, open, src);
    exited := status == Frames.Exited;
    forall k | 0 <= k < n && !exited ensures open[slots[k].fd].outgoing == bases[k] + Received(slots, ds', k) {
      ReceivedMore(slots, ds, ds', i, line, k, bases[k]);
    }
  }

  /** forward_messages, watched for its first m calls of forward_message: they go round the subscribed
      slots in slot order, and every client receives exactly what is delivered to its slot. */
  method ForwardMessages(slots: seq<Slot>, n: nat, m: nat, open: map<int, Descriptor>, ghost src: map<string, Source>)
    returns (exited: bool, calls: seq<Served>)
    requires Table(slots, n) && Subscribed(slots, n) != []
    requires Connected(slots, n, open) && Streams(slots, n, open, src)
    requires CanTakeTurns(slots, src, Cycle(Subscribed(slots, n), m))
    requires AllDeliverable(slots, Deliver(slots, src, Cycle(Subscribed(slots, n), m)))
    modifies Clients(slots, n, open)
    ensures |calls| <= m && (!exited ==> |calls| == m)
    ensures Slots(calls) == Cycle(Subscribed(slots, n), |calls|)
    ensures forall call :: call in calls ==> ServesOwn(slots, n, call)
    ensures !exited ==>
              var ds := Deliver(slots, src, Cycle(Subscribed(slots, n), m));
              forall i :: 0 <= i < n ==>
                open[slots[i].fd].outgoing == old(open[slots[i].fd].outgoing) + Received(slots, ds, i)
    ensures
      && NoneFails(src)
      && (forall i, w :: 0 <= i < n && w in old(open[slots[i].fd].writePlan) ==> !IsHard(w))
      ==> !exited
  {
    hide Subscribed, Cycle, ServesOwn, Deliver, NoneFails, CanTakeTurns, Delivering, Delivered, Received, IsHard;
    hide Streams, Progress, AllDeliverable, Connected, Clients, Slots, AfterLine;
    ghost var turns := Cycle(Subscribed(slots, n), m);
    ghost var all := Deliver(slots, src, turns);
    ghost var ds, rest, rounds, fine := [], src, 0, NoneFails(src);
    ghost var bases, plans := DeliveredStarts(slots, n, open);
    exited, calls := false, [];
    ProgressStarts(slots, n);
    DeliveringStarts(slots, src, turns);
    while |calls| < m
      invariant rounds <= |calls| <= m && Progress(slots, n, rounds, 0, calls)
      invariant Delivering(slots, all, ds, rest, turns, |calls|, fine) && Streams(slots, n, open, rest)
      invariant Delivered(slots, n, open, ds, bases, plans)
      decreases m - rounds
    {
      var i := 0;
      while slots[i].sus.Some?
        invariant 0 <= i <= n && |calls| < m && Progress(slots, n, rounds, i, calls)
        invariant Delivering(slots, all, ds, rest, turns, |calls|, fine) && Streams(slots, n, open, rest)
        invariant Delivered(slots, n, open, ds, bases, plans)
        decreases n - i
      {
        if slots[i].sus.value != NONE {
          TurnOf(slots, n, rounds, i, calls, m);
          var call;
          call, exited, ds, rest := TakeTurn(slots, n, i, open, all, ds, rest, turns, |calls|, fine, bases, plans);
          ProgressServe(slots, n, rounds, i, calls, call);
          calls := calls + [call];
          ProgressCalls(slots, n, rounds, i + 1, calls);
          if exited {
            return;
          }
          if |calls| == m {
            AllDelivered(slots, n, open, all, ds, rest, turns, fine, bases, plans);
            return;
          }
        } else {
          ProgressSkip(slots, n, rounds, i, calls);
        }
        i := i + 1;
      }
      ProgressRound(slots, n, rounds, calls);
      rounds := rounds + 1;
      ProgressCalls(slots, n, rounds, 0, calls);
    }
    AllDelivered(slots, n, open, all, ds, rest, turns, fine, bases, plans);
    ProgressCalls(slots, n, rounds, 0, calls);
  }

  lemma AllDelivered(slots: seq<Slot>, n: nat, open: map<int, Descriptor>, all: seq<Delivery>, ds: seq<Delivery>,
                     src: map<string, Source>, turns: seq<nat>, fine: bool,
                     bases: seq<string>, plans: seq<seq<WriteOutcome>>)
    requires n <= |slots| && Connected(slots, n, open)
    requires Delivering(slots, all, ds, src, turns, |turns|, fine) && Delivered(slots, n, open, ds, bases, plans)
    ensures |bases| == n
    ensures forall k :: 0 <= k < n ==> open[slots[k].fd].outgoing == bases[k] + Received(slots, all, k)
  {
    hide Received;
    DeliveringEnds(slots, all, ds, src, turns, fine);
  }

  lemma ReceivedMore(slots: seq<Slot>, ds: seq<Delivery>, ds': seq<Delivery>,
                     i: nat, line: string, k: nat, base: string)
    requires i < |slots| && k < |slots|
    requires ds' == if line == "" then ds else ds + [Delivery(i, line)]
    ensures
      var sent := if line == "" || k != i then "" else TextOf(line, slots[i].topics);
      base + Received(slots, ds', k) == base + Received(slots, ds, k) + sent
  {
    hide Received, TextOf;
    var text := base + Received(slots, ds, k);
    assert text + "" == text;
    if line != "" {
      ReceivedNext(slots, ds, Delivery(i, line), k);
      var sent := if k == i then TextOf(line, slots[k].topics) else "";
      assert base + (Received(slots, ds, k) + sent) == text + sent;
    }
  }

  /** The next turn of the cycle is the subscribed slot that the scan has come to. */
  lemma TurnOf(slots: seq<Slot>, n: nat, rounds: nat, i: nat, calls: seq<Served>, m: nat)
    requires Table(slots, n) && i < n && IsSubscribed(slots[i]) && Subscribed(slots, n) != []
    requires Progress(slots, n, rounds, i, calls) && |calls| < m
    ensures Cycle(Subscribed(slots, n), m)[|calls|] == i
  {
    var subs := Subscribed(slots, n);
    SubscribedPrefix(slots, i + 1, n);
    assert Subscribed(slots, i + 1) == Subscribed(slots, i) + [i];
    hide Table;
    Remainder(rounds, |subs|, |Subscribed(slots, i)|);
  }

  lemma ProgressCalls(slots: seq<Slot>, n: nat, rounds: nat, i: nat, calls: seq<Served>)
    requires i <= n <= |slots| && Subscribed(slots, n) != [] && Progress(slots, n, rounds, i, calls)
    ensures Slots(calls) == Cycle(Subscribed(slots, n), |calls|)
    ensures forall call :: call in calls ==> ServesOwn(slots, n, call)
    ensures rounds <= |calls|
  {
    hide ServesOwn, Cycle, Subscribed;
    AtLeastOnce(rounds, |Subscribed(slots, n)|);
  }

  lemma AtLeastOnce(rounds: nat, l: nat)
    requires l > 0
    ensures rounds * l >= rounds
  {
  }
}
