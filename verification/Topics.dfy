/** Which of the six topics a subscription selects: the broker's branch tree, and the wildcard rules
    of section 4.7.1 of MQTT Version 3.1.1 that it stands for. */
module Topics {
  import opened Tokenizer

  const TOPICS_NUMBER := 6

  function TopicLevels(j: nat): seq<string>
    requires j < TOPICS_NUMBER
  {
    [["tasks", "gen"], ["tasks", "run"], ["tasks", "sleep"], ["cpu", "gen"], ["cpu", "sys"], ["mem", "gen"]][j]
  }

  function TopicName(j: nat): string
    requires j < TOPICS_NUMBER
  {
    TopicLevels(j)[0] + "/" + TopicLevels(j)[1]
  }

  /** Wildcard matching level by level: "+" stands for exactly one level, and "#" as the last level
      for any number of them, none included. */
  predicate Matches(filter: seq<string>, topic: seq<string>) {
    if filter == ["#"] then true
    else if filter == [] || topic == [] then filter == topic
    else (filter[0] == "+" || filter[0] == topic[0]) && Matches(filter[1..], topic[1..])
  }

  /** The tokens of a subscription are enough for update_sus_info, which reads the second one and,
      unless that is "#", the third. */
  predicate IsSubscription(sus: seq<string>) {
    |sus| >= 2 && (sus[1] == "#" || |sus| >= 3)
  }

  /** The topics that update_sus_info leaves alone; it writes -1 for every other one. */
  function Kept(sus: seq<string>): set<nat>
    requires IsSubscription(sus)
  {
    if sus[1] == "#" then {0, 1, 2, 3, 4, 5}
    else if sus[1] == "+" then
      if sus[2] == "gen" then {0, 3, 5} else {0, 1, 2, 3, 4, 5}
    else if sus[1] == "tasks" then
      if sus[2] == "#" then {0, 1, 2} else if sus[2] == "gen" then {0} else if sus[2] == "run" then {1} else {2}
    else if sus[1] == "cpu" then
      if sus[2] == "#" then {3, 4} else if sus[2] == "gen" then {3} else {4}
    else
      {5}
  }

  function Row(info: seq<int>, sus: seq<string>): (row: seq<int>)
    requires |info| == TOPICS_NUMBER && IsSubscription(sus)
  {
    seq(TOPICS_NUMBER, j requires 0 <= j < TOPICS_NUMBER => if j in Kept(sus) then info[j] else -1)
  }

  /** Clears every slot of information but one. */
  method KeepOnly(information: array<int>, kept: nat)
    requires information.Length == TOPICS_NUMBER
    modifies information
    ensures forall j :: 0 <= j < TOPICS_NUMBER ==>
              information[j] == if j == kept then old(information[j]) else -1
  {
    for i := 0 to 6
      invariant forall j :: 0 <= j < TOPICS_NUMBER ==>
                  information[j] == if j == kept || j >= i then old(information[j]) else -1
    {
      if i != kept {
        information[i] := -1;
      }
    }
  }

  method UpdateSusInfo(suscription: seq<string>, information: array<int>)
    requires information.Length == TOPICS_NUMBER && IsSubscription(suscription)
    modifies information
    ensures information[..] == Row(old(information[..]), suscription)
  {
    if suscription[1] == "#" {
      assert forall j: nat :: j < TOPICS_NUMBER ==> j in Kept(suscription);
    } else if suscription[1] == "+" {
      if suscription[2] == "gen" {
        information[1] := -1;
        information[2] := -1;
        information[4] := -1;
        assert forall j: nat :: j in Kept(suscription) <==> j == 0 || j == 3 || j == 5;
      } else {
        assert forall j: nat :: j < TOPICS_NUMBER ==> j in Kept(suscription);
      }
    } else if suscription[1] == "tasks" {
      if suscription[2] == "#" {
        information[3] := -1;
        information[4] := -1;
        information[5] := -1;
        assert forall j: nat :: j in Kept(suscription) <==> j < 3;
      } else if suscription[2] == "gen" {
        KeepOnly(information, 0);
        assert forall j: nat :: j in Kept(suscription) <==> j == 0;
      } else if suscription[2] == "run" {
        KeepOnly(information, 1);
        assert forall j: nat :: j in Kept(suscription) <==> j == 1;
      } else {
        KeepOnly(information, 2);
        assert forall j: nat :: j in Kept(suscription) <==> j == 2;
      }
    } else if suscription[1] == "cpu" {
      if suscription[2] == "#" {
        information[0] := -1;
        information[1] := -1;
        information[2] := -1;
        information[5] := -1;
        assert forall j: nat :: j in Kept(suscription) <==> j == 3 || j == 4;
      } else if suscription[2] == "gen" {
        KeepOnly(information, 3);
        assert forall j: nat :: j in Kept(suscription) <==> j == 3;
      } else {
        KeepOnly(information, 4);
        assert forall j: nat :: j in Kept(suscription) <==> j == 4;
      }
    } else {
      if suscription[2] == "#" {
        information[0] := -1;
        information[1] := -1;
        information[2] := -1;
        information[3] := -1;
        information[4] := -1;
        assert forall j: nat :: j in Kept(suscription) <==> j == 5;
      } else {
        KeepOnly(information, 5);
        assert forall j: nat :: j in Kept(suscription) <==> j == 5;
      }
    }
  }

  /** The filter tails (levels after the node name) on which the branch tree is right. */
  predicate Supported(tail: seq<string>) {
    if |tail| == 1 then
      tail[0] == "#"
    else
      && |tail| >= 2
      && (|tail| == 2 || (tail[2..] == ["#"] && tail[1] != "#"))
      && (tail[0], tail[1]) in {
           ("+", "#"), ("+", "+"), ("+", "gen"),
           ("tasks", "#"), ("tasks", "gen"), ("tasks", "run"), ("tasks", "sleep"),
           ("cpu", "#"), ("cpu", "gen"), ("cpu", "sys"),
           ("mem", "#"), ("mem", "+"), ("mem", "gen")}
  }

  /** The standard's answer for topic j of the node that the string's first token names. */
  predicate Accepts(sus: string, j: nat)
    requires IsSubscription(Tokens(sus, '/')) && j < TOPICS_NUMBER
  {
    Matches(Parts(sus, '/'), [Tokens(sus, '/')[0]] + TopicLevels(j))
  }

  /** For a subscription string, the mask that update_sus_info leaves of `info` enables exactly the
      topics that the standard's matcher accepts. */
  ghost predicate Agrees(sus: string, info: seq<int>)
    requires IsSubscription(Tokens(sus, '/')) && |info| == TOPICS_NUMBER
  {
    forall j: nat :: j < TOPICS_NUMBER ==> (Row(info, Tokens(sus, '/'))[j] != -1 <==> Accepts(sus, j))
  }

  lemma {:induction false} EmptyLevelNeverMatches(filter: seq<string>, topic: seq<string>)
    requires "" in filter && "" !in topic
    ensures !Matches(filter, topic)
    decreases |filter|
  {
    if filter != ["#"] && topic != [] {
      if filter[0] != "" {
        EmptyLevelNeverMatches(filter[1..], topic[1..]);
      }
    }
  }

  lemma MatchesEnd(filter: seq<string>)
    ensures Matches(filter, []) <==> filter == [] || filter == ["#"]
  {
  }

  /** A two-level topic, spelled out. */
  lemma MatchesTwo(f: seq<string>, a: string, b: string)
    requires |f| >= 2
    ensures Matches(f, [a, b]) <==>
              && (f[0] == "+" || f[0] == a)
              && (f[1..] == ["#"] || ((f[1] == "+" || f[1] == b) && (|f| == 2 || f[2..] == ["#"])))
  {
    assert [a, b][1..] == [b] && [b][1..] == [];
    assert f[1..][1..] == f[2..];
    MatchesEnd(f[2..]);
    assert Matches(f, [a, b]) == ((f[0] == "+" || f[0] == a) && Matches(f[1..], [b]));
  }

  lemma NodeLevel(tokens: seq<string>, topic: seq<string>)
    requires |tokens| >= 2
    ensures Matches(tokens, [tokens[0]] + topic) == Matches(tokens[1..], topic)
  {
  }

  lemma Names()
    ensures "tasks" != "cpu" && "tasks" != "mem" && "cpu" != "mem"
    ensures "gen" != "run" && "gen" != "sleep" && "gen" != "sys" && "run" != "sleep"
  {
  }

  ghost predicate AgreesOn(tokens: seq<string>, j: nat)
    requires IsSubscription(tokens) && j < TOPICS_NUMBER
  {
    j in Kept(tokens) <==> Matches(tokens[1..], TopicLevels(j))
  }

  /** What the standard's matcher makes of the levels below the node name. */
  lemma MatchesTopic(tail: seq<string>, j: nat)
    requires j < TOPICS_NUMBER && tail != [] && (|tail| == 1 ==> tail == ["#"])
    ensures
      Matches(tail, TopicLevels(j)) <==>
        || |tail| == 1
        || (&& (tail[0] == "+" || tail[0] == TopicLevels(j)[0])
            && (tail[1..] == ["#"] ||
                ((tail[1] == "+" || tail[1] == TopicLevels(j)[1]) && (|tail| == 2 || tail[2..] == ["#"]))))
  {
    TwoLevels(j);
    hide TopicLevels, Matches;
    var t := TopicLevels(j);
    if |tail| >= 2 {
      assert t == [t[0], t[1]];
      MatchesTwo(tail, t[0], t[1]);
    } else {
      HashMatchesAll(t);
    }
  }

  lemma TwoLevels(j: nat)
    requires j < TOPICS_NUMBER
    ensures |TopicLevels(j)| == 2
  {
  }

  lemma HashMatchesAll(topic: seq<string>)
    ensures Matches(["#"], topic)
  {
  }

  /** Tail by tail: agreement on all six topics is the same as being one of the supported forms. */
  lemma SupportedTails(tokens: seq<string>)
    requires IsSubscription(tokens)
    ensures (forall j: nat :: j < TOPICS_NUMBER ==> AgreesOn(tokens, j)) <==> Supported(tokens[1..])
  {
    Names();
    var tail := tokens[1..];
    assert tail[0] == tokens[1] && (|tail| >= 2 ==> tail[1] == tokens[2]);
    assert |tail| == 1 ==> tail == ["#"];
    hide Matches;
    forall j: nat | j < TOPICS_NUMBER {
      MatchesTopic(tail, j);
    }
    assert (forall j: nat :: j < TOPICS_NUMBER ==> AgreesOn(tokens, j)) <==>
             && AgreesOn(tokens, 0) && AgreesOn(tokens, 1) && AgreesOn(tokens, 2)
             && AgreesOn(tokens, 3) && AgreesOn(tokens, 4) && AgreesOn(tokens, 5);
    if |tail| >= 2 {
      assert tail[1..] == ["#"] <==> |tail| == 2 && tail[1] == "#";
    }
  }

  /** The filter that the branch tree takes a subscription for: a level it does not know becomes the
      last one it knows at that place, and above any level but "gen" a "+" becomes "#". */
  function TakenFor(sus: seq<string>): seq<string>
    requires IsSubscription(sus)
  {
    if sus[1] == "#" then ["#"]
    else if sus[1] == "+" then
      if sus[2] == "gen" then ["+", "gen"] else ["#"]
    else if sus[1] == "tasks" then
      ["tasks", if sus[2] in {"#", "gen", "run"} then sus[2] else "sleep"]
    else if sus[1] == "cpu" then
      ["cpu", if sus[2] in {"#", "gen"} then sus[2] else "sys"]
    else
      ["mem", if sus[2] == "#" then "#" else "gen"]
  }

  /** For every subscription, sensible or not, the tree keeps exactly the topics that the standard's
      matcher accepts for that filter. */
  lemma KeepsWhatItIsTakenFor(sus: seq<string>, j: nat)
    requires IsSubscription(sus) && j < TOPICS_NUMBER
    ensures j in Kept(sus) <==> Matches(TakenFor(sus), TopicLevels(j))
  {
    Names();
    MatchesTopic(TakenFor(sus), j);
    hide Matches;
    assert |TakenFor(sus)| == 2 ==> TakenFor(sus)[1..] == [TakenFor(sus)[1]];
  }

  /** From a mask with no -1, the subscription rule is met exactly by the strings without an empty level
      whose levels below the node name are one of the supported forms. */
  lemma AgreesExactly(sus: string, info: seq<int>)
    requires IsSubscription(Tokens(sus, '/')) && |info| == TOPICS_NUMBER && -1 !in info
    ensures Agrees(sus, info) <==> "" !in Parts(sus, '/') && Supported(Parts(sus, '/')[1..])
  {
    assert forall j: nat :: j < TOPICS_NUMBER ==>
                              (Row(info, Tokens(sus, '/'))[j] != -1 <==> j in Kept(Tokens(sus, '/')));
    var tokens, levels := Tokens(sus, '/'), Parts(sus, '/');
    TokensAreParts(sus, '/');
    NonEmptyAll(levels);
    hide Matches, Supported, Kept, Row;
    if "" in levels {
      forall j: nat | j < TOPICS_NUMBER ensures !Accepts(sus, j) {
        assert tokens[0] in tokens;
        NoEmptyLevel(j);
        EmptyLevelNeverMatches(levels, [tokens[0]] + TopicLevels(j));
      }
      KeepsSomething(tokens);
    } else {
      forall j: nat | j < TOPICS_NUMBER ensures AgreesOn(tokens, j) <==> (j in Kept(tokens) <==> Accepts(sus, j)) {
        NodeLevel(tokens, TopicLevels(j));
      }
      SupportedTails(tokens);
    }
  }

  lemma NoEmptyLevel(j: nat)
    requires j < TOPICS_NUMBER
    ensures "" !in TopicLevels(j)
  {
  }

  lemma KeepsSomething(sus: seq<string>)
    requires IsSubscription(sus)
    ensures exists j: nat :: j < TOPICS_NUMBER && j in Kept(sus)
  {
    var j :| j in Kept(sus);
    assert j < TOPICS_NUMBER;
  }

  /** Subscriptions on which the broker and the standard part: a single-level wildcard above "run",
      which the broker takes for every topic, and the misspelt "task" of the repository's README,
      which it takes for the memory topic. */
  lemma Disagreements(info: seq<int>)
    requires |info| == TOPICS_NUMBER && -1 !in info
    ensures
      var s := Join(["n", "+", "run"], '/');
      IsSubscription(Tokens(s, '/')) && !Agrees(s, info)
    ensures
      var s := Join(["n", "task", "#"], '/');
      IsSubscription(Tokens(s, '/')) && !Agrees(s, info)
  {
    Names();
    Unsupported("+", "run", info);
    Unsupported("task", "#", info);
  }

  lemma Unsupported(mid: string, last: string, info: seq<int>)
    requires |info| == TOPICS_NUMBER && -1 !in info
    requires "" != mid && '/' !in mid && "" != last && '/' !in last && mid != "#"
    requires !Supported([mid, last])
    ensures
      var s := Join(["n", mid, last], '/');
      IsSubscription(Tokens(s, '/')) && !Agrees(s, info)
  {
    hide Supported, Agrees, Join, Tokens, Parts;
    var ps := ["n", mid, last];
    TokensOfJoin(ps, '/');
    NonEmptyAll(ps);
    PartsAreUnique(ps, '/');
    AgreesExactly(Join(ps, '/'), info);
    assert ps[1..] == [mid, last];
  }
}
