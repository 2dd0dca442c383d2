/** From a subscriber's filter and a publisher's fields to the lines the subscriber reads. */
module Subscriptions {
  import opened Kernel
  import opened RioSpec
  import opened CStrings
  import opened Tokenizer
  import opened Topics
  import opened Frames

  /** One line for each topic from j on that the wildcard rules accept: its name and its field. */
  function AcceptedFrom(fields: seq<string>, sus: string, j: nat): seq<string>
    requires CleanFields(fields) && IsSubscription(Tokens(sus, '/')) && j <= FIELDS
    decreases FIELDS - j
  {
    if j == FIELDS then [] else
    (if Accepts(sus, j) then [TopicName(j) + ": " + Shown(fields, j) + "\n"] else []) + AcceptedFrom(fields, sus, j + 1)
  }

  lemma {:induction false} MaskedIsAccepted(fields: seq<string>, sus: string, info: seq<int>, j: nat)
    requires CleanFields(fields) && IsSubscription(Tokens(sus, '/')) && j <= FIELDS
    requires |info| == TOPICS_NUMBER && Agrees(sus, info)
    ensures ExpectedFrom(fields, Row(info, Tokens(sus, '/')), j) == AcceptedFrom(fields, sus, j)
    decreases FIELDS - j
  {
    RowLength(info, Tokens(sus, '/'));
    hide Accepts, Row, Tokens, CleanFields, Shown, TopicName;
    if j < FIELDS {
      MaskedIsAccepted(fields, sus, info, j + 1);
      assert Row(info, Tokens(sus, '/'))[j] != -1 <==> Accepts(sus, j);
    }
  }

  /** Registration, publication and forwarding together: for every supported filter and all clean fields,
      under all ways of the kernel to cut the streams, the subscriber reads exactly one line for each
      topic that the wildcard rules accept, in topic order, with the topic's name and its field. */
  lemma FilterToLines(sus: string, info: seq<int>, fields: seq<string>, more: string,
                      brokerPlan: seq<ReadOutcome>, subscriberPlan: seq<ReadOutcome>)
    requires IsSubscription(Tokens(sus, '/')) && |info| == TOPICS_NUMBER && -1 !in info
    requires "" !in Parts(sus, '/') && Supported(Parts(sus, '/')[1..])
    requires CleanFields(fields) && |Frame(fields)| < MAXLINE
    requires forall t :: t in AcceptedFrom(fields, sus, 0) ==> |t| < MAXLINE
    requires ReadFailed !in brokerPlan && ReadFailed !in subscriberPlan
    ensures
      var row := Row(info, Tokens(sus, '/'));
      var frame := Frame(fields);
      && ReadLine(Reader("", Source(frame + more, brokerPlan)), MAXLINE - 1).0 == Reply(true, frame)
      && EnoughTokens(Tokens(CStr(frame), ','), row)
      && var lines := AcceptedFrom(fields, sus, 0);
         var subscriber := Reader("", Source(Forwarded(frame, row), subscriberPlan));
         var replies := Answers(subscriber, LineCalls(|lines|, MAXLINE - 1)).0;
         AllOk(replies) && Stored(replies) == lines
  {
    AgreesExactly(sus, info);
    hide Tokens, Parts, Supported, CleanFields, Agrees, Row, ExpectedFrom, AcceptedFrom, Frame;
    hide ReadLine, Answers, LineCalls, Forwarded, EnoughTokens, AllOk, Stored;
    MaskedIsAccepted(fields, sus, info, 0);
    RowLength(info, Tokens(sus, '/'));
    EndToEnd(fields, Row(info, Tokens(sus, '/')), more, brokerPlan, subscriberPlan);
  }

  lemma RowLength(info: seq<int>, sus: seq<string>)
    requires |info| == TOPICS_NUMBER && IsSubscription(sus)
    ensures |Row(info, sus)| == TOPICS_NUMBER
  {
  }

  /** The lines for a filter, as the mask makes them. */
  function LinesFor(sus: string, info: seq<int>, fields: seq<string>): seq<string>
    requires CleanFields(fields) && IsSubscription(Tokens(sus, '/')) && |info| == TOPICS_NUMBER
  {
    ExpectedFrom(fields, Row(info, Tokens(sus, '/')), 0)
  }

  /** Subscribing to this topic of a node brings one line: the topic's name and this text. */
  ghost predicate Brings(node: string, topic: string, info: seq<int>, fields: seq<string>, text: string)
    requires CleanFields(fields) && |info| == TOPICS_NUMBER
  {
    && IsSubscription(Tokens(node + "/" + topic, '/'))
    && LinesFor(node + "/" + topic, info, fields) == [topic + ": " + text + "\n"]
  }

  lemma SingleTopic(node: string, info: seq<int>, fields: seq<string>, j: nat)
    requires node != "" && '/' !in node
    requires |info| == TOPICS_NUMBER && -1 !in info && CleanFields(fields) && j < FIELDS
    ensures Brings(node, TopicName(j), info, fields, Shown(fields, j))
  {
    var levels := [node] + TopicLevels(j);
    LevelsOf(node, j);
    KeptAlone(levels, j);
    hide Tokens, Kept, TopicLevels, Shown, CleanFields, TopicName;
    assert forall i: nat :: i < FIELDS ==> (Row(info, levels)[i] != -1 <==> i == j);
    LinesAlone(fields, Row(info, levels), j, 0);
  }

  lemma LevelsOf(node: string, j: nat)
    requires node != "" && '/' !in node && j < FIELDS
    ensures Tokens(node + "/" + TopicName(j), '/') == [node] + TopicLevels(j)
    ensures IsSubscription([node] + TopicLevels(j))
  {
    var t := TopicLevels(j);
    PlainLevels(j);
    hide Tokens, TopicLevels;
    assert [node] + t == [node, t[0], t[1]];
    JoinThree(node, t[0], t[1]);
    SplitUndoesJoin([node, t[0], t[1]], '/');
  }

  lemma JoinThree(a: string, b: string, c: string)
    ensures Join([a, b, c], '/') == a + "/" + (b + "/" + c)
  {
    JoinAppend([a], b, '/');
    JoinAppend([a, b], c, '/');
    assert Join([a], '/') == a;
    hide Join;
    assert [a] + [b] == [a, b] && [a, b] + [c] == [a, b, c];
    assert a + "/" + b + "/" + c == a + "/" + (b + "/" + c);
  }

  lemma PlainLevels(j: nat)
    requires j < FIELDS
    ensures |TopicLevels(j)| == 2
    ensures forall t :: t in TopicLevels(j) ==> t != "" && '/' !in t
    ensures TopicLevels(j)[0] != "#"
  {
  }

  lemma KeptAlone(sus: seq<string>, j: nat)
    requires j < FIELDS && IsSubscription(sus) && |sus| == 3 && sus[1..] == TopicLevels(j)
    ensures Kept(sus) == {j}
  {
    Names();
    assert sus[1] == TopicLevels(j)[0] && sus[2] == TopicLevels(j)[1];
  }

  lemma {:induction false} LinesAlone(fields: seq<string>, row: seq<int>, j: nat, i: nat)
    requires CleanFields(fields) && |row| == FIELDS && j < FIELDS && i <= FIELDS
    requires forall k: nat :: k < FIELDS ==> (row[k] != -1 <==> k == j)
    ensures ExpectedFrom(fields, row, i) == if i <= j then [TopicName(j) + ": " + Shown(fields, j) + "\n"] else []
    decreases FIELDS - i
  {
    hide CleanFields, Shown, TopicName;
    if i < FIELDS {
      LinesAlone(fields, row, j, i + 1);
    }
  }

  /** The six topics by name: each brings the measurement that the publisher joined in its place. */
  lemma SixTopics(node: string, info: seq<int>, tasksGen: string, tasksRun: string, tasksSleep: string,
                  cpuGen: string, cpuSys: string, memory: string)
    requires node != "" && '/' !in node && |info| == TOPICS_NUMBER && -1 !in info
    requires CleanFields([tasksGen, tasksRun, tasksSleep, cpuGen, cpuSys, memory])
    ensures
      var fields := [tasksGen, tasksRun, tasksSleep, cpuGen, cpuSys, memory];
      && Brings(node, "tasks/gen", info, fields, tasksGen)
      && Brings(node, "tasks/run", info, fields, tasksRun)
      && Brings(node, "tasks/sleep", info, fields, tasksSleep)
      && Brings(node, "cpu/gen", info, fields, cpuGen)
      && Brings(node, "cpu/sys", info, fields, cpuSys)
      && memory != "" && Brings(node, "mem/gen", info, fields, memory[..|memory| - 1])
  {
    var fields := [tasksGen, tasksRun, tasksSleep, cpuGen, cpuSys, memory];
    assert fields[5] == memory && memory in fields;
    TopicNames();
    hide TopicName, Brings;
    SingleTopic(node, info, fields, 0);
    SingleTopic(node, info, fields, 1);
    SingleTopic(node, info, fields, 2);
    SingleTopic(node, info, fields, 3);
    SingleTopic(node, info, fields, 4);
    SingleTopic(node, info, fields, 5);
  }

  lemma TopicNames()
    ensures TopicName(0) == "tasks/gen" && TopicName(1) == "tasks/run" && TopicName(2) == "tasks/sleep"
    ensures TopicName(3) == "cpu/gen" && TopicName(4) == "cpu/sys" && TopicName(5) == "mem/gen"
  {
  }
}
