/** A publisher's frame on its way to a subscriber: six fields joined with commas, cut apart by the
    broker, and passed on as one labelled line per selected topic. */
module Frames {
  import opened Kernel
  import opened Lines
  import opened CStrings
  import opened RioSpec
  import opened Tokenizer
  import opened Topics
  import Rio

  const MAXLINE := 8192
  const FIELDS := 6

  const LABELS: seq<string> :=
    ["tasks/gen: ", "tasks/run: ", "tasks/sleep: ", "cpu/gen: ", "cpu/sys: ", "mem/gen: "]

  function CommasToPeriods(s: string): (r: string)
    ensures |r| == |s| && ',' !in r
    ensures forall i :: 0 <= i < |s| ==> r[i] == if s[i] == ',' then '.' else s[i]
  {
    seq(|s|, i requires 0 <= i < |s| => if s[i] == ',' then '.' else s[i])
  }

  /** The buffer with the commas among its first n characters changed. */
  function Changed(s: string, n: nat): (r: string)
    ensures |r| == |s|
  {
    seq(|s|, i requires 0 <= i < |s| => if i < n && s[i] == ',' then '.' else s[i])
  }

  method ChangeCommaForPeriod(str: array<char>)
    requires NUL in str[..]
    modifies str
    ensures str[..] == Changed(old(str[..]), |CStr(old(str[..]))|)
    ensures CStr(str[..]) == CommasToPeriods(CStr(old(str[..])))
  {
    hide CStr, CommasToPeriods, Changed;
    ghost var was := str[..];
    ghost var n := |CStr(was)|;
    ChangedNothing(was);
    var i: nat := 0;
    while i < |CStr(str[..])|
      invariant i <= n == |CStr(str[..])| && str[..] == Changed(was, i)
      decreases n - i
    {
      ChangedNext(was, i);
      if str[i] == ',' {
        str[i] := '.';
      }
      i := i + 1;
      ChangedText(was, i);
    }
    ChangedText(was, n);
  }

  lemma ChangedNothing(s: string)
    ensures Changed(s, 0) == s
  {
  }

  lemma ChangedNext(s: string, i: nat)
    requires i < |s|
    ensures Changed(s, i + 1) == if Changed(s, i)[i] == ',' then Changed(s, i)[i := '.'] else Changed(s, i)
  {
  }

  /** Changing commas does not move the terminator. */
  lemma ChangedText(s: string, i: nat)
    requires NUL in s && i <= |CStr(s)|
    ensures |CStr(Changed(s, i))| == |CStr(s)|
    ensures i == |CStr(s)| ==> CStr(Changed(s, i)) == CommasToPeriods(CStr(s))
  {
    CStrEnd(s);
    var n, now := |CStr(s)|, Changed(s, i);
    assert now[n] == NUL;
    assert NUL !in now[..n] by {
      forall k | 0 <= k < n ensures now[k] != NUL {
        assert CStr(s)[k] != NUL;
      }
    }
    CStrAt(now, n);
  }

  /** The fields joined with commas, the last character overwritten by the newline. */
  function Frame(fields: seq<string>): (frame: string)
    requires |fields| == FIELDS
    ensures frame != "" && frame[|frame| - 1] == '\n'
  {
    var joined := Join(fields, ',');
    assert joined == fields[0] + [','] + Join(fields[1..], ',');
    joined[..|joined| - 1] + "\n"
  }

  class Publisher {
    var fullInfo: string

    constructor () {
      fullInfo := "";
    }

    method JoinFullInfo(tasksGen: string, tasksRun: string, tasksSleep: string,
                        cpuGen: string, cpuSys: array<char>, memory: string)
      requires NUL in cpuSys[..]
      modifies this, cpuSys
      ensures fullInfo == Frame([tasksGen, tasksRun, tasksSleep, cpuGen,
                                  CommasToPeriods(CStr(old(cpuSys[..]))), memory])
    {
      hide Join, CStr;
      fullInfo := "";
      ChangeCommaForPeriod(cpuSys);
      var sys := CStr(cpuSys[..]);
      fullInfo := fullInfo + tasksGen;
      fullInfo := fullInfo + ",";
      fullInfo := fullInfo + tasksRun;
      fullInfo := fullInfo + ",";
      fullInfo := fullInfo + tasksSleep;
      fullInfo := fullInfo + ",";
      fullInfo := fullInfo + cpuGen;
      fullInfo := fullInfo + ",";
      fullInfo := fullInfo + sys;
      fullInfo := fullInfo + ",";
      fullInfo := fullInfo + memory;
      JoinSix(tasksGen, tasksRun, tasksSleep, cpuGen, sys, memory);
      fullInfo := fullInfo[|fullInfo| - 1 := '\n'];
    }
  }

  lemma JoinSix(a: string, b: string, c: string, d: string, e: string, f: string)
    ensures Join([a, b, c, d, e, f], ',') == "" + a + "," + b + "," + c + "," + d + "," + e + "," + f
  {
    JoinAppend([a], b, ',');
    JoinAppend([a, b], c, ',');
    JoinAppend([a, b, c], d, ',');
    JoinAppend([a, b, c, d], e, ',');
    JoinAppend([a, b, c, d, e], f, ',');
    assert Join([a], ',') == "" + a;
    hide Join;
    assert [a] + [b] == [a, b] && [a, b] + [c] == [a, b, c] && [a, b, c] + [d] == [a, b, c, d];
    assert [a, b, c, d] + [e] == [a, b, c, d, e] && [a, b, c, d, e] + [f] == [a, b, c, d, e, f];
  }

  /** The line sent for topic j. The memory field brings its own newline, from the end of the frame. */
  function LabelLine(j: nat, token: string): string
    requires j < FIELDS
  {
    LABELS[j] + token + if j < 5 then "\n" else ""
  }

  /** Every selected topic has a token to send; otherwise forward_message reads an unset pointer. */
  predicate EnoughTokens(tokens: seq<string>, topic: seq<int>) {
    |topic| == FIELDS && forall j :: 0 <= j < FIELDS && topic[j] != -1 ==> j < |tokens|
  }

  /** The lines sent for the topics from j on. */
  function LinesFrom(tokens: seq<string>, topic: seq<int>, j: nat): seq<string>
    requires EnoughTokens(tokens, topic) && j <= FIELDS
    decreases FIELDS - j
  {
    if j == FIELDS then [] else
    (if topic[j] != -1 then [LabelLine(j, tokens[j])] else []) + LinesFrom(tokens, topic, j + 1)
  }

  /** What one frame turns into on the subscriber's side. */
  function Forwarded(line: string, topic: seq<int>): string
    requires EnoughTokens(Tokens(CStr(line), ','), topic)
  {
    Concat(LinesFrom(Tokens(CStr(line), ','), topic, 0))
  }

  datatype Status = Sent | NoMessage | Exited

  /** What was sent and the lines still to send make up the whole text. */
  ghost predicate Sending(text: string, sent: string, tokens: seq<string>, topic: seq<int>, j: nat)
    requires EnoughTokens(tokens, topic) && j <= FIELDS
  {
    sent + Concat(LinesFrom(tokens, topic, j)) == text
  }

  lemma SendingStarts(tokens: seq<string>, topic: seq<int>)
    requires EnoughTokens(tokens, topic)
    ensures Sending(Concat(LinesFrom(tokens, topic, 0)), "", tokens, topic, 0)
  {
  }

  lemma LinesFromStep(tokens: seq<string>, topic: seq<int>, j: nat)
    requires EnoughTokens(tokens, topic) && j < FIELDS
    ensures
      var rest := LinesFrom(tokens, topic, j + 1);
      LinesFrom(tokens, topic, j) == if topic[j] != -1 then [LabelLine(j, tokens[j])] + rest else rest
  {
  }

  lemma SendingNext(text: string, sent: string, tokens: seq<string>, topic: seq<int>, j: nat)
    requires EnoughTokens(tokens, topic) && j < FIELDS && Sending(text, sent, tokens, topic, j)
    ensures topic[j] == -1 ==> Sending(text, sent, tokens, topic, j + 1)
    ensures topic[j] != -1 ==>
              var line := LabelLine(j, tokens[j]);
              sent + line <= text && Sending(text, sent + line, tokens, topic, j + 1)
  {
    LinesFromStep(tokens, topic, j);
    hide LabelLine, Concat, LinesFrom;
    var rest := LinesFrom(tokens, topic, j + 1);
    if topic[j] != -1 {
      var line := LabelLine(j, tokens[j]);
      ConcatCons(line, rest);
      hide *;
      OneMoreSent(text, sent, line, Concat(rest));
    }
  }

  lemma OneMoreSent(text: string, sent: string, line: string, rest: string)
    requires sent + (line + rest) == text
    ensures sent + line + rest == text && sent + line <= text
  {
    assert sent + (line + rest) == sent + line + rest;
  }

  lemma SendingEnds(text: string, sent: string, tokens: seq<string>, topic: seq<int>)
    requires EnoughTokens(tokens, topic) && Sending(text, sent, tokens, topic, FIELDS)
    ensures sent == text
  {
  }

  /** Split the line held in buf and send one labelled line per selected topic. */
  method SendTokens(sus: Descriptor, buf: array<char>, ghost line: string, topic: seq<int>) returns (ok: bool)
    requires NUL in buf[..] && CStr(buf[..]) == CStr(line)
    requires EnoughTokens(Tokens(CStr(line), ','), topic)
    modifies sus`outgoing, sus`writePlan, buf
    ensures ok ==> sus.outgoing == old(sus.outgoing) + Forwarded(line, topic)
    ensures Partly(old(sus.outgoing), Forwarded(line, topic), sus.outgoing)
    ensures (forall w :: w in old(sus.writePlan) ==> !IsHard(w)) ==> ok
    ensures forall w :: w in sus.writePlan ==> w in old(sus.writePlan)
  {
    hide Tokens, CStr, IsHard, Partly, Sending, WriteN, LinesFrom, LabelLine, Concat;
    ghost var base, text, sent := sus.outgoing, Forwarded(line, topic), "";
    ghost var tokens := Tokens(CStr(line), ',');
    SendingStarts(tokens, topic);
    NothingSent(base, text);
    var pubAvailableInfo := Split(buf, ',');
    for j := 0 to 6
      invariant forall i :: 0 <= i < |tokens| ==>
                  pubAvailableInfo[i] < buf.Length && CStr(buf[pubAvailableInfo[i]..]) == tokens[i]
      invariant sus.outgoing == base + sent && Partly(base, text, sus.outgoing)
      invariant Sending(text, sent, tokens, topic, j)
      invariant forall w :: w in sus.writePlan ==> w in old(sus.writePlan)
    {
      SendingNext(text, sent, tokens, topic, j);
      if topic[j] != -1 {
        // The newline that the source stores behind the terminator is not part of the string.
        var message := LABELS[j] + CStr(buf[pubAvailableInfo[j]..]);
        if j < 5 {
          message := message + "\n";
        }
        assert message == LabelLine(j, tokens[j]) by { LabelLineIs(j, tokens[j]); }
        var out := Buffer(message);
        assert out[..|message|] == message;
        WriteNLaw(sus.writePlan, message);
        PartlySent(base, sent, message, WriteN(sus.writePlan, message).0.bytes, text);
        var count := Rio.WriteNBytes(sus, out, |message|);
        if count != |message| {
          return false;
        }
        sent := sent + message;
      }
    }
    SendingEnds(text, sent, tokens, topic);
    return true;
  }

  lemma LabelLineIs(j: nat, token: string)
    requires j < FIELDS
    ensures LabelLine(j, token) == if j < 5 then LABELS[j] + token + "\n" else LABELS[j] + token
  {
  }

  /** What one call takes from this publisher; nothing if its read fails. */
  function LineTaken(k: Source): (line: string)
    ensures ReadLine(Reader("", k), MAXLINE - 1).0.ok ==> line == FirstLine(k.incoming, MAXLINE - 1)
  {
    ReadLineLaw(Reader("", k), MAXLINE - 1);
    assert Reader("", k).Rest() == k.incoming;
    var got := ReadLine(Reader("", k), MAXLINE - 1).0;
    if got.ok then got.bytes else ""
  }

  method ForwardMessage(pub: Descriptor, sus: Descriptor, topic: seq<int>) returns (status: Status)
    requires LineTaken(pub.Input()) != "" ==> EnoughTokens(Tokens(CStr(LineTaken(pub.Input())), ','), topic)
    modifies pub`incoming, pub`readPlan, sus`outgoing, sus`writePlan
    ensures pub.Input() == ReadLine(Reader("", old(pub.Input())), MAXLINE - 1).1.source
    ensures
      var line := LineTaken(old(pub.Input()));
      var text := if line == "" then "" else Forwarded(line, topic);
      match status
      case Sent => line != "" && sus.outgoing == old(sus.outgoing) + text
      case NoMessage => line == "" && sus.outgoing == old(sus.outgoing)
      case Exited => Partly(old(sus.outgoing), text, sus.outgoing)
    ensures status != Exited ==> ReadLine(Reader("", old(pub.Input())), MAXLINE - 1).0.ok
    ensures
      && ReadLine(Reader("", old(pub.Input())), MAXLINE - 1).0.ok
      && (forall w :: w in old(sus.writePlan) ==> !IsHard(w))
      ==> status != Exited
    ensures forall w :: w in sus.writePlan ==> w in old(sus.writePlan)
  {
    hide FirstLine, ReadLine, Tokens, CStr, NeverFails, IsHard, Partly, Forwarded, Rio.RioT.Valid, Rio.RioT.View;
    ghost var line := LineTaken(pub.Input());
    ghost var text := if line == "" then "" else Forwarded(line, topic);
    ReadLineLaw(Reader("", pub.Input()), MAXLINE - 1);
    var buf := new char[MAXLINE];
    var rioSrc := new Rio.RioT.ReadInitB(pub);
    var n := rioSrc.NextLine(buf, MAXLINE);
    assert pub.Input() == rioSrc.View().source;
    if n < 0 {
      NothingSent(sus.outgoing, text);
      return Exited;
    }
    if n == 0 {
      return NoMessage;
    }
    CStrStopsAt(buf[..], n);
    assert buf[..][..n] == line;
    var ok := SendTokens(sus, buf, line, topic);
    return if ok then Sent else Exited;
  }

  /** Field strings as the publisher takes them from top's output. */
  predicate CleanFields(fields: seq<string>) {
    && |fields| == FIELDS
    && forall f :: f in fields ==> f != "" && ',' !in f && '\n' !in f && NUL !in f
  }

  /** What the subscriber should see of field j: the memory field has lost its last character. */
  function Shown(fields: seq<string>, j: nat): string
    requires CleanFields(fields) && j < FIELDS
  {
    assert fields[j] in fields;
    if j < 5 then fields[j] else fields[j][..|fields[j]| - 1]
  }

  /** The label of a topic is its name, level by level. */
  lemma LabelIsTopic(j: nat)
    requires j < FIELDS
    ensures LABELS[j] == TopicName(j) + ": "
  {
  }

  /** One line per selected topic from j on, in topic order, each the topic's name and its field. */
  function ExpectedFrom(fields: seq<string>, topic: seq<int>, j: nat): seq<string>
    requires CleanFields(fields) && |topic| == FIELDS && j <= FIELDS
    decreases FIELDS - j
  {
    if j == FIELDS then [] else
    (if topic[j] != -1 then [TopicName(j) + ": " + Shown(fields, j) + "\n"] else [])
    + ExpectedFrom(fields, topic, j + 1)
  }

  /** Cutting a frame gives back its fields, the last with the newline in place of its last character. */
  lemma FrameTokens(fields: seq<string>)
    requires CleanFields(fields)
    ensures
      var frame := Frame(fields);
      && IsTextLine(frame) && CStr(frame) == frame
      && Tokens(frame, ',') == fields[..5] + [Shown(fields, 5) + "\n"]
  {
    hide Join, Tokens, CStr, NonEmpty;
    var front, memory := fields[..5], fields[5];
    var shown := Shown(fields, 5);
    var parts := front + [shown + "\n"];
    assert fields == front + [memory] && memory in fields;
    assert shown == memory[..|memory| - 1];
    FrameOfParts(fields, front, memory);
    forall p | p in parts ensures p != "" && ',' !in p && NUL !in p {
      if p in front {
        assert p in fields;
      } else {
        assert p == shown + "\n";
        assert forall c :: c in shown ==> c in memory;
      }
    }
    TokensOfJoin(parts, ',');
    NonEmptyAll(parts);
    JoinAvoids(parts, ',', NUL);
    JoinAvoids(fields, ',', '\n');
  }

  lemma FrameOfParts(fields: seq<string>, front: seq<string>, memory: string)
    requires |front| == 5 && fields == front + [memory] && memory != ""
    ensures Frame(fields) == Join(front + [memory[..|memory| - 1] + "\n"], ',')
    ensures Frame(fields)[..|Frame(fields)| - 1] <= Join(fields, ',')
  {
    JoinAppend(front, memory, ',');
    JoinAppend(front, memory[..|memory| - 1] + "\n", ',');
    hide Join;
    var head := Join(front, ',') + [','];
    assert (head + memory)[..|head + memory| - 1] == head + memory[..|memory| - 1];
    assert head + (memory[..|memory| - 1] + "\n") == head + memory[..|memory| - 1] + "\n";
  }

  lemma {:induction false} ExpectedLines(fields: seq<string>, topic: seq<int>, j: nat)
    requires CleanFields(fields) && |topic| == FIELDS && j <= FIELDS
    ensures
      var tokens := fields[..5] + [Shown(fields, 5) + "\n"];
      && EnoughTokens(tokens, topic)
      && LinesFrom(tokens, topic, j) == ExpectedFrom(fields, topic, j)
    ensures forall t :: t in ExpectedFrom(fields, topic, j) ==> IsTextLine(t)
    decreases FIELDS - j
  {
    var tokens := fields[..5] + [Shown(fields, 5) + "\n"];
    if j < FIELDS {
      ExpectedLines(fields, topic, j + 1);
      if topic[j] != -1 {
        assert fields[j] in fields;
        LabelLineIs(j, tokens[j]);
        LabelIsTopic(j);
        var t := LABELS[j] + Shown(fields, j) + "\n";
        assert LabelLine(j, tokens[j]) == t;
        assert t[..|t| - 1] == LABELS[j] + Shown(fields, j);
        LabelHasNoNewline(j);
        assert forall c :: c in Shown(fields, j) ==> c in fields[j];
      }
    }
  }

  lemma LabelHasNoNewline(j: nat)
    requires j < FIELDS
    ensures '\n' !in LABELS[j]
  {
  }

  /** From the publisher's fields to the subscriber's lines: under every way the kernel may cut the
      two streams, the broker reads back the very frame, and the subscriber reads one line per
      selected topic, in topic order, each the topic's name and its field. */
  lemma EndToEnd(fields: seq<string>, topic: seq<int>, more: string,
                 brokerPlan: seq<ReadOutcome>, subscriberPlan: seq<ReadOutcome>)
    requires CleanFields(fields) && |topic| == FIELDS
    requires |Frame(fields)| < MAXLINE
    requires forall t :: t in ExpectedFrom(fields, topic, 0) ==> |t| < MAXLINE
    requires ReadFailed !in brokerPlan && ReadFailed !in subscriberPlan
    ensures
      var frame := Frame(fields);
      && ReadLine(Reader("", Source(frame + more, brokerPlan)), MAXLINE - 1).0 == Reply(true, frame)
      && EnoughTokens(Tokens(CStr(frame), ','), topic)
      && var lines := ExpectedFrom(fields, topic, 0);
         var subscriber := Reader("", Source(Forwarded(frame, topic), subscriberPlan));
         var replies := Answers(subscriber, LineCalls(|lines|, MAXLINE - 1)).0;
         AllOk(replies) && Stored(replies) == lines
  {
    hide Frame, FirstLine, ReadLine, Tokens, CStr, LinesFrom, ExpectedFrom;
    hide Pieces, Answers, LineCalls, Concat, IsTextLine;
    var frame := Frame(fields);
    FrameTokens(fields);
    FirstLineOfText(frame, more, MAXLINE - 1);
    var broker := Reader("", Source(frame + more, brokerPlan));
    assert broker.Rest() == frame + more;
    ReadLineLaw(broker, MAXLINE - 1);
    ExpectedLines(fields, topic, 0);
    var lines := ExpectedFrom(fields, topic, 0);
    PiecesOfText(lines, MAXLINE - 1);
    var subscriber := Reader("", Source(Forwarded(frame, topic), subscriberPlan));
    assert subscriber.Rest() == Forwarded(frame, topic) == Concat(lines);
    ReaderReadsPieces(subscriber, MAXLINE - 1);
  }
}
