/** forward_message called again and again on one publisher. Each call declares a new rio_t, so what
    the previous one had read ahead is gone. */
module Forwarding {
  import opened Kernel
  import opened Lines
  import opened RioSpec
  import opened Arrivals
  import opened CStrings
  import opened Tokenizer
  import Frames

  const LIMIT := 8191   // MAXLINE less the terminator

  /** The lines that n calls take from the publisher's stream. The process ends at a failed read. */
  function Consumed(k: Source, n: nat): seq<string>
    decreases n
  {
    if n == 0 then [] else
    var (got, r) := ReadLine(Reader("", k), LIMIT);
    if !got.ok then []
    else if got.bytes == "" then Consumed(r.source, n - 1)
    else [got.bytes] + Consumed(r.source, n - 1)
  }

  /** a is s with some elements left out. */
  predicate IsSub<T(==)>(a: seq<T>, s: seq<T>) {
    if a == [] then true
    else if s == [] then false
    else (a[0] == s[0] && IsSub(a[1..], s[1..])) || IsSub(a, s[1..])
  }

  lemma {:induction false} IsSubSkip<T>(skipped: seq<T>, a: seq<T>, s: seq<T>)
    requires IsSub(a, s)
    ensures IsSub(a, skipped + s)
    decreases |skipped|
  {
    if skipped == [] {
      assert skipped + s == s;
    } else {
      IsSubSkip(skipped[1..], a, s);
      assert (skipped + s)[1..] == skipped[1..] + s;
    }
  }

  lemma {:induction false} IsSubKeep<T>(kept: seq<T>, a: seq<T>, s: seq<T>)
    requires IsSub(a, s)
    ensures IsSub(kept + a, kept + s)
    decreases |kept|
  {
    if kept == [] {
      assert kept + a == a && kept + s == s;
    } else {
      IsSubKeep(kept[1..], a, s);
      assert (kept + a)[1..] == kept[1..] + a && (kept + s)[1..] == kept[1..] + s;
    }
  }

  lemma ConsumedStep(k: Source, n: nat)
    requires n > 0
    ensures
      var (got, r) := ReadLine(Reader("", k), LIMIT);
      var more := Consumed(r.source, n - 1);
      Consumed(k, n) == if !got.ok then [] else if got.bytes == "" then more else [got.bytes] + more
  {
  }

  lemma TakeAndLose(line: string, lost: string, more: string, next: string)
    requires IsSub(more, next)
    ensures IsSub(line + more, line + (lost + next))
  {
    IsSubSkip(lost, more, next);
    IsSubKeep(line, more, lost + next);
  }

  lemma OneTaken(k: Source)
    ensures
      var (got, r) := ReadLine(Reader("", k), LIMIT);
      k.incoming == got.bytes + (r.unread + r.source.incoming)
  {
    hide ReadLine;
    ReadLineLaw(Reader("", k), LIMIT);
  }

  /** Whatever the reads do, the lines taken are a subsequence of what the publisher sent: bytes may
      be lost, but never invented, repeated or reordered. */
  lemma {:induction false} NothingInvented(k: Source, n: nat)
    ensures IsSub(Concat(Consumed(k, n)), k.incoming)
    decreases n
  {
    hide Consumed, ReadLine, IsSub, Concat;
    IsSubNothing(k.incoming);
    ConcatNil();
    if n == 0 {
      ConsumedNone(k);
    } else {
      var (got, r) := ReadLine(Reader("", k), LIMIT);
      OneTaken(k);
      NothingInvented(r.source, n - 1);
      ConsumedStep(k, n);
      var more := Consumed(r.source, n - 1);
      TakeAndLose(got.bytes, r.unread, Concat(more), r.source.incoming);
      ConcatCons(got.bytes, more);
      assert "" + Concat(more) == Concat(more);
    }
  }

  lemma ConcatNil()
    ensures Concat([]) == ""
  {
  }

  lemma IsSubNothing<T>(s: seq<T>)
    ensures IsSub([], s)
  {
  }

  /** What n calls take, told by the reads alone: each takes the first line of what the reads still to
      come bring, and every read it used up is gone, with all that it brought behind that line. A hard
      error (broken) ends the process unless the line is complete before it. */
  function Taken(cs: seq<string>, broken: bool, n: nat): seq<string>
    decreases n
  {
    if n == 0 || cs == [] then [] else
    var line := FirstLine(Concat(cs), LIMIT);
    if broken && !Complete(line, LIMIT) then [] else [line] + Taken(cs[Used(cs, LIMIT)..], broken, n - 1)
  }

  lemma ConsumedNone(k: Source)
    ensures Consumed(k, 0) == []
  {
  }

  lemma TakenStep(cs: seq<string>, broken: bool, n: nat)
    requires n > 0 && cs != []
    ensures
      var line := FirstLine(Concat(cs), LIMIT);
      Taken(cs, broken, n) ==
        if broken && !Complete(line, LIMIT) then [] else [line] + Taken(cs[Used(cs, LIMIT)..], broken, n - 1)
  {
  }

  lemma FirstLineEmpty(s: string)
    ensures FirstLine(s, LIMIT) == "" <==> s == ""
  {
  }

  /** Under every schedule: short reads, interrupts, hard errors, lines in pieces and lines in groups. */
  lemma {:induction false} ConsumedIsTaken(k: Source, n: nat)
    ensures Consumed(k, n) == Taken(Chunks(k, RIO_BUFSIZE), Broken(k, RIO_BUFSIZE), n)
    decreases n
  {
    hide Consumed, Taken, Chunks, Broken, ReadLine, FirstLine, Complete, Used;
    var cs, broken := Chunks(k, RIO_BUFSIZE), Broken(k, RIO_BUFSIZE);
    TakenNothing(broken, n);
    if n == 0 {
      ConsumedNone(k);
      TakenNone(cs, broken);
    } else {
      var r := ReadLine(Reader("", k), LIMIT).1;
      LineFromChunks(k, LIMIT);
      ConsumedStep(k, n);
      NoBytesNoChunks(cs);
      FirstLineEmpty(Concat(cs));
      ConsumedIsTaken(r.source, n - 1);
      TakenNothing(Broken(r.source, RIO_BUFSIZE), n - 1);
      TakenNothing(broken, n - 1);
      if cs != [] {
        TakenStep(cs, broken, n);
      } else {
        LineFromNothing(LIMIT);
        assert cs[Used(cs, LIMIT)..] == [];
      }
    }
  }

  lemma TakenNone(cs: seq<string>, broken: bool)
    ensures Taken(cs, broken, 0) == []
  {
  }

  lemma TakenNothing(broken: bool, n: nat)
    ensures Taken([], broken, n) == []
  {
  }

  /** What one call uses up is its line and what is lost behind it in the last of those reads. */
  lemma {:induction false} UsedSplit(cs: seq<string>, limit: nat) returns (head: string, lost: string)
    ensures
      var line, m := FirstLine(Concat(cs), limit), Used(cs, limit);
      && Concat(cs[..m]) == line + lost
      && Concat(cs) == line + (lost + Concat(cs[m..]))
      && (lost != "" ==>
            && m > 0 && cs[m - 1] == head + lost
            && head != "" && line != "" && head[|head| - 1] == line[|line| - 1])
    decreases |cs|
  {
    hide FirstLine, Complete, Concat;
    LineFromNothing(limit);
    head, lost := "", "";
    if cs == [] || limit == 0 {
      assert Used(cs, limit) == 0 && cs[..0] == [] && cs[0..] == cs;
      assert FirstLine(Concat(cs), limit) == "";
      assert "" + ("" + Concat(cs)) == Concat(cs);
    } else {
      var c, more := cs[0], cs[1..];
      var line := FirstLine(c, limit);
      assert cs == [c] + more;
      ConcatCons(c, more);
      UsedStep(c, more, limit);
      FirstLineOver(c, Concat(more), limit);
      if Complete(line, limit) {
        head, lost := line, c[|line|..];
        OneUsed(c, more, limit);
      } else {
        head, lost := UsedSplit(more, limit - |c|);
        MoreUsed(c, more, Used(more, limit - |c|), FirstLine(Concat(more), limit - |c|), lost);
      }
    }
  }

  /** The line is complete within the first read. */
  lemma {:induction false} OneUsed(c: string, more: seq<string>, limit: nat)
    requires limit > 0 && Complete(FirstLine(c, limit), limit)
    ensures
      var line, cs := FirstLine(c, limit), [c] + more;
      && line != "" && |line| <= |c| && c == line + c[|line|..]
      && cs[..1] == [c] && cs[1..] == more && Concat([c]) == c
      && Concat(cs) == line + (c[|line|..] + Concat(more))
  {
    hide Concat;
    var line := FirstLine(c, limit);
    FirstLinePrefix(c, limit);
    CompleteNotEmpty(line, limit);
    hide FirstLine, Complete;
    ConcatCons(c, more);
    ConcatCons(c, []);
    ConcatNil();
    assert [c] + [] == [c];
    assert line + (c[|line|..] + Concat(more)) == c + Concat(more);
  }

  /** The first read is only a beginning of the line. */
  lemma {:induction false} MoreUsed(c: string, more: seq<string>, m: nat, line: string, lost: string)
    requires m <= |more| && Concat(more[..m]) == line + lost
    requires Concat(more) == line + (lost + Concat(more[m..]))
    ensures
      var cs := [c] + more;
      && Concat(cs[..1 + m]) == c + line + lost
      && cs[1 + m..] == more[m..] && (m > 0 ==> cs[m] == more[m - 1])
      && Concat(cs) == c + line + (lost + Concat(more[m..]))
    ensures line != "" ==> (c + line)[|c + line| - 1] == line[|line| - 1]
  {
    hide Concat;
    var cs := [c] + more;
    assert cs[..1 + m] == [c] + more[..m] && cs[1 + m..] == more[m..];
    ConcatCons(c, more[..m]);
    ConcatCons(c, more);
    Associate(c, line, lost);
    Associate(c, line, lost + Concat(more[m..]));
  }

  lemma {:induction false} Associate(a: string, b: string, c: string)
    ensures a + (b + c) == a + b + c
  {
  }

  lemma FirstLinePrefix(s: string, limit: nat)
    ensures FirstLine(s, limit) <= s
  {
  }

  lemma CompleteNotEmpty(line: string, limit: nat)
    requires limit > 0 && Complete(line, limit)
    ensures line != ""
  {
  }

  /** No read brings a byte behind a newline. */
  ghost predicate NothingBehind(cs: seq<string>) {
    forall c :: c in cs ==> c != "" && '\n' !in c[..|c| - 1]
  }

  lemma {:induction false} TakenLength(cs: seq<string>, broken: bool, n: nat)
    ensures |Concat(Taken(cs, broken, n))| <= |Concat(cs)|
    decreases n
  {
    hide Taken, FirstLine, Complete, Used, Concat;
    ConcatNil();
    TakenNone(cs, broken);
    TakenNothing(broken, n);
    if n > 0 && cs != [] {
      TakenStep(cs, broken, n);
      var _, lost := UsedSplit(cs, LIMIT);
      var rest := cs[Used(cs, LIMIT)..];
      TakenLength(rest, broken, n - 1);
      ConcatCons(FirstLine(Concat(cs), LIMIT), Taken(rest, broken, n - 1));
    }
  }

  lemma {:induction false} NoNewlineInside(cs: seq<string>, line: string)
    requires "" !in cs && Concat(cs) == line
    requires forall i :: 0 <= i < |line| - 1 ==> line[i] != '\n'
    ensures NothingBehind(cs)
    decreases |cs|
  {
    if cs != [] {
      var c, more := cs[0], Concat(cs[1..]);
      assert c in cs && line == c + more;
      assert c == line[..|c|];
      assert forall i :: 0 <= i < |c| - 1 ==> c[i] == line[i];
      forall i | 0 <= i < |more| - 1 ensures more[i] != '\n' {
        assert line[|c| + i] == more[i];
      }
      NoNewlineInside(cs[1..], more);
      assert cs == [c] + cs[1..];
    }
  }

  /** If no byte is lost then no read brought one behind a newline, whatever the stream. */
  lemma {:induction false} NoLossNothingBehind(cs: seq<string>, broken: bool, n: nat)
    requires "" !in cs && Concat(Taken(cs, broken, n)) == Concat(cs)
    ensures NothingBehind(cs)
    decreases n
  {
    hide Taken, FirstLine, Complete, Used, Concat;
    ConcatNil();
    TakenNone(cs, broken);
    NoBytesNoChunks(cs);
    if n > 0 && cs != [] {
      TakenStep(cs, broken, n);
      var _, lost := UsedSplit(cs, LIMIT);
      var line, m := FirstLine(Concat(cs), LIMIT), Used(cs, LIMIT);
      var taken := Taken(cs[m..], broken, n - 1);
      TakenLength(cs[m..], broken, n - 1);
      ConcatCons(line, taken);
      assert line + Concat(taken) == line + (lost + Concat(cs[m..]));
      assert lost == "";
      Cancel(line, Concat(taken), lost + Concat(cs[m..]));
      assert lost + Concat(cs[m..]) == Concat(cs[m..]);
      NoLossNothingBehind(cs[m..], broken, n - 1);
      assert line + lost == line;
      FirstLineIsLine(Concat(cs), LIMIT);
      NoNewlineInside(cs[..m], line);
      assert cs == cs[..m] + cs[m..];
    }
  }

  ghost predicate AreFrames(frames: seq<string>) {
    forall f :: f in frames ==> IsTextLine(f) && |f| <= LIMIT
  }

  /** The line a call takes is the next frame, if it is complete. */
  lemma NextFrame(cs: seq<string>, tail: string, frames: seq<string>)
    requires AreFrames(frames) && Concat(cs) + tail == Concat(frames) && frames != []
    ensures
      var line := FirstLine(Concat(cs), LIMIT);
      if Complete(line, LIMIT) then line == frames[0] else tail != ""
  {
    hide FirstLine, Concat;
    var f, more := frames[0], Concat(frames[1..]);
    assert f in frames && frames == [f] + frames[1..];
    ConcatCons(f, frames[1..]);
    FirstLineOfText(f, more, LIMIT);
    FirstLineOver(Concat(cs), tail, LIMIT);
    if tail == "" {
      assert Concat(cs) + tail == Concat(cs);
    }
  }

  lemma FramesLeft(frames: seq<string>)
    requires AreFrames(frames)
    ensures Concat(frames) == "" <==> frames == []
  {
    if frames != [] {
      assert frames[0] in frames;
    }
  }

  lemma LostBehind(c: string, head: string, lost: string)
    requires c == head + lost && lost != "" && head != "" && head[|head| - 1] == '\n'
    ensures '\n' in c[..|c| - 1] && c[|c| - 1] == lost[|lost| - 1]
  {
    assert c[..|c| - 1][|head| - 1] == '\n';
  }

  /** One call that takes a frame: what is left of the frames is what it lost, in a read that brought
      bytes behind a newline, and what the later reads bring. */
  lemma FrameTaken(cs: seq<string>, tail: string, frames: seq<string>) returns (lost: string)
    requires AreFrames(frames) && frames != [] && cs != [] && Concat(cs) + tail == Concat(frames)
    requires Complete(FirstLine(Concat(cs), LIMIT), LIMIT)
    ensures FirstLine(Concat(cs), LIMIT) == frames[0]
    ensures
      var m := Used(cs, LIMIT);
      && m > 0
      && lost + (Concat(cs[m..]) + tail) == Concat(frames[1..])
      && (lost != "" ==> |cs[m - 1]| > 0 && '\n' in cs[m - 1][..|cs[m - 1]| - 1]
                         && cs[m - 1][|cs[m - 1]| - 1] == lost[|lost| - 1])
  {
    hide FirstLine, Complete, Used, Concat, IsTextLine;
    NextFrame(cs, tail, frames);
    var f, m := frames[0], Used(cs, LIMIT);
    var head;
    head, lost := UsedSplit(cs, LIMIT);
    assert f in frames && frames == [f] + frames[1..];
    FrameEnds(f);
    if lost != "" {
      LostBehind(cs[m - 1], head, lost);
    }
    ConcatCons(f, frames[1..]);
    var rest := Concat(cs[m..]);
    assert f + (lost + rest) + tail == f + (lost + (rest + tail));
    Cancel(f, lost + (rest + tail), Concat(frames[1..]));
  }

  lemma {:induction false} NothingBehindNoLoss(cs: seq<string>, broken: bool, frames: seq<string>, n: nat)
    requires AreFrames(frames) && Concat(cs) == Concat(frames) && NothingBehind(cs)
    ensures Taken(cs, broken, n) == frames[..Min(n, |frames|)]
    decreases n
  {
    hide Taken, FirstLine, Complete, Used, Concat, IsTextLine;
    TakenNone(cs, broken);
    FramesLeft(frames);
    NoBytesNoChunks(cs);
    TakenNothing(broken, n);
    if n > 0 && cs != [] {
      TakenStep(cs, broken, n);
      assert Concat(cs) + "" == Concat(frames);
      NextFrame(cs, "", frames);
      var lost := FrameTaken(cs, "", frames);
      var rest := cs[Used(cs, LIMIT)..];
      assert cs[Used(cs, LIMIT) - 1] in cs;
      assert lost + (Concat(rest) + "") == Concat(rest);
      NothingBehindNoLoss(rest, broken, frames[1..], n - 1);
      assert [frames[0]] + frames[1..][..Min(n - 1, |frames| - 1)] == frames[..Min(n, |frames|)];
    }
  }

  lemma FrameEnds(f: string)
    requires IsTextLine(f)
    ensures f != "" && f[|f| - 1] == '\n'
  {
  }

  /** No published frame is lost, split or merged exactly when the reads bring all of them before any
      hard error and no read brings a byte behind a newline. It does not matter where else they cut. */
  lemma NoFrameLostExactly(k: Source, frames: seq<string>, n: nat)
    requires AreFrames(frames) && k.incoming == Concat(frames) && n >= |frames|
    ensures
      var cs := Chunks(k, RIO_BUFSIZE);
      Consumed(k, n) == frames <==> Concat(cs) == k.incoming && NothingBehind(cs)
  {
    hide Chunks, Broken, Consumed, Taken, Concat, NothingBehind, AreFrames;
    var cs, broken := Chunks(k, RIO_BUFSIZE), Broken(k, RIO_BUFSIZE);
    ConsumedIsTaken(k, n);
    ChunksConcat(k, RIO_BUFSIZE);
    if Consumed(k, n) == frames {
      TakenLength(cs, broken, n);
      NoLossNothingBehind(cs, broken, n);
    } else if Concat(cs) == k.incoming && NothingBehind(cs) {
      NothingBehindNoLoss(cs, broken, frames, n);
      assert frames[..Min(n, |frames|)] == frames;
    }
  }

  /** Two frames that arrive together, in one read of the 8192-byte buffer: the second is lost, however
      often the broker comes back. */
  lemma SecondFrameLost(first: string, second: string, k: Source, n: nat)
    requires AreFrames([first, second]) && Chunks(k, 8192) == [first + second] && n > 0
    ensures Consumed(k, n) == [first]
  {
    hide Chunks, Broken, Consumed, Taken, FirstLine, IsTextLine;
    var c := first + second;
    assert first in [first, second];
    ConsumedIsTaken(k, n);
    FirstLineOfText(first, second, LIMIT);
    FirstLineOfEachRead([c], Broken(k, RIO_BUFSIZE), n);
    assert Heads([c]) == [first];
  }

  /** That is how they arrive when both are there and fit. */
  lemma ArriveTogether(first: string, second: string)
    requires AreFrames([first, second]) && |first + second| <= 8192
    ensures Chunks(Source(first + second, []), 8192) == [first + second]
  {
    var s := first + second;
    assert first in [first, second];
    ChunksStep(Source(s, []), 8192);
    ChunksStep(Source("", []), 8192);
    assert s[..|s|] == s && s[|s|..] == "";
  }

  /** A read that brings bytes behind a newline ends where a line ends; other reads may cut anywhere. */
  ghost predicate Tidy(cs: seq<string>) {
    forall c :: c in cs ==> c != "" && ('\n' in c[..|c| - 1] ==> c[|c| - 1] == '\n')
  }

  lemma NewlineIsLast(f: string, i: nat)
    requires IsTextLine(f) && i < |f| && f[i] == '\n'
    ensures i == |f| - 1
  {
  }

  lemma FrameFits(c: string, rest: string, f: string, more: string)
    requires IsTextLine(f) && c + rest == f + more
    requires c != "" && c[|c| - 1] == '\n'
    ensures |f| <= |c|
  {
    if |c| <= |f| {
      assert f[|c| - 1] == (f + more)[|c| - 1] == (c + rest)[|c| - 1];
      NewlineIsLast(f, |c| - 1);
    }
  }

  /** Bytes that end where a line ends are a whole number of frames, at least one. */
  lemma {:induction false} SplitFrames(c: string, rest: string, frames: seq<string>) returns (m: nat)
    requires AreFrames(frames) && c + rest == Concat(frames)
    requires c != "" && c[|c| - 1] == '\n'
    ensures 1 <= m <= |frames|
    ensures c == Concat(frames[..m]) && rest == Concat(frames[m..])
    decreases |c|
  {
    var f, more := frames[0], Concat(frames[1..]);
    assert f in frames && c + rest == f + more;
    FrameFits(c, rest, f, more);
    assert c[..|f|] == (c + rest)[..|f|] == (f + more)[..|f|] == f;
    var c' := c[|f|..];
    assert c == f + c';
    assert c' + rest == (c + rest)[|f|..] == (f + more)[|f|..] == more;
    if c' == "" {
      m := 1;
      assert frames[..1] == [f];
      assert Concat([f]) == f + "" == f;
    } else {
      assert c'[|c'| - 1] == c[|c| - 1];
      var m' := SplitFrames(c', rest, frames[1..]);
      m := m' + 1;
      assert frames[..m] == [f] + frames[1..][..m'] && frames[m..] == frames[1..][m'..];
      ConcatCons(f, frames[1..][..m']);
    }
  }

  /** The frames that are lost behind a line. */
  lemma LostFrames(lost: string, rest: string, frames: seq<string>) returns (m: nat)
    requires AreFrames(frames) && lost + rest == Concat(frames)
    requires lost != "" ==> lost[|lost| - 1] == '\n'
    ensures m <= |frames| && rest == Concat(frames[m..])
  {
    if lost == "" {
      m := 0;
      assert lost + rest == rest && frames[0..] == frames;
    } else {
      m := SplitFrames(lost, rest, frames);
    }
  }

  lemma OneAndSomeLost(frames: seq<string>, j: nat, taken: seq<string>)
    requires j < |frames| && IsSub(taken, frames[1..][j..])
    ensures IsSub([frames[0]] + taken, frames)
  {
    hide IsSub;
    var more := frames[1..];
    assert more == more[..j] + more[j..] && frames == [frames[0]] + more;
    IsSubSkip(more[..j], taken, more[j..]);
    IsSubKeep([frames[0]], taken, more);
  }

  lemma {:induction false} TidyTaken(cs: seq<string>, tail: string, broken: bool, frames: seq<string>, n: nat)
    requires AreFrames(frames) && Concat(cs) + tail == Concat(frames) && Tidy(cs)
    requires tail != "" ==> broken
    ensures IsSub(Taken(cs, broken, n), frames)
    decreases n
  {
    hide Taken, FirstLine, Complete, Used, Concat, IsTextLine, IsSub;
    IsSubNothing(frames);
    ConcatNil();
    FramesLeft(frames);
    TakenNone(cs, broken);
    NoBytesNoChunks(cs);
    TakenNothing(broken, n);
    if n > 0 && cs != [] {
      TakenStep(cs, broken, n);
      NextFrame(cs, tail, frames);
      if Complete(FirstLine(Concat(cs), LIMIT), LIMIT) {
        var lost := FrameTaken(cs, tail, frames);
        var rest, more := cs[Used(cs, LIMIT)..], frames[1..];
        assert cs[Used(cs, LIMIT) - 1] in cs;
        var j := LostFrames(lost, Concat(rest) + tail, more);
        TidyTaken(rest, tail, broken, more[j..], n - 1);
        OneAndSomeLost(frames, j, Taken(rest, broken, n - 1));
      }
    }
  }

  /** Where a read that brings several lines always ends with one, every line taken is a whole
      published frame, and the order is kept, under every such schedule. */
  lemma WholeFramesOnly(k: Source, frames: seq<string>, n: nat)
    requires AreFrames(frames) && k.incoming == Concat(frames)
    requires Tidy(Chunks(k, RIO_BUFSIZE))
    ensures IsSub(Consumed(k, n), frames)
  {
    hide Chunks, Broken, Consumed, Taken, Concat, Tidy, AreFrames, IsSub;
    var cs, broken := Chunks(k, RIO_BUFSIZE), Broken(k, RIO_BUFSIZE);
    ConsumedIsTaken(k, n);
    ChunksConcat(k, RIO_BUFSIZE);
    var tail := k.incoming[|Concat(cs)|..];
    assert Concat(cs) + tail == k.incoming;
    TidyTaken(cs, tail, broken, frames, n);
  }

  function Heads(cs: seq<string>): (hs: seq<string>)
    ensures |hs| == |cs|
  {
    if cs == [] then [] else [FirstLine(cs[0], LIMIT)] + Heads(cs[1..])
  }

  /** If every read brings at least one whole line, what is taken is the first line of each. */
  lemma {:induction false} FirstLineOfEachRead(cs: seq<string>, broken: bool, n: nat)
    requires forall c :: c in cs ==> IsTextLine(FirstLine(c, LIMIT))
    ensures Taken(cs, broken, n) == Heads(cs)[..Min(n, |cs|)]
    decreases n
  {
    hide Taken, FirstLine, Complete, Used, Concat, Heads, IsTextLine;
    TakenNone(cs, broken);
    TakenNothing(broken, n);
    if n > 0 && cs != [] {
      var c, more := cs[0], cs[1..];
      assert c in cs && cs == [c] + more;
      TakenStep(cs, broken, n);
      ConcatCons(c, more);
      WholeLineFirst(c, more);
      FirstLineOfEachRead(more, broken, n - 1);
      HeadsPrefix(c, more, n);
    }
  }

  lemma WholeLineFirst(c: string, more: seq<string>)
    requires IsTextLine(FirstLine(c, LIMIT))
    ensures FirstLine(c + Concat(more), LIMIT) == FirstLine(c, LIMIT)
    ensures Complete(FirstLine(c, LIMIT), LIMIT)
    ensures Used([c] + more, LIMIT) == 1
  {
    hide FirstLine;
    FirstLineOver(c, Concat(more), LIMIT);
    UsedStep(c, more, LIMIT);
  }

  lemma HeadsPrefix(c: string, rest: seq<string>, n: nat)
    requires n > 0
    ensures Heads([c] + rest)[..Min(n, 1 + |rest|)] ==
              [FirstLine(c, LIMIT)] + Heads(rest)[..Min(n - 1, |rest|)]
  {
    assert ([c] + rest)[1..] == rest;
  }

  ghost predicate AllForwardable(lines: seq<string>, topic: seq<int>) {
    forall line :: line in lines ==> Frames.EnoughTokens(Tokens(CStr(line), ','), topic)
  }

  function TextOf(line: string, topic: seq<int>): string {
    if Frames.EnoughTokens(Tokens(CStr(line), ','), topic) then Frames.Forwarded(line, topic) else ""
  }

  /** What a subscriber receives for a run of consumed lines. */
  function ForwardedAll(lines: seq<string>, topic: seq<int>): string {
    if lines == [] then "" else TextOf(lines[0], topic) + ForwardedAll(lines[1..], topic)
  }

  lemma {:induction false} ForwardedAllAppend(a: seq<string>, line: string, topic: seq<int>)
    ensures ForwardedAll(a + [line], topic) == ForwardedAll(a, topic) + TextOf(line, topic)
    decreases |a|
  {
    hide TextOf;
    if a == [] {
      assert a + [line] == [line];
      assert TextOf(line, topic) + "" == "" + TextOf(line, topic);
    } else {
      assert (a + [line])[1..] == a[1..] + [line];
      ForwardedAllAppend(a[1..], line, topic);
      var x, y, z := TextOf(a[0], topic), ForwardedAll(a[1..], topic), TextOf(line, topic);
      assert x + (y + z) == x + y + z;
    }
  }

  lemma ForwardedNone(topic: seq<int>, base: string)
    ensures base + ForwardedAll([], topic) == base
  {
  }

  lemma ConsumedNext(k: Source, n: nat)
    requires n > 0
    ensures
      var (got, r) := ReadLine(Reader("", k), LIMIT);
      && (NeverFails(k) ==> got.ok && NeverFails(r.source))
      && (got.ok ==>
            Consumed(k, n) ==
              (if Frames.LineTaken(k) == "" then [] else [Frames.LineTaken(k)]) + Consumed(r.source, n - 1))
  {
    ConsumedStep(k, n);
    hide Consumed, ReadLine;
    ReadLineLaw(Reader("", k), LIMIT);
    var more := Consumed(ReadLine(Reader("", k), LIMIT).1.source, n - 1);
    assert [] + more == more;
  }

  /** `times` rounds of the forwarding loop for one subscription. */
  method Repeat(pub: Descriptor, sus: Descriptor, topic: seq<int>, times: nat) returns (exited: bool)
    requires AllForwardable(Consumed(pub.Input(), times), topic)
    modifies pub`incoming, pub`readPlan, sus`outgoing, sus`writePlan
    ensures !exited ==>
              sus.outgoing == old(sus.outgoing) + ForwardedAll(old(Consumed(pub.Input(), times)), topic)
    ensures
      NeverFails(old(pub.Input())) && (forall w :: w in old(sus.writePlan) ==> !IsHard(w))
      ==> !exited
  {
    hide Consumed, ReadLine, ForwardedAll, NeverFails, IsHard, Frames.Forwarded, Frames.EnoughTokens, Partly;
    hide Frames.LineTaken;
    ghost var all := Consumed(pub.Input(), times);
    ghost var base, done := sus.outgoing, [];
    ForwardedNone(topic, base);
    for i := 0 to times
      invariant NeverFails(old(pub.Input())) ==> NeverFails(pub.Input())
      invariant all == done + Consumed(pub.Input(), times - i)
      invariant sus.outgoing == base + ForwardedAll(done, topic)
      invariant forall w :: w in sus.writePlan ==> w in old(sus.writePlan)
    {
      ghost var k := pub.Input();
      ghost var line := Frames.LineTaken(k);
      ConsumedNext(k, times - i);
      if line != "" {
        TakenIsConsumed(k, times - i);
      }
      var status := Frames.ForwardMessage(pub, sus, topic);
      if status == Frames.Exited {
        return true;
      }
      if status == Frames.Sent {
        ForwardedAllAppend(done, line, topic);
        ghost var more := Consumed(pub.Input(), times - i - 1);
        assert done + ([line] + more) == done + [line] + more;
        done := done + [line];
      } else {
        assert [] + Consumed(pub.Input(), times - i - 1) == Consumed(pub.Input(), times - i - 1);
      }
    }
    ConsumedNone(pub.Input());
    assert all == done;
    return false;
  }

  lemma TakenIsConsumed(k: Source, n: nat)
    requires n > 0 && Frames.LineTaken(k) != ""
    ensures Frames.LineTaken(k) in Consumed(k, n)
  {
    ConsumedNext(k, n);
    hide Consumed, ReadLine;
    assert ReadLine(Reader("", k), LIMIT).0.ok;
  }
}
