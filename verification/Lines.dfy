/** Cutting a pure byte stream into lines, with no reader and no kernel in sight. */
module Lines {

  function Concat(pieces: seq<string>): string {
    if pieces == [] then "" else pieces[0] + Concat(pieces[1..])
  }

  lemma ConcatCons(piece: string, rest: seq<string>)
    ensures Concat([piece] + rest) == piece + Concat(rest)
  {
  }

  lemma {:induction false} ConcatAppend(a: seq<string>, b: seq<string>)
    ensures Concat(a + b) == Concat(a) + Concat(b)
  {
    if a == [] {
      assert a + b == b;
    } else {
      ConcatAppend(a[1..], b);
      assert (a + b)[1..] == a[1..] + b;
      assert a[0] + (Concat(a[1..]) + Concat(b)) == a[0] + Concat(a[1..]) + Concat(b);
    }
  }

  /** The first line of s, newline included, but never more than `limit` bytes. */
  function FirstLine(s: string, limit: nat): (line: string)
    ensures line <= s && |line| <= limit
    ensures line == "" <==> s == "" || limit == 0
  {
    if s == "" || limit == 0 then
      ""
    else if s[0] == '\n' then
      assert s[..1] == [s[0]]; s[..1]
    else
      [s[0]] + FirstLine(s[1..], limit - 1)
  }

  /** `line` is what a reader of lines may take from s: a newline can only be its last byte, and it
      stops only at a newline, at the limit or at the end of the stream. */
  ghost predicate IsLineOf(line: string, s: string, limit: nat) {
    && line <= s
    && |line| <= limit
    && (forall i :: 0 <= i < |line| - 1 ==> line[i] != '\n')
    && (line == s || |line| == limit || (line != "" && line[|line| - 1] == '\n'))
  }

  lemma {:induction false} FirstLineIsLine(s: string, limit: nat)
    ensures IsLineOf(FirstLine(s, limit), s, limit)
  {
    if s != "" && limit != 0 && s[0] != '\n' {
      FirstLineIsLine(s[1..], limit - 1);
    }
  }

  /** The three stopping rules leave no choice: at most one string meets them, so FirstLine is the
      shortest of "through the first newline", "`limit` bytes" and "the rest of the stream". */
  lemma {:induction false} LineIsUnique(line: string, s: string, limit: nat)
    requires IsLineOf(line, s, limit)
    ensures line == FirstLine(s, limit)
  {
    if s == "" || limit == 0 {
    } else if s[0] == '\n' {
      assert line != "" && line[0] == s[0];
    } else {
      assert line != "" && line[0] == s[0];
      assert IsLineOf(line[1..], s[1..], limit - 1) by {
        if |line| > 1 {
          assert line[1..][|line| - 2] == line[|line| - 1];
        }
      }
      LineIsUnique(line[1..], s[1..], limit - 1);
      assert line == [line[0]] + line[1..];
    }
  }

  /** All the pieces that repeated reading of lines cuts the stream into. */
  function Pieces(s: string, limit: nat): (pieces: seq<string>)
    requires limit > 0
    ensures "" !in pieces
    ensures pieces == [] <==> s == ""
    decreases |s|
  {
    if s == "" then [] else
    var line := FirstLine(s, limit);
    [line] + Pieces(s[|line|..], limit)
  }

  lemma PiecesStep(s: string, limit: nat)
    requires limit > 0 && s != ""
    ensures
      var line := FirstLine(s, limit);
      line != "" && Pieces(s, limit) == [line] + Pieces(s[|line|..], limit)
  {
  }

  /** Nothing is lost and nothing is reordered by cutting. */
  lemma {:induction false} PiecesConcat(s: string, limit: nat)
    requires limit > 0
    ensures Concat(Pieces(s, limit)) == s
    decreases |s|
  {
    if s != "" {
      var line := FirstLine(s, limit);
      PiecesConcat(s[|line|..], limit);
    }
  }

  /** A whole line of text: its only newline is its last byte. */
  predicate IsTextLine(t: string) {
    t != "" && t[|t| - 1] == '\n' && '\n' !in t[..|t| - 1]
  }

  /** Reading recovers a text line exactly when it fits in the buffer. */
  lemma {:induction false} FirstLineOfText(t: string, more: string, limit: nat)
    requires IsTextLine(t)
    ensures FirstLine(t + more, limit) == t <==> |t| <= limit
  {
    if |t| <= limit {
      forall i | 0 <= i < |t| - 1 ensures t[i] != '\n' {
        assert t[i] in t[..|t| - 1];
      }
      assert IsLineOf(t, t + more, limit);
      LineIsUnique(t, t + more, limit);
    }
  }

  lemma {:induction false} PiecesOfText(lines: seq<string>, limit: nat)
    requires limit > 0
    requires forall t :: t in lines ==> IsTextLine(t) && |t| <= limit
    ensures Pieces(Concat(lines), limit) == lines
  {
    if lines != [] {
      var t, more := lines[0], Concat(lines[1..]);
      assert t in lines;
      FirstLineOfText(t, more, limit);
      assert (t + more)[|t|..] == more;
      PiecesOfText(lines[1..], limit);
    }
  }
}
