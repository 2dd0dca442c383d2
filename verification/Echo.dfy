/** The echo server's conversation with one client, from its first byte to its last. */
module Echo {
  import opened Kernel
  import opened Lines
  import opened CStrings
  import opened RioSpec
  import Rio

  const MAXLINE := 8192
  const HELP := "help\n"
  const NO_HELP := "NO HELP FOR YOU\n"

  function ReplyTo(piece: string): string {
    if piece == HELP then NO_HELP else piece
  }

  function Replies(pieces: seq<string>): string {
    if pieces == [] then "" else ReplyTo(pieces[0]) + Replies(pieces[1..])
  }

  /** What the client gets back for everything it sends. */
  function Output(s: string): string {
    Replies(Pieces(s, MAXLINE - 1))
  }

  /** No piece starts with a NUL; for such a piece the server would write before its buffer. */
  ghost predicate Clean(s: string) {
    forall p :: p in Pieces(s, MAXLINE - 1) ==> p[0] != NUL
  }

  lemma NulFreeIsClean(s: string)
    requires NUL !in s
    ensures Clean(s)
  {
    forall p | p in Pieces(s, MAXLINE - 1) ensures p[0] != NUL {
      PieceIsPartOf(s, p);
      assert p[0] in p;
    }
  }

  lemma {:induction false} PieceIsPartOf(s: string, p: string)
    requires p in Pieces(s, MAXLINE - 1)
    ensures forall c :: c in p ==> c in s
    decreases |s|
  {
    var line := FirstLine(s, MAXLINE - 1);
    if p != line {
      PieceIsPartOf(s[|line|..], p);
    }
  }

  /** The loop invariant of the conversation: what was sent and what the rest of the input is still
      owed make up what the whole input is owed. */
  ghost predicate Serving(wanted: string, sent: string, rest: string) {
    sent + Output(rest) == wanted && Clean(rest)
  }

  lemma ServingStarts(s: string)
    requires Clean(s)
    ensures Serving(Output(s), "", s)
  {
  }

  lemma ServingStep(wanted: string, sent: string, rest: string)
    requires Serving(wanted, sent, rest) && rest != ""
    ensures
      var line := FirstLine(rest, MAXLINE - 1);
      && line != "" && line[0] != NUL
      && sent + ReplyTo(line) <= wanted
      && Serving(wanted, sent + ReplyTo(line), rest[|line|..])
  {
    hide FirstLine, Pieces;
    var line := FirstLine(rest, MAXLINE - 1);
    PiecesStep(rest, MAXLINE - 1);
    var pieces := Pieces(rest, MAXLINE - 1);
    assert line in pieces;
    var owed := Output(rest[|line|..]);
    assert Output(rest) == ReplyTo(line) + owed;
    assert sent + (ReplyTo(line) + owed) == sent + ReplyTo(line) + owed;
  }

  lemma ServingEnds(wanted: string, sent: string)
    requires Serving(wanted, sent, "")
    ensures sent == wanted
  {
  }

  /** strcmp(buf, "help\n") == 0 sees only the part of the line before a NUL, and that is enough. */
  lemma SeesHelp(line: string, s: string, limit: nat)
    requires IsLineOf(line, s, limit)
    ensures CStr(line) == HELP <==> line == HELP
  {
    if CStr(line) == HELP {
      assert line[4] == '\n';
      assert line == line[..5];
    }
  }

  /** The body of the loop, for a line of n bytes in buf. */
  method Answer(connfd: Descriptor, buf: array<char>, n: nat, ghost line: string) returns (ok: bool)
    requires n < buf.Length && buf[..n] == line && buf[n] == NUL
    requires line != "" && line[0] != NUL
    requires CStr(line) == HELP <==> line == HELP
    modifies connfd`outgoing, connfd`writePlan, buf
    ensures
      var (got, left) := WriteN(old(connfd.writePlan), ReplyTo(line));
      && connfd.outgoing == old(connfd.outgoing) + got.bytes
      && connfd.writePlan == left
      && ok == got.ok
  {
    hide WriteN, CStr;
    CStrStopsAt(buf[..], n);
    CStrNonEmpty(line);
    assert buf[..][..n] == line;
    var count: int;
    if CStr(buf[..]) == HELP {
      var help := Buffer(NO_HELP);
      assert help[..16] == NO_HELP;
      count := Rio.WriteNBytes(connfd, help, 16);
      return count == 16;
    } else {
      count := Rio.WriteNBytes(connfd, buf, n);
      buf[|CStr(buf[..])| - 1] := NUL;
      return count == n;
    }
  }

  method Run(connfd: Descriptor) returns (exited: bool)
    requires Clean(connfd.incoming)
    modifies connfd
    ensures
      var wanted := Output(old(connfd.incoming));
      && (!exited ==> connfd.incoming == "" && connfd.outgoing == old(connfd.outgoing) + wanted)
      && Partly(old(connfd.outgoing), wanted, connfd.outgoing)
    ensures
      NeverFails(old(connfd.Input())) && (forall w :: w in old(connfd.writePlan) ==> !IsHard(w))
      ==> !exited
  {
    hide Output, Clean, Serving, FirstLine, ReadLine, WriteN, ReplyTo, NeverFails, IsHard, Partly;
    hide Rio.RioT.Valid, Rio.RioT.View, Descriptor.Input;
    ghost var rest, sent := connfd.incoming, "";
    ghost var base, wanted := connfd.outgoing, Output(rest);
    NothingSent(base, wanted);
    ServingStarts(rest);
    var buf := new char[MAXLINE];
    var rio := new Rio.RioT.ReadInitB(connfd);
    assert rio.View().Rest() == rest;
    while true
      invariant rio.Valid() && rio.rioFd == connfd && buf != rio.rioBuf
      invariant fresh(rio) && fresh(rio.rioBuf) && fresh(buf)
      invariant rest == rio.View().Rest()
      invariant connfd.outgoing == base + sent && Partly(base, wanted, connfd.outgoing)
      invariant Serving(wanted, sent, rest)
      invariant NeverFails(old(connfd.Input())) ==> NeverFails(rio.View().source)
      invariant forall w :: w in connfd.writePlan ==> w in old(connfd.writePlan)
      decreases |rest|
    {
      var n := rio.NextLine(buf, MAXLINE);
      if n < 0 {
        return true;
      }
      ghost var line := FirstLine(rest, MAXLINE - 1);
      if n == 0 {
        ServingEnds(wanted, sent);
        break;
      }
      ServingStep(wanted, sent, rest);
      FirstLineIsLine(rest, MAXLINE - 1);
      SeesHelp(line, rest, MAXLINE - 1);
      WriteNLaw(connfd.writePlan, ReplyTo(line));
      ghost var part := WriteN(connfd.writePlan, ReplyTo(line)).0.bytes;
      PartlySent(base, sent, ReplyTo(line), part, wanted);
      ghost var after := rio.View();
      var ok := Answer(connfd, buf, n, line);
      assert rio.View() == after;
      if !ok {
        return true;
      }
      rest, sent := rest[n..], sent + ReplyTo(line);
    }
    return false;
  }

  lemma {:induction false} RepliesLength(pieces: seq<string>)
    ensures |Replies(pieces)| >= |Concat(pieces)|
    ensures HELP in pieces ==> |Replies(pieces)| > |Concat(pieces)|
    ensures HELP !in pieces ==> Replies(pieces) == Concat(pieces)
  {
    if pieces != [] {
      RepliesLength(pieces[1..]);
      assert pieces == [pieces[0]] + pieces[1..];
    }
  }

  /** The server is a faithful echo of its input exactly when no piece of it, cut at newlines and at 8191
      bytes, is "help". */
  lemma EchoesExactly(s: string)
    ensures Output(s) == s <==> "help\n" !in Pieces(s, 8191)
  {
    hide FirstLine, Pieces;
    RepliesLength(Pieces(s, MAXLINE - 1));
    PiecesConcat(s, MAXLINE - 1);
  }

  /** What it says instead, wherever the piece stands. */
  lemma HelpReply(before: seq<string>, after: seq<string>)
    requires forall t :: t in before + ["help\n"] + after ==> IsTextLine(t) && |t| <= 8191
    requires "help\n" !in before && "help\n" !in after
    ensures Output(Concat(before + ["help\n"] + after)) == Concat(before) + "NO HELP FOR YOU\n" + Concat(after)
  {
    hide IsTextLine, Pieces, FirstLine, Concat;
    PiecesOfText(before + ["help\n"] + after, MAXLINE - 1);
    RepliesAppend(before + ["help\n"], after);
    RepliesAppend(before, ["help\n"]);
    RepliesLength(before);
    RepliesLength(after);
    assert ["help\n"][1..] == [] && Replies([]) == "";
    assert Replies(["help\n"]) == "NO HELP FOR YOU\n" + "" == "NO HELP FOR YOU\n";
  }

  lemma {:induction false} RepliesAppend(a: seq<string>, b: seq<string>)
    ensures Replies(a + b) == Replies(a) + Replies(b)
    decreases |a|
  {
    if a == [] {
      assert a + b == b;
    } else {
      assert (a + b)[1..] == a[1..] + b;
      RepliesAppend(a[1..], b);
      var x, y, z := ReplyTo(a[0]), Replies(a[1..]), Replies(b);
      assert x + (y + z) == x + y + z;
    }
  }
}
