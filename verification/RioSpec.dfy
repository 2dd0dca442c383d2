/** The Rio readers as functions of the reader's unread bytes and the kernel's schedule, and the
    laws that make the buffering invisible. */
module RioSpec {
  import opened Kernel
  import opened Lines

  const RIO_BUFSIZE := 8192

  /** A rio_t: the bytes it has read ahead, and the descriptor it reads from. */
  datatype Reader = Reader(unread: string, source: Source) {
    /** Everything the caller has not seen yet. */
    function Rest(): string {
      unread + source.incoming
    }
  }

  /** A reply of -1 (not ok) may have stored bytes all the same; they are in `bytes`. */
  datatype Reply = Reply(ok: bool, bytes: string)

  /** rio_read: refill when empty, retrying after an interrupt, then hand over at most n bytes. */
  function RioRead(r: Reader, n: nat): (Reply, Reader)
    decreases |r.source.schedule|
  {
    if r.unread != "" then
      Hand(r.unread, r.source, n)
    else
      match ReadStep(r.source, RIO_BUFSIZE)
      case (Data(bytes), k) => Hand(bytes, k, n)
      case (ReadError(Eintr), k) => RioRead(Reader("", k), n)
      case (ReadError(Other), k) => (Reply(false, ""), Reader("", k))
  }

  function Hand(bytes: string, k: Source, n: nat): (Reply, Reader) {
    var m := Min(n, |bytes|);
    (Reply(true, bytes[..m]), Reader(bytes[m..], k))
  }

  /** rio_readnb: keep asking until n bytes are stored or the stream ends. */
  function ReadBytes(r: Reader, n: nat): (Reply, Reader)
    decreases n
  {
    if n == 0 then
      (Reply(true, ""), r)
    else
      var (got, r') := RioRead(r, n);
      if !got.ok || got.bytes == "" then
        (got, r')
      else if |got.bytes| <= n then
        var (more, r'') := ReadBytes(r', n - |got.bytes|);
        (Reply(more.ok, got.bytes + more.bytes), r'')
      else
        (got, r')
  }

  /** rio_readlineb: one byte at a time, at most `limit` (the caller's maxlen less the terminator). */
  function ReadLine(r: Reader, limit: nat): (Reply, Reader)
    decreases limit
  {
    if limit == 0 then
      (Reply(true, ""), r)
    else
      var (got, r') := RioRead(r, 1);
      if !got.ok || got.bytes == "" || got.bytes == "\n" then
        (got, r')
      else
        var (more, r'') := ReadLine(r', limit - 1);
        (Reply(more.ok, got.bytes + more.bytes), r'')
  }

  /** rio_readn: the unbuffered reader, straight on the kernel. */
  function ReadN(k: Source, n: nat): (Reply, Source)
    decreases n, |k.schedule|
  {
    if n == 0 then
      (Reply(true, ""), k)
    else
      match ReadStep(k, n)
      case (Data(bytes), k') =>
        if bytes == "" then (Reply(true, ""), k') else
        var (more, k'') := ReadN(k', n - |bytes|);
        (Reply(more.ok, bytes + more.bytes), k'')
      case (ReadError(Eintr), k') => ReadN(k', n)
      case (ReadError(Other), k') => (Reply(false, ""), k')
  }

  /** What every reader keeps, whatever the kernel does: no byte is lost, repeated or reordered
      between what was stored and what is still to come. */
  ghost predicate Keeps(before: string, stored: string, after: string) {
    before == stored + after
  }

  lemma ReadStepLaw(k: Source, n: nat)
    ensures
      match ReadStep(k, n)
      case (Data(bytes), k') =>
        && Keeps(k.incoming, bytes, k'.incoming)
        && |bytes| <= n
        && (n > 0 && bytes == "" ==> k.incoming == "")
        && (NeverFails(k) ==> NeverFails(k'))
      case (ReadError(e), k') =>
        && k'.incoming == k.incoming
        && |k'.schedule| < |k.schedule|
        && (e == Other ==> !NeverFails(k))
        && (NeverFails(k) ==> NeverFails(k'))
  {
  }

  lemma HandLaw(bytes: string, k: Source, n: nat)
    ensures
      var (got, r') := Hand(bytes, k, n);
      && Keeps(bytes + k.incoming, got.bytes, r'.Rest())
      && |got.bytes| <= n
      && (n > 0 && got.bytes == "" ==> bytes == "")
      && got.ok && r'.source == k
  {
  }

  lemma {:induction false} RioReadLaw(r: Reader, n: nat)
    ensures
      var (got, r') := RioRead(r, n);
      && Keeps(r.Rest(), got.bytes, r'.Rest())
      && |got.bytes| <= n
      && (got.ok && n > 0 && got.bytes == "" ==> r.Rest() == "")
      && (!got.ok ==> got.bytes == "" && !NeverFails(r.source))
      && (NeverFails(r.source) ==> NeverFails(r'.source))
    decreases |r.source.schedule|
  {
    if r.unread != "" {
      HandLaw(r.unread, r.source, n);
    } else {
      assert r.Rest() == r.source.incoming;
      ReadStepLaw(r.source, RIO_BUFSIZE);
      match ReadStep(r.source, RIO_BUFSIZE) {
        case (Data(bytes), k) => HandLaw(bytes, k, n);
        case (ReadError(Eintr), k) =>
          RioReadLaw(Reader("", k), n);
          assert Reader("", k).Rest() == k.incoming;
        case (ReadError(Other), k) => assert Reader("", k).Rest() == k.incoming;
      }
    }
  }

  /** A refill asks for as much as the 8192-byte buffer holds, whatever its caller asked for, and what
      the caller does not take is read ahead. */
  lemma ReadsAhead(s: string, n: nat)
    requires s != "" && n > 0
    ensures
      var (got, r) := RioRead(Reader("", Source(s, [])), n);
      && got == Reply(true, s[..Min(n, Min(8192, |s|))])
      && r == Reader(s[Min(n, Min(8192, |s|))..Min(8192, |s|)], Source(s[Min(8192, |s|)..], []))
  {
    var m := Min(8192, |s|);
    assert ReadStep(Source(s, []), 8192) == (Data(s[..m]), Source(s[m..], []));
    assert s[..m][..Min(n, m)] == s[..Min(n, m)] && s[..m][Min(n, m)..] == s[Min(n, m)..m];
  }

  lemma HeadAndTail(c: char, s: string, s': string)
    requires s == [c] + s'
    ensures s != "" && s[0] == c && s[1..] == s'
  {
  }

  lemma Push(first: string, stored: string, after: string, before: string)
    requires Keeps(before, stored, after)
    ensures Keeps(first + before, first + stored, after)
  {
  }

  /** Taking a first piece and then up to n bytes in all. */
  lemma TakeMore(s: string, first: string, s': string, n: nat, more: string, after: string)
    requires Keeps(s, first, s') && |first| <= n && Keeps(s', more, after)
    ensures Keeps(s, first + more, after)
    ensures more == s'[..Min(n - |first|, |s'|)] ==> first + more == s[..Min(n, |s|)]
  {
  }

  /** rio_readnb delivers exactly the next min(n, rest) bytes of the stream, or fails having
      delivered fewer than n of them. */
  lemma {:induction false} ReadBytesLaw(r: Reader, n: nat)
    ensures
      var (got, r') := ReadBytes(r, n);
      && Keeps(r.Rest(), got.bytes, r'.Rest())
      && (got.ok ==> got.bytes == r.Rest()[..Min(n, |r.Rest()|)])
      && (!got.ok ==> |got.bytes| < n && !NeverFails(r.source))
      && (NeverFails(r.source) ==> NeverFails(r'.source))
    decreases n
  {
    hide RioRead, NeverFails, Reader.Rest;
    if n > 0 {
      RioReadLaw(r, n);
      var (got, r') := RioRead(r, n);
      if got.ok && got.bytes != "" {
        ReadBytesLaw(r', n - |got.bytes|);
        TakeMore(r.Rest(), got.bytes, r'.Rest(), n, ReadBytes(r', n - |got.bytes|).0.bytes,
                 ReadBytes(r', n - |got.bytes|).1.Rest());
      }
    }
  }

  /** rio_readlineb delivers exactly the next line of the stream, or fails having delivered a
      proper beginning of it. */
  lemma {:induction false} ReadLineLaw(r: Reader, limit: nat)
    ensures
      var (got, r') := ReadLine(r, limit);
      && Keeps(r.Rest(), got.bytes, r'.Rest())
      && (got.ok ==> got.bytes == FirstLine(r.Rest(), limit))
      && (!got.ok ==> got.bytes <= FirstLine(r.Rest(), limit) && |got.bytes| < limit && !NeverFails(r.source))
      && (NeverFails(r.source) ==> NeverFails(r'.source))
    decreases limit
  {
    hide RioRead, NeverFails, Reader.Rest;
    if limit > 0 {
      RioReadLaw(r, 1);
      var (got, r') := RioRead(r, 1);
      if got.ok && got.bytes != "" {
        var c := got.bytes[0];
        assert got.bytes == [c];
        HeadAndTail(c, r.Rest(), r'.Rest());
        if c == '\n' {
          assert got.bytes == "\n";
        } else {
          ReadLineLaw(r', limit - 1);
          var (more, r'') := ReadLine(r', limit - 1);
          assert ReadLine(r, limit) == (Reply(more.ok, [c] + more.bytes), r'');
          assert FirstLine(r.Rest(), limit) == [c] + FirstLine(r'.Rest(), limit - 1);
          Push([c], more.bytes, r''.Rest(), r'.Rest());
        }
      }
    }
  }

  lemma {:induction false} ReadNLaw(k: Source, n: nat)
    ensures
      var (got, k') := ReadN(k, n);
      && Keeps(k.incoming, got.bytes, k'.incoming)
      && (got.ok ==> got.bytes == k.incoming[..Min(n, |k.incoming|)])
      && (!got.ok ==> |got.bytes| < n && !NeverFails(k))
    decreases n, |k.schedule|
  {
    hide ReadStep, NeverFails;
    if n > 0 {
      ReadStepLaw(k, n);
      match ReadStep(k, n) {
        case (Data(bytes), k') =>
          if bytes != "" {
            ReadNLaw(k', n - |bytes|);
            var (more, k'') := ReadN(k', n - |bytes|);
            TakeMore(k.incoming, bytes, k'.incoming, n, more.bytes, k''.incoming);
          }
        case (ReadError(e), k') =>
          if e == Eintr {
            ReadNLaw(k', n);
          }
      }
    }
  }

  /** Any mix of the two buffered calls on one rio_t. */
  datatype Call = Bytes(n: nat) | Line(limit: nat)

  function Answer(r: Reader, call: Call): (Reply, Reader) {
    match call
    case Bytes(n) => ReadBytes(r, n)
    case Line(limit) => ReadLine(r, limit)
  }

  function Answers(r: Reader, calls: seq<Call>): (seq<Reply>, Reader)
    decreases |calls|
  {
    if calls == [] then ([], r) else
    var (got, r') := Answer(r, calls[0]);
    var (more, r'') := Answers(r', calls[1..]);
    ([got] + more, r'')
  }

  /** The same calls answered by a cursor on the pure stream: no buffer and no kernel. */
  function CursorAnswer(s: string, call: Call): (bytes: string)
    ensures bytes <= s
  {
    match call
    case Bytes(n) => s[..Min(n, |s|)]
    case Line(limit) => FirstLine(s, limit)
  }

  function CursorAnswers(s: string, calls: seq<Call>): seq<string>
    decreases |calls|
  {
    if calls == [] then [] else
    var bytes := CursorAnswer(s, calls[0]);
    [bytes] + CursorAnswers(s[|bytes|..], calls[1..])
  }

  ghost predicate AllOk(replies: seq<Reply>) {
    forall i :: 0 <= i < |replies| ==> replies[i].ok
  }

  function Stored(replies: seq<Reply>): seq<string> {
    seq(|replies|, i requires 0 <= i < |replies| => replies[i].bytes)
  }

  lemma AnswerLaw(r: Reader, call: Call)
    ensures
      var (got, r') := Answer(r, call);
      && Keeps(r.Rest(), got.bytes, r'.Rest())
      && (got.ok ==> got.bytes == CursorAnswer(r.Rest(), call))
      && (NeverFails(r.source) ==> got.ok && NeverFails(r'.source))
  {
    match call {
      case Bytes(n) => ReadBytesLaw(r, n);
      case Line(limit) => ReadLineLaw(r, limit);
    }
  }

  /** Conservation over whole runs, failed calls included. */
  lemma {:induction false} RunConserves(r: Reader, calls: seq<Call>)
    ensures
      var (replies, r') := Answers(r, calls);
      Keeps(r.Rest(), Concat(Stored(replies)), r'.Rest())
    decreases |calls|
  {
    if calls != [] {
      AnswerLaw(r, calls[0]);
      var (got, r') := Answer(r, calls[0]);
      RunConserves(r', calls[1..]);
      var (more, _) := Answers(r', calls[1..]);
      assert Stored([got] + more)[1..] == Stored(more);
    } else {
      assert Stored([]) == [];
    }
  }

  /** Refinement: a buffered reader answers like the pure cursor for as long as no call fails, and
      when the kernel never fails, no call does. */
  lemma {:induction false} ReaderRefinesCursor(r: Reader, calls: seq<Call>)
    ensures
      var replies := Answers(r, calls).0;
      && |replies| == |calls|
      && (AllOk(replies) ==> Stored(replies) == CursorAnswers(r.Rest(), calls))
      && (NeverFails(r.source) ==> AllOk(replies))
    decreases |calls|
  {
    if calls != [] {
      AnswerLaw(r, calls[0]);
      var (got, r') := Answer(r, calls[0]);
      ReaderRefinesCursor(r', calls[1..]);
      var (more, _) := Answers(r', calls[1..]);
      var replies := [got] + more;
      assert replies[1..] == more;
      if AllOk(replies) {
        forall i | 0 <= i < |more| ensures more[i].ok {
          assert replies[i + 1].ok;
        }
        assert replies[0].ok;
        assert r'.Rest() == r.Rest()[|got.bytes|..];
        assert Stored(replies) == [got.bytes] + Stored(more);
      }
    }
  }

  /** n calls of rio_readlineb with the same buffer. */
  function LineCalls(n: nat, limit: nat): seq<Call> {
    if n == 0 then [] else [Line(limit)] + LineCalls(n - 1, limit)
  }

  lemma {:induction false} CursorReadsPieces(s: string, limit: nat)
    requires limit > 0
    ensures CursorAnswers(s, LineCalls(|Pieces(s, limit)|, limit)) == Pieces(s, limit)
    decreases |s|
  {
    hide FirstLine;
    if s != "" {
      var line := FirstLine(s, limit);
      PiecesStep(s, limit);
      CursorReadsPieces(s[|line|..], limit);
      var calls := LineCalls(|Pieces(s[|line|..], limit)|, limit);
      assert LineCalls(|Pieces(s, limit)|, limit) == [Line(limit)] + calls;
      assert ([Line(limit)] + calls)[1..] == calls;
    }
  }

  /** Reading lines to the end of the stream yields its pieces, under every schedule. */
  lemma ReaderReadsPieces(r: Reader, limit: nat)
    requires limit > 0 && NeverFails(r.source)
    ensures
      var pieces := Pieces(r.Rest(), limit);
      var replies := Answers(r, LineCalls(|pieces|, limit)).0;
      AllOk(replies) && Stored(replies) == pieces
  {
    ReaderRefinesCursor(r, LineCalls(|Pieces(r.Rest(), limit)|, limit));
    CursorReadsPieces(r.Rest(), limit);
  }

  lemma Cancel(first: string, a: string, b: string)
    requires first + a == first + b
    ensures a == b
  {
    assert (first + a)[|first|..] == a;
    assert (first + b)[|first|..] == b;
  }

  /** Chunking is invisible: two readers that still have the same bytes to come answer every mix of
      calls alike, however each has buffered them and however each kernel will cut and interrupt. */
  lemma ChunkingIndependence(r1: Reader, r2: Reader, calls: seq<Call>)
    requires r1.Rest() == r2.Rest()
    requires NeverFails(r1.source) && NeverFails(r2.source)
    ensures Answers(r1, calls).0 == Answers(r2, calls).0
    ensures Answers(r1, calls).1.Rest() == Answers(r2, calls).1.Rest()
  {
    ReaderRefinesCursor(r1, calls);
    ReaderRefinesCursor(r2, calls);
    var a1, a2 := Answers(r1, calls).0, Answers(r2, calls).0;
    forall i | 0 <= i < |calls| ensures a1[i] == a2[i] {
      assert a1[i].ok && a2[i].ok;
      assert Stored(a1)[i] == Stored(a2)[i];
    }
    RunConserves(r1, calls);
    RunConserves(r2, calls);
    assert a1 == a2;
    Cancel(Concat(Stored(a1)), Answers(r1, calls).1.Rest(), Answers(r2, calls).1.Rest());
  }

  /** rio_writen: what the kernel ends up accepting of `data`, and the plan that is left. */
  function WriteN(plan: seq<WriteOutcome>, data: string): (Reply, seq<WriteOutcome>)
    decreases |plan|
  {
    if data == "" then
      (Reply(true, ""), plan)
    else if plan == [] then
      (Reply(true, data), [])
    else
      match plan[0]
      case Accept(count) =>
        var m := Min(Max(1, count), |data|);
        var (more, left) := WriteN(plan[1..], data[m..]);
        (Reply(more.ok, data[..m] + more.bytes), left)
      case Nothing(stale) =>
        if stale == Eintr then WriteN(plan[1..], data) else (Reply(false, ""), plan[1..])
      case WriteInterrupted => WriteN(plan[1..], data)
      case WriteFailed => (Reply(false, ""), plan[1..])
  }

  /** The write outcomes that rio_writen does not retry. */
  predicate IsHard(w: WriteOutcome) {
    w == WriteFailed || w == Nothing(Other)
  }

  /** How many bytes the plan is sure to accept before its first hard outcome. */
  function Capacity(plan: seq<WriteOutcome>): nat {
    if plan == [] || IsHard(plan[0]) then
      0
    else
      (if plan[0].Accept? then Max(1, plan[0].count) else 0) + Capacity(plan[1..])
  }

  /** Either all of data is accepted, in order, or a proper beginning of it. It is all accepted
      exactly when the plan has no hard outcome or has room for all the bytes before the first. */
  lemma {:induction false} WriteNLaw(plan: seq<WriteOutcome>, data: string)
    ensures
      var (got, left) := WriteN(plan, data);
      && (got.ok ==> got.bytes == data)
      && (!got.ok ==> got.bytes < data)
      && (got.ok <==> (forall w :: w in plan ==> !IsHard(w)) || |data| <= Capacity(plan))
      && (forall w :: w in left ==> w in plan)
    decreases |plan|
  {
    if data != "" && plan != [] {
      assert plan == [plan[0]] + plan[1..];
      match plan[0] {
        case Accept(count) =>
          var m := Min(Max(1, count), |data|);
          WriteNLaw(plan[1..], data[m..]);
          assert data == data[..m] + data[m..];
        case Nothing(stale) =>
          if stale == Eintr {
            WriteNLaw(plan[1..], data);
          } else {
            assert IsHard(plan[0]);
          }
        case WriteInterrupted => WriteNLaw(plan[1..], data);
        case WriteFailed => assert IsHard(plan[0]);
      }
    }
  }

  /** `out` is `base` followed by a beginning of `wanted`. */
  ghost predicate Partly(base: string, wanted: string, out: string) {
    base <= out <= base + wanted
  }

  lemma NothingSent(base: string, wanted: string)
    ensures Partly(base, wanted, base) && base + "" == base
  {
  }

  lemma PartlySent(base: string, sent: string, reply: string, part: string, wanted: string)
    requires sent + reply <= wanted && part <= reply
    ensures Partly(base, wanted, base + sent + part)
    ensures part == "" ==> base + sent + part == base + sent
    ensures part == reply ==> base + sent + part == base + (sent + reply)
  {
  }
}
