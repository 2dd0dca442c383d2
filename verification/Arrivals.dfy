/** What the reads of a schedule bring, one after the other, and what that means for the readers: when
    a call fails, and how many reads one call uses up. */
module Arrivals {
  import opened Kernel
  import opened Lines
  import opened RioSpec

  /** The bytes of each read() of at most `size` bytes, up to a hard error or the end of the stream. */
  function Chunks(k: Source, size: nat): (cs: seq<string>)
    ensures "" !in cs
    decreases |k.incoming|, |k.schedule|
  {
    match ReadStep(k, size)
    case (Data(bytes), k') => if bytes == "" then [] else [bytes] + Chunks(k', size)
    case (ReadError(Eintr), k') => Chunks(k', size)
    case (ReadError(Other), k') => []
  }

  /** A hard error comes before the end of the stream. */
  predicate Broken(k: Source, size: nat)
    decreases |k.incoming|, |k.schedule|
  {
    var (res, k') := ReadStep(k, size);
    if res.Data? then res.bytes != "" && Broken(k', size) else res.errno == Other || Broken(k', size)
  }

  lemma ChunksStep(k: Source, size: nat)
    ensures
      var (res, k') := ReadStep(k, size);
      if res == Data("") then
        Chunks(k, size) == [] && !Broken(k, size)
      else if res.Data? then
        Chunks(k, size) == [res.bytes] + Chunks(k', size) && Broken(k, size) == Broken(k', size)
      else if res == ReadError(Eintr) then
        Chunks(k, size) == Chunks(k', size) && Broken(k, size) == Broken(k', size)
      else
        Chunks(k, size) == [] && Broken(k, size)
  {
  }

  /** The reads bring a beginning of the stream, and all of it unless a hard error comes first. */
  lemma {:induction false} ChunksConcat(k: Source, size: nat)
    requires size > 0
    ensures Concat(Chunks(k, size)) <= k.incoming
    ensures !Broken(k, size) ==> Concat(Chunks(k, size)) == k.incoming
    ensures NeverFails(k) ==> !Broken(k, size)
    decreases |k.incoming|, |k.schedule|
  {
    ReadStepLaw(k, size);
    match ReadStep(k, size) {
      case (Data(bytes), k') =>
        if bytes != "" {
          ChunksConcat(k', size);
          ConcatCons(bytes, Chunks(k', size));
        }
      case (ReadError(e), k') =>
        if e == Eintr {
          ChunksConcat(k', size);
        }
    }
  }

  lemma NoBytesNoChunks(cs: seq<string>)
    requires "" !in cs
    ensures Concat(cs) == "" <==> cs == []
  {
    if cs != [] {
      assert cs[0] in cs;
    }
  }

  /** All that the reader will have before a hard error or the end of the stream. */
  function Within(r: Reader): string {
    r.unread + Concat(Chunks(r.source, RIO_BUFSIZE))
  }

  /** A line that needs no further byte: it has its newline or fills the buffer. */
  predicate Complete(line: string, limit: nat) {
    |line| == limit || (line != "" && line[|line| - 1] == '\n')
  }

  /** rio_read fails exactly when it has nothing buffered and a hard error comes before any byte and
      before the end of the stream; otherwise what is still within reach is what it did not deliver. */
  lemma {:induction false} RioReadFails(r: Reader, n: nat)
    ensures
      var (got, r') := RioRead(r, n);
      && (!got.ok <==> Broken(r.source, RIO_BUFSIZE) && Within(r) == "")
      && (got.ok ==> Within(r) == got.bytes + Within(r'))
      && (got.ok && Within(r) != "" ==> Broken(r'.source, RIO_BUFSIZE) == Broken(r.source, RIO_BUFSIZE))
      && (got.ok && n > 0 && got.bytes == "" ==> Within(r) == "")
    decreases |r.source.schedule|
  {
    hide Chunks, Broken;
    if r.unread != "" {
      HandKeeps(r.unread, r.source, n);
    } else {
      ChunksStep(r.source, RIO_BUFSIZE);
      ReadStepLaw(r.source, RIO_BUFSIZE);
      assert Within(r) == Concat(Chunks(r.source, RIO_BUFSIZE));
      match ReadStep(r.source, RIO_BUFSIZE) {
        case (Data(bytes), k) =>
          HandKeeps(bytes, k, n);
          if bytes == "" {
            ChunksConcat(k, RIO_BUFSIZE);
          } else {
            ConcatCons(bytes, Chunks(k, RIO_BUFSIZE));
          }
        case (ReadError(Eintr), k) =>
          assert Within(Reader("", k)) == Within(r);
          RioReadFails(Reader("", k), n);
        case (ReadError(Other), k) =>
      }
    }
  }

  lemma HandKeeps(bytes: string, k: Source, n: nat)
    ensures
      var (got, r') := Hand(bytes, k, n);
      && bytes + Concat(Chunks(k, RIO_BUFSIZE)) == got.bytes + Within(r')
      && (n > 0 && got.bytes == "" ==> bytes == "")
  {
    var m := Min(n, |bytes|);
    assert bytes == bytes[..m] + bytes[m..];
  }

  /** rio_readnb fails exactly when a hard error comes before n bytes and before the end of the stream. */
  lemma {:induction false} ReadBytesFails(r: Reader, n: nat)
    ensures !ReadBytes(r, n).0.ok <==> Broken(r.source, RIO_BUFSIZE) && |Within(r)| < n
    decreases n
  {
    hide RioRead, Broken, Within;
    if n > 0 {
      RioReadFails(r, n);
      RioReadLaw(r, n);
      var (got, r') := RioRead(r, n);
      if got.ok && got.bytes != "" {
        ReadBytesFails(r', n - |got.bytes|);
      }
    }
  }

  /** rio_readlineb fails exactly when a hard error comes before the line is complete and before the
      end of the stream. */
  lemma {:induction false} ReadLineFails(r: Reader, limit: nat)
    ensures !ReadLine(r, limit).0.ok <==> Broken(r.source, RIO_BUFSIZE) && !Complete(FirstLine(Within(r), limit), limit)
    decreases limit
  {
    hide RioRead, Broken, Within;
    if limit > 0 {
      RioReadFails(r, 1);
      RioReadLaw(r, 1);
      var (got, r') := RioRead(r, 1);
      if got.ok && got.bytes != "" {
        var c := got.bytes[0];
        assert got.bytes == [c];
        HeadAndTail(c, Within(r), Within(r'));
        if c == '\n' {
          assert got.bytes == "\n";
        } else {
          ReadLineFails(r', limit - 1);
          CompleteNext(c, FirstLine(Within(r'), limit - 1), limit);
        }
      }
    }
  }

  lemma CompleteNext(c: char, line: string, limit: nat)
    requires limit > 0 && c != '\n'
    ensures Complete([c] + line, limit) <==> Complete(line, limit - 1)
  {
  }

  /** rio_readn fails exactly when a hard error comes before n bytes and before the end of the stream. */
  lemma {:induction false} ReadNFails(k: Source, n: nat, size: nat)
    requires n <= size && size > 0
    ensures !ReadN(k, n).0.ok <==> Broken(k, size) && |Concat(Chunks(k, size))| < n
    decreases n, |k.schedule|
  {
    hide Chunks, Broken;
    if n > 0 {
      ChunksStep(k, size);
      match ReadStep(k, n) {
        case (Data(bytes), k') =>
          var whole := ReadStep(k, size).0.bytes;
          assert bytes <= whole;
          ConcatCons(whole, Chunks(ReadStep(k, size).1, size));
          if bytes != "" && |bytes| < n {
            assert ReadStep(k, size) == ReadStep(k, n);
            ReadNFails(k', n - |bytes|, size);
          }
        case (ReadError(e), k') =>
          assert ReadStep(k, size) == ReadStep(k, n);
          if e == Eintr {
            ReadNFails(k', n, size);
          }
      }
    }
  }

  /** How many of the reads one rio_readlineb of a new rio_t uses up, in whole or in part. */
  function Used(cs: seq<string>, limit: nat): (m: nat)
    ensures m <= |cs|
    ensures m == 0 <==> cs == [] || limit == 0
    decreases |cs|
  {
    if cs == [] || limit == 0 then 0 else
    var line := FirstLine(cs[0], limit);
    if Complete(line, limit) then 1 else 1 + Used(cs[1..], limit - |line|)
  }

  lemma FirstLineStep(u: string, limit: nat)
    requires u != "" && limit > 0
    ensures
      var rest := FirstLine(u[1..], limit - 1);
      && FirstLine(u, limit) == (if u[0] == '\n' then "\n" else [u[0]] + rest)
      && (u[0] == '\n' ==> Complete("\n", limit))
  {
    assert u[..1] == [u[0]];
  }

  lemma LineFromNothing(limit: nat)
    ensures Concat([]) == "" && FirstLine("", limit) == ""
    ensures limit > 0 ==> !Complete("", limit)
    ensures forall s {:trigger FirstLine(s, 0)} :: FirstLine(s, 0) == "" && Complete("", 0)
  {
  }

  lemma CompleteOver(u: string, line: string, limit: nat)
    requires |u| < limit && !Complete(u, limit)
    ensures Complete(u + line, limit) <==> Complete(line, limit - |u|)
  {
  }

  /** The first line of a stream that begins with u. */
  lemma {:induction false} FirstLineOver(u: string, s: string, limit: nat)
    ensures
      var line := FirstLine(u, limit);
      if Complete(line, limit) then FirstLine(u + s, limit) == line
      else line == u && |u| < limit && FirstLine(u + s, limit) == u + FirstLine(s, limit - |u|)
    decreases |u|
  {
    hide FirstLine, Complete;
    LineFromNothing(limit);
    if u == "" {
      assert u + s == s;
      assert "" + FirstLine(s, limit) == FirstLine(s, limit);
    } else if limit > 0 {
      FirstLineStep(u, limit);
      FirstLineStep(u + s, limit);
      assert (u + s)[1..] == u[1..] + s;
      if u[0] != '\n' {
        FirstLineOver(u[1..], s, limit - 1);
        CompleteNext(u[0], FirstLine(u[1..], limit - 1), limit);
        LongerBy(u, FirstLine(s, if |u| <= limit then limit - |u| else 0));
      }
    }
  }

  lemma LongerBy(u: string, more: string)
    requires u != ""
    ensures u == [u[0]] + u[1..] && [u[0]] + (u[1..] + more) == u + more
  {
  }

  lemma ReadOne(u: string, k: Source)
    requires u != ""
    ensures RioRead(Reader(u, k), 1) == (Reply(true, [u[0]]), Reader(u[1..], k))
  {
    assert u[..1] == [u[0]];
  }

  lemma ReadLineStep(r: Reader, limit: nat, c: char, r': Reader)
    requires limit > 0 && RioRead(r, 1) == (Reply(true, [c]), r')
    ensures
      ReadLine(r, limit) ==
        if c == '\n' then (Reply(true, "\n"), r') else
        var (more, last) := ReadLine(r', limit - 1);
        (Reply(more.ok, [c] + more.bytes), last)
  {
    assert [c] == "\n" <==> c == '\n';
  }

  /** A line that is already in the buffer is read without touching the kernel; otherwise the whole
      buffer goes into it and the kernel is asked for the rest. */
  lemma {:induction false} LineInBuffer(u: string, k: Source, limit: nat)
    ensures
      var line := FirstLine(u, limit);
      if Complete(line, limit) then
        ReadLine(Reader(u, k), limit) == (Reply(true, line), Reader(u[|line|..], k))
      else
        && line == u && |u| < limit
        && var (more, last) := ReadLine(Reader("", k), limit - |u|);
           ReadLine(Reader(u, k), limit) == (Reply(more.ok, u + more.bytes), last)
    decreases limit
  {
    hide ReadLine, RioRead, FirstLine, Complete;
    LineFromNothing(limit);
    if limit == 0 {
      ReadNoLine(Reader(u, k));
    } else if u == "" {
      var more := ReadLine(Reader("", k), limit).0;
      assert "" + more.bytes == more.bytes;
    } else {
      var rest := FirstLine(u[1..], limit - 1);
      FirstLineStep(u, limit);
      ReadOne(u, k);
      ReadLineStep(Reader(u, k), limit, u[0], Reader(u[1..], k));
      if u[0] != '\n' {
        LineInBuffer(u[1..], k, limit - 1);
        CompleteNext(u[0], rest, limit);
        if Complete(rest, limit - 1) {
          assert u[1..][|rest|..] == u[1 + |rest|..];
        } else {
          LongerBy(u, ReadLine(Reader("", k), limit - |u|).0.bytes);
        }
      }
    }
  }

  lemma ReadNoLine(r: Reader)
    ensures ReadLine(r, 0) == (Reply(true, ""), r)
  {
  }

  /** One refill of an empty reader. */
  lemma RefillStep(k: Source, limit: nat)
    requires limit > 0
    ensures
      var (res, k') := ReadStep(k, RIO_BUFSIZE);
      if res == Data("") then
        ReadLine(Reader("", k), limit) == (Reply(true, ""), Reader("", k'))
      else if res.Data? then
        ReadLine(Reader("", k), limit) == ReadLine(Reader(res.bytes, k'), limit)
      else if res == ReadError(Eintr) then
        ReadLine(Reader("", k), limit) == ReadLine(Reader("", k'), limit)
      else
        !ReadLine(Reader("", k), limit).0.ok
  {
    var (res, k') := ReadStep(k, RIO_BUFSIZE);
    if res.Data? && res.bytes != "" {
      assert RioRead(Reader("", k), 1) == RioRead(Reader(res.bytes, k'), 1);
    }
  }

  /** A call of rio_readlineb on a new rio_t, told by the reads alone: it takes the first line of what
      they bring, and the reads it used up are gone, with all that they brought behind that line. */
  lemma {:induction false} LineFromChunks(k: Source, limit: nat)
    ensures
      var cs := Chunks(k, RIO_BUFSIZE);
      var line := FirstLine(Concat(cs), limit);
      var (got, r) := ReadLine(Reader("", k), limit);
      && (!got.ok <==> Broken(k, RIO_BUFSIZE) && !Complete(line, limit))
      && (got.ok ==>
            && got.bytes == line
            && Chunks(r.source, RIO_BUFSIZE) == cs[Used(cs, limit)..]
            && (cs[Used(cs, limit)..] == [] || Broken(r.source, RIO_BUFSIZE) == Broken(k, RIO_BUFSIZE)))
    decreases |k.incoming|, |k.schedule|
  {
    hide ReadLine, Chunks, Broken, FirstLine, Complete, ReadStep;
    LineFromNothing(limit);
    if limit == 0 {
      ReadNoLine(Reader("", k));
    } else {
      RefillStep(k, limit);
      ChunksStep(k, RIO_BUFSIZE);
      ReadStepLaw(k, RIO_BUFSIZE);
      match ReadStep(k, RIO_BUFSIZE) {
        case (Data(bytes), k') =>
          if bytes == "" {
            ChunksConcat(k', RIO_BUFSIZE);
            NoBytesNoChunks(Chunks(k', RIO_BUFSIZE));
          } else {
            var more := Chunks(k', RIO_BUFSIZE);
            ConcatCons(bytes, more);
            LineInBuffer(bytes, k', limit);
            FirstLineOver(bytes, Concat(more), limit);
            UsedStep(bytes, more, limit);
            if !Complete(FirstLine(bytes, limit), limit) {
              LineFromChunks(k', limit - |bytes|);
              CompleteOver(bytes, FirstLine(Concat(more), limit - |bytes|), limit);
            }
          }
        case (ReadError(e), k') =>
          if e == Eintr {
            LineFromChunks(k', limit);
          }
      }
    }
  }

  lemma UsedStep(c: string, more: seq<string>, limit: nat)
    requires limit > 0
    ensures
      var line := FirstLine(c, limit);
      Used([c] + more, limit) == if Complete(line, limit) then 1 else 1 + Used(more, limit - |line|)
  {
    assert ([c] + more)[1..] == more;
  }

}
