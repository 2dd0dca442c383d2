/** The Rio package as it runs: loops over a caller's buffer and, for the buffered calls, over an
    8192-byte buffer with a cursor and a count. Each is proved to compute what RioSpec defines. */
module Rio {
  import opened Kernel
  import opened Lines
  import opened RioSpec
  import opened CStrings

  /** `bytes` written into `was` from index `off` on. */
  function Overwrite(was: string, off: nat, bytes: string): (now: string)
    requires off + |bytes| <= |was|
    ensures |now| == |was|
  {
    seq(|was|, i requires 0 <= i < |was| => if off <= i < off + |bytes| then bytes[i - off] else was[i])
  }

  lemma OverwriteTwice(was: string, off: nat, a: string, b: string)
    requires off + |a| + |b| <= |was|
    ensures Overwrite(Overwrite(was, off, a), off + |a|, b) == Overwrite(was, off, a + b)
  {
  }

  lemma OverwriteAll(was: string, bytes: string)
    requires |bytes| == |was|
    ensures Overwrite(was, 0, bytes) == bytes
  {
  }

  lemma OverwriteNothing(was: string, off: nat)
    requires off <= |was|
    ensures Overwrite(was, off, "") == was
  {
  }

  /** memcpy(dst + off, src + from, n) */
  method Memcpy(dst: array<char>, off: nat, src: array<char>, from: nat, n: nat)
    requires dst != src && off + n <= dst.Length && from + n <= src.Length
    modifies dst
    ensures dst[..] == Overwrite(old(dst[..]), off, src[from..from + n])
  {
    forall j | 0 <= j < n {
      dst[off + j] := src[from + j];
    }
  }

  /** dst[off] = c */
  method Store(dst: array<char>, off: nat, c: char)
    requires off < dst.Length
    modifies dst
    ensures dst[..] == Overwrite(old(dst[..]), off, [c])
  {
    dst[off] := c;
  }

  class RioT {
    var rioFd: Descriptor
    var rioCnt: int
    var rioBufptr: nat             // an index into rioBuf
    const rioBuf: array<char>

    ghost predicate Valid()
      reads this
    {
      && rioBuf.Length == RIO_BUFSIZE
      && rioBufptr + Max(rioCnt, 0) <= RIO_BUFSIZE
    }

    ghost function View(): Reader
      requires Valid()
      reads this, rioBuf, rioFd`incoming, rioFd`readPlan
    {
      Reader(rioBuf[rioBufptr..rioBufptr + Max(rioCnt, 0)], rioFd.Input())
    }

    /** Declaring a rio_t and calling rio_readinitb on it. */
    constructor ReadInitB(fd: Descriptor)
      ensures Valid() && fresh(rioBuf)
      ensures rioFd == fd
      ensures View() == Reader("", fd.Input()) && View().Rest() == fd.incoming
    {
      rioBuf := new char[RIO_BUFSIZE];
      rioFd := fd;
      rioCnt := 0;
      rioBufptr := 0;
    }

    /** The loop at the head of rio_read: returns 1 with bytes in the buffer, 0 at the end of the
        stream, -1 on an error other than an interrupt. */
    method Refill(ghost n: nat) returns (status: int)
      requires Valid()
      modifies this`rioCnt, this`rioBufptr, rioBuf, rioFd`incoming, rioFd`readPlan
      ensures Valid()
      ensures
        && (status == 1 ==> rioCnt > 0 && RioSpec.RioRead(View(), n) == RioSpec.RioRead(old(View()), n))
        && (status == 0 ==> RioSpec.RioRead(old(View()), n) == (Reply(true, ""), View()))
        && (status == -1 ==> RioSpec.RioRead(old(View()), n) == (Reply(false, ""), View()))
        && -1 <= status <= 1
    {
      while rioCnt <= 0
        invariant Valid()
        invariant RioSpec.RioRead(View(), n) == RioSpec.RioRead(old(View()), n)
        decreases if rioCnt <= 0 then |rioFd.readPlan| + 1 else 0
      {
        ghost var before := View();
        assert before == Reader("", rioFd.Input());
        var errno;
        rioCnt, errno := rioFd.Read(rioBuf, 0, RIO_BUFSIZE);
        ghost var (res, k) := ReadStep(before.source, RIO_BUFSIZE);
        if rioCnt < 0 {
          assert View() == Reader("", k);
          if errno != Eintr {
            return -1;
          }
        } else if rioCnt == 0 {
          assert res.bytes == "";
          assert View() == Reader("", k);
          return 0;
        } else {
          rioBufptr := 0;
          assert rioBuf[0..rioCnt] == res.bytes;
          assert View() == Reader(res.bytes, k);
        }
      }
      return 1;
    }

    method RioRead(usrbuf: array<char>, off: nat, n: nat) returns (cnt: int)
      requires Valid() && usrbuf != rioBuf
      requires off + n <= usrbuf.Length
      modifies this`rioCnt, this`rioBufptr, rioBuf, rioFd`incoming, rioFd`readPlan, usrbuf
      ensures Valid()
      ensures
        var (got, after) := RioSpec.RioRead(old(View()), n);
        && View() == after
        && |got.bytes| <= n
        && cnt == (if got.ok then |got.bytes| else -1)
        && usrbuf[..] == Overwrite(old(usrbuf[..]), off, got.bytes)
    {
      OverwriteNothing(usrbuf[..], off);
      var status := Refill(n);
      if status <= 0 {
        return status;
      }
      cnt := CopyOut(usrbuf, off, n);
    }

    /** The tail of rio_read: move min(n, rioCnt) bytes from the internal buffer to the caller. */
    method CopyOut(usrbuf: array<char>, off: nat, n: nat) returns (cnt: nat)
      requires Valid() && usrbuf != rioBuf && rioCnt > 0
      requires off + n <= usrbuf.Length
      modifies this`rioCnt, this`rioBufptr, usrbuf
      ensures Valid()
      ensures cnt == Min(n, |old(View()).unread|)
      ensures View() == old(View()).(unread := old(View()).unread[cnt..])
      ensures usrbuf[..] == Overwrite(old(usrbuf[..]), off, old(View()).unread[..cnt])
    {
      cnt := n;
      if rioCnt < n {
        cnt := rioCnt;
      }
      ghost var unread := View().unread;
      assert rioBuf[rioBufptr..rioBufptr + cnt] == unread[..cnt];
      Memcpy(usrbuf, off, rioBuf, rioBufptr, cnt);
      rioBufptr := rioBufptr + cnt;
      rioCnt := rioCnt - cnt;
      assert View().unread == unread[cnt..];
    }

    method ReadNB(usrbuf: array<char>, n: nat) returns (count: int)
      requires Valid() && usrbuf != rioBuf
      requires n <= usrbuf.Length
      modifies this`rioCnt, this`rioBufptr, rioBuf, rioFd`incoming, rioFd`readPlan, usrbuf
      ensures Valid()
      ensures
        var (got, after) := ReadBytes(old(View()), n);
        && View() == after
        && |got.bytes| <= n
        && count == (if got.ok then |got.bytes| else -1)
        && usrbuf[..] == Overwrite(old(usrbuf[..]), 0, got.bytes)
    {
      hide ReadBytes, RioSpec.RioRead, Continues;
      var nleft: nat, bufp: nat := n, 0;
      ghost var first, was := View(), usrbuf[..];
      ghost var stored := "";
      OverwriteNothing(was, 0);
      ContinuesAtFirst(first, n);
      while nleft > 0
        invariant Valid() && nleft + bufp == n <= |was| && |stored| == bufp
        invariant usrbuf[..] == Overwrite(was, 0, stored)
        invariant Continues(first, n, stored, View(), nleft)
      {
        ghost var before := View();
        ContinuesNext(first, n, stored, before, nleft);
        var nread := RioRead(usrbuf, bufp, nleft);
        ghost var got := RioSpec.RioRead(before, nleft).0;
        OverwriteTwice(was, 0, stored, got.bytes);
        stored := stored + got.bytes;
        if nread < 0 {
          return -1;
        } else if nread == 0 {
          break;
        }
        nleft := nleft - nread;
        bufp := bufp + nread;
      }
      ContinuesLast(first, n, stored, View());
      count := n - nleft;
    }

    /** rio_readlineb. At the end of the stream it returns 0 without storing the terminator. */
    method ReadLineB(usrbuf: array<char>, maxlen: nat) returns (count: int)
      requires Valid() && usrbuf != rioBuf
      requires 1 <= usrbuf.Length && maxlen <= usrbuf.Length
      modifies this`rioCnt, this`rioBufptr, rioBuf, rioFd`incoming, rioFd`readPlan, usrbuf
      ensures Valid()
      ensures
        var (got, after) := ReadLine(old(View()), Max(maxlen, 1) - 1);
        && View() == after
        && |got.bytes| <= Max(maxlen, 1) - 1
        && count == (if got.ok then |got.bytes| else -1)
        && usrbuf[..] ==
             (if got.ok && (got.bytes != "" || maxlen <= 1) then
                Overwrite(old(usrbuf[..]), 0, got.bytes + [NUL])
              else
                Overwrite(old(usrbuf[..]), 0, got.bytes))
    {
      hide ReadLine, RioSpec.RioRead, Reading, Overwrite;
      var n: nat, bufp: nat := 1, 0;
      var c := new char[1];
      ghost var limit := Max(maxlen, 1) - 1;
      ghost var first, was := View(), usrbuf[..];
      ghost var stored := "";
      ReadingStarts(first, limit, was);
      while n < maxlen
        invariant Valid() && bufp == |stored| == n - 1 <= limit
        invariant Reading(first, limit, was, stored, View(), usrbuf[..])
      {
        ghost var before := View();
        ReadingNext(first, limit, was, stored, before, usrbuf[..], c[..]);
        var rc := RioRead(c, 0, 1);
        if rc == 1 {
          Store(usrbuf, bufp, c[0]);
          bufp := bufp + 1;
          stored := stored + [c[0]];
          if c[0] == '\n' {
            n := n + 1;
            break;
          }
        } else if rc == 0 {
          if n == 1 {
            return 0;
          } else {
            break;
          }
        } else {
          return -1;
        }
        n := n + 1;
      }
      ReadingEnds(first, limit, was, stored, View(), usrbuf[..]);
      Store(usrbuf, bufp, NUL);
      count := n - 1;
    }

    /** Rio_readlineb, as its callers see it: the next line of whatever is still to come, with no
        trace of buffers or chunks. The wrapper ends the process where this returns -1. */
    method NextLine(usrbuf: array<char>, maxlen: nat) returns (n: int)
      requires Valid() && usrbuf != rioBuf
      requires 1 <= usrbuf.Length && maxlen <= usrbuf.Length
      modifies this`rioCnt, this`rioBufptr, rioBuf, rioFd`incoming, rioFd`readPlan, usrbuf
      ensures Valid()
      ensures
        var line := FirstLine(old(View()).Rest(), Max(maxlen, 1) - 1);
        && (n >= 0 ==>
              && n == |line|
              && View().Rest() == old(View()).Rest()[n..]
              && (View().Rest() == "" ==> rioFd.incoming == "")
              && (n > 0 ==> n < usrbuf.Length && usrbuf[..n] == line && usrbuf[n] == NUL))
        && (n < 0 ==> n == -1 && !NeverFails(old(View()).source))
      ensures n >= 0 <==> ReadLine(old(View()), Max(maxlen, 1) - 1).0.ok
      ensures NeverFails(old(View()).source) ==> NeverFails(View().source)
      ensures View() == ReadLine(old(View()), Max(maxlen, 1) - 1).1 && View().source == rioFd.Input()
    {
      hide ReadLine, FirstLine, NeverFails;
      ghost var before, was := View(), usrbuf[..];
      ReadLineLaw(before, Max(maxlen, 1) - 1);
      n := ReadLineB(usrbuf, maxlen);
      ghost var got := ReadLine(before, Max(maxlen, 1) - 1).0;
      if n > 0 {
        assert usrbuf[..n] == got.bytes;
      }
    }
  }

  /** The loop of rio_readlineb after `stored` bytes: they are in the caller's buffer, and what is left
      to do is a rio_readlineb of the rest. */
  ghost predicate Reading(first: Reader, limit: nat, was: string, stored: string, now: Reader, buf: string) {
    && |stored| <= limit < |was|
    && buf == Overwrite(was, 0, stored)
    && LineContinues(first, limit, stored, now, limit - |stored|)
  }

  /** The line has been read, or the call has failed, and the loop is over. */
  ghost predicate Finished(first: Reader, limit: nat, was: string, ok: bool, stored: string, now: Reader, buf: string) {
    && |stored| <= limit < |was|
    && buf == Overwrite(was, 0, stored)
    && ReadLine(first, limit) == (Reply(ok, stored), now)
  }

  lemma ReadingStarts(first: Reader, limit: nat, was: string)
    requires limit < |was|
    ensures Reading(first, limit, was, "", first, was)
  {
    OverwriteNothing(was, 0);
    LineContinuesAtFirst(first, limit);
  }

  /** One byte: what rio_read puts into the cell, and where the loop stands then. */
  lemma ReadingNext(first: Reader, limit: nat, was: string, stored: string, now: Reader, buf: string, cell: string)
    requires Reading(first, limit, was, stored, now, buf) && |stored| < limit && |cell| == 1
    ensures
      var (got, after) := RioSpec.RioRead(now, 1);
      && |got.bytes| <= 1
      && if got.ok && got.bytes != "" then
           var c := Overwrite(cell, 0, got.bytes)[0];
           var next := Overwrite(buf, |stored|, [c]);
           if c == '\n' then Finished(first, limit, was, true, stored + [c], after, next)
           else Reading(first, limit, was, stored + [c], after, next)
         else
           Finished(first, limit, was, got.ok, stored, after, buf)
  {
    hide RioSpec.RioRead, ReadLine, LineContinues, Overwrite;
    LineContinuesNext(first, limit, stored, now, limit - |stored|);
    var got := RioSpec.RioRead(now, 1).0;
    if got.ok && got.bytes != "" {
      assert got.bytes == [got.bytes[0]];
      OverwriteAll(cell, got.bytes);
      OverwriteTwice(was, 0, stored, got.bytes);
    } else {
      assert stored + got.bytes == stored;
    }
  }

  /** After the loop: the line is read, and the terminator goes behind it. */
  lemma ReadingEnds(first: Reader, limit: nat, was: string, stored: string, now: Reader, buf: string)
    requires || Finished(first, limit, was, true, stored, now, buf)
             || (Reading(first, limit, was, stored, now, buf) && |stored| == limit)
    ensures Finished(first, limit, was, true, stored, now, buf)
    ensures Overwrite(buf, |stored|, [NUL]) == Overwrite(was, 0, stored + [NUL])
  {
    LineContinuesLast(first, limit, stored, now);
    OverwriteTwice(was, 0, stored, [NUL]);
  }

  /** After `stored` bytes of a rio_readlineb, what is left to do is a rio_readlineb of `left`. */
  ghost predicate LineContinues(first: Reader, limit: nat, stored: string, now: Reader, left: nat) {
    var (more, last) := ReadLine(now, left);
    ReadLine(first, limit) == (Reply(more.ok, stored + more.bytes), last)
  }

  lemma LineContinuesAtFirst(first: Reader, limit: nat)
    ensures LineContinues(first, limit, "", first, limit)
  {
    var more := ReadLine(first, limit).0;
    assert "" + more.bytes == more.bytes;
  }

  lemma LineContinuesLast(first: Reader, limit: nat, stored: string, now: Reader)
    ensures LineContinues(first, limit, stored, now, 0) <==> ReadLine(first, limit) == (Reply(true, stored), now)
  {
    assert stored + "" == stored;
  }

  lemma LineContinuesNext(first: Reader, limit: nat, stored: string, now: Reader, left: nat)
    requires LineContinues(first, limit, stored, now, left) && left > 0
    ensures
      var (got, after) := RioSpec.RioRead(now, 1);
      && |got.bytes| <= 1
      && (!got.ok ==> got.bytes == "")
      && (if got.ok && got.bytes != "" && got.bytes[0] != '\n' then
            LineContinues(first, limit, stored + got.bytes, after, left - 1)
          else
            ReadLine(first, limit) == (Reply(got.ok, stored + got.bytes), after))
  {
    RioReadLaw(now, 1);
    var (got, after) := RioSpec.RioRead(now, 1);
    if got.ok && got.bytes != "" {
      assert got.bytes == [got.bytes[0]];
      if got.bytes[0] != '\n' {
        assert got.bytes != "\n";
        var more := ReadLine(after, left - 1).0;
        assert stored + (got.bytes + more.bytes) == stored + got.bytes + more.bytes;
      } else {
        assert got.bytes == "\n";
      }
    }
  }

  /** After `stored` bytes of a rio_readnb of n, what is left to do is a rio_readnb of nleft. */
  ghost predicate Continues(first: Reader, n: nat, stored: string, now: Reader, nleft: nat) {
    var (more, last) := ReadBytes(now, nleft);
    ReadBytes(first, n) == (Reply(more.ok, stored + more.bytes), last)
  }

  lemma ContinuesAtFirst(first: Reader, n: nat)
    ensures Continues(first, n, "", first, n)
  {
    var more := ReadBytes(first, n).0;
    assert "" + more.bytes == more.bytes;
  }

  lemma ContinuesLast(first: Reader, n: nat, stored: string, now: Reader)
    ensures Continues(first, n, stored, now, 0) <==> ReadBytes(first, n) == (Reply(true, stored), now)
  {
    assert stored + "" == stored;
  }

  lemma ContinuesNext(first: Reader, n: nat, stored: string, now: Reader, nleft: nat)
    requires Continues(first, n, stored, now, nleft) && nleft > 0
    ensures
      var (got, after) := RioSpec.RioRead(now, nleft);
      && |got.bytes| <= nleft
      && (!got.ok ==> got.bytes == "")
      && (if got.ok && got.bytes != "" then
            Continues(first, n, stored + got.bytes, after, nleft - |got.bytes|)
          else
            ReadBytes(first, n) == (Reply(got.ok, stored + got.bytes), after))
  {
    RioReadLaw(now, nleft);
    var (got, after) := RioSpec.RioRead(now, nleft);
    if got.ok && got.bytes != "" {
      var more := ReadBytes(after, nleft - |got.bytes|).0;
      assert stored + (got.bytes + more.bytes) == stored + got.bytes + more.bytes;
    }
  }

  /** rio_readn, the unbuffered reader. */
  method ReadNUnbuffered(fd: Descriptor, usrbuf: array<char>, n: nat) returns (count: int)
    requires n <= usrbuf.Length
    modifies fd`incoming, fd`readPlan, usrbuf
    ensures
      var (got, after) := ReadN(old(fd.Input()), n);
      && fd.Input() == after
      && |got.bytes| <= n
      && count == (if got.ok then |got.bytes| else -1)
      && usrbuf[..] == Overwrite(old(usrbuf[..]), 0, got.bytes)
  {
    hide ReadN, Overwrite, ReadNContinues;
    var nleft: nat, bufp: nat := n, 0;
    ghost var first, was := fd.Input(), usrbuf[..];
    ghost var stored := "";
    OverwriteNothing(was, 0);
    ReadNContinuesAtFirst(first, n);
    while nleft > 0
      invariant nleft + bufp == n <= |was| && |stored| == bufp
      invariant usrbuf[..] == Overwrite(was, 0, stored)
      invariant ReadNContinues(first, n, stored, fd.Input(), nleft)
      decreases nleft, |fd.readPlan|
    {
      ghost var before, held := fd.Input(), usrbuf[..];
      ReadNContinuesNext(first, n, stored, before, nleft);
      ReadStepLaw(before, nleft);
      var nread, errno := fd.Read(usrbuf, bufp, nleft);
      ghost var res := ReadStep(before, nleft).0;
      if nread < 0 {
        if errno == Eintr {
          nread := 0;
        } else {
          return -1;
        }
      } else if nread == 0 {
        assert res.bytes == "";
        OverwriteNothing(held, bufp);
        OverwriteIsSplice(held, bufp, "");
        break;
      } else {
        OverwriteIsSplice(held, bufp, res.bytes);
        OverwriteTwice(was, 0, stored, res.bytes);
        stored := stored + res.bytes;
      }
      nleft := nleft - nread;
      bufp := bufp + nread;
    }
    ReadNContinuesLast(first, n, stored, fd.Input());
    count := n - nleft;
  }

  lemma OverwriteIsSplice(was: string, off: nat, bytes: string)
    requires off + |bytes| <= |was|
    ensures Overwrite(was, off, bytes) == was[..off] + bytes + was[off + |bytes|..]
  {
  }

  ghost predicate ReadNContinues(first: Source, n: nat, stored: string, now: Source, nleft: nat) {
    var (more, last) := ReadN(now, nleft);
    ReadN(first, n) == (Reply(more.ok, stored + more.bytes), last)
  }

  lemma ReadNContinuesAtFirst(first: Source, n: nat)
    ensures ReadNContinues(first, n, "", first, n)
  {
    var more := ReadN(first, n).0;
    assert "" + more.bytes == more.bytes;
  }

  lemma ReadNContinuesLast(first: Source, n: nat, stored: string, now: Source)
    ensures ReadNContinues(first, n, stored, now, 0) <==> ReadN(first, n) == (Reply(true, stored), now)
  {
    assert stored + "" == stored;
  }

  lemma ReadNContinuesNext(first: Source, n: nat, stored: string, now: Source, nleft: nat)
    requires ReadNContinues(first, n, stored, now, nleft) && nleft > 0
    ensures
      var (res, after) := ReadStep(now, nleft);
      if res.Data? then
        && |res.bytes| <= nleft
        && (if res.bytes == "" then ReadN(first, n) == (Reply(true, stored), after)
            else ReadNContinues(first, n, stored + res.bytes, after, nleft - |res.bytes|))
      else if res.errno == Eintr then
        ReadNContinues(first, n, stored, after, nleft)
      else
        ReadN(first, n) == (Reply(false, stored), after)
  {
    assert stored + "" == stored;
    match ReadStep(now, nleft) {
      case (Data(bytes), after) =>
        if bytes != "" {
          var more := ReadN(after, nleft - |bytes|).0;
          assert stored + (bytes + more.bytes) == stored + bytes + more.bytes;
        }
      case (ReadError(e), after) =>
    }
  }

  /** rio_writen. */
  method WriteNBytes(fd: Descriptor, usrbuf: array<char>, n: nat) returns (count: int)
    requires n <= usrbuf.Length
    modifies fd`outgoing, fd`writePlan
    ensures
      var (got, left) := WriteN(old(fd.writePlan), usrbuf[..n]);
      && fd.outgoing == old(fd.outgoing) + got.bytes
      && fd.writePlan == left
      && count == (if got.ok then n else -1)
  {
    hide WriteN, WriteContinues;
    var nleft: nat, bufp: nat := n, 0;
    ghost var plan, data := fd.writePlan, usrbuf[..n];
    ghost var sent := "";
    WriteContinuesAtFirst(plan, data);
    while nleft > 0
      invariant nleft + bufp == n
      invariant fd.outgoing == old(fd.outgoing) + sent
      invariant WriteContinues(plan, data, sent, fd.writePlan, data[bufp..])
      decreases nleft, |fd.writePlan|
    {
      ghost var now, rest := fd.writePlan, data[bufp..];
      WriteContinuesNext(plan, data, sent, now, rest);
      var nwritten, errno := fd.Write(usrbuf, bufp, nleft);
      if nwritten <= 0 {
        if errno == Eintr {
          nwritten := 0;
        } else {
          return -1;
        }
      } else {
        assert usrbuf[bufp..bufp + nwritten] == rest[..nwritten];
        assert rest[nwritten..] == data[bufp + nwritten..];
        sent := sent + rest[..nwritten];
      }
      nleft := nleft - nwritten;
      bufp := bufp + nwritten;
    }
    assert data[bufp..] == "";
    WriteContinuesLast(plan, data, sent, fd.writePlan);
    count := n;
  }

  ghost predicate WriteContinues(plan: seq<WriteOutcome>, data: string, sent: string,
                                 now: seq<WriteOutcome>, rest: string)
  {
    var (more, left) := WriteN(now, rest);
    WriteN(plan, data) == (Reply(more.ok, sent + more.bytes), left)
  }

  lemma WriteContinuesAtFirst(plan: seq<WriteOutcome>, data: string)
    ensures WriteContinues(plan, data, "", plan, data[0..])
  {
    assert data[0..] == data;
    var more := WriteN(plan, data).0;
    assert "" + more.bytes == more.bytes;
  }

  lemma WriteContinuesLast(plan: seq<WriteOutcome>, data: string, sent: string, now: seq<WriteOutcome>)
    ensures WriteContinues(plan, data, sent, now, "") <==> WriteN(plan, data) == (Reply(true, sent), now)
  {
    assert sent + "" == sent;
  }

  lemma WriteContinuesNext(plan: seq<WriteOutcome>, data: string, sent: string,
                           now: seq<WriteOutcome>, rest: string)
    requires WriteContinues(plan, data, sent, now, rest) && rest != ""
    ensures
      if now == [] then
        WriteContinues(plan, data, sent + rest[..|rest|], [], rest[|rest|..])
      else
        if now[0].Accept? then
          var m := Min(Max(1, now[0].count), |rest|);
          WriteContinues(plan, data, sent + rest[..m], now[1..], rest[m..])
        else if IsHard(now[0]) then
          WriteN(plan, data) == (Reply(false, sent), now[1..])
        else
          WriteContinues(plan, data, sent, now[1..], rest)
  {
    assert sent + "" == sent;
    if now == [] {
      assert rest[..|rest|] == rest && sent + rest + "" == sent + rest;
    } else if now[0].Accept? {
      var m := Min(Max(1, now[0].count), |rest|);
      var more := WriteN(now[1..], rest[m..]).0;
      assert sent + (rest[..m] + more.bytes) == sent + rest[..m] + more.bytes;
    }
  }
}
