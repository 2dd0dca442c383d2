/** The operating system behind a descriptor: read() and write() may transfer any short count,
    be interrupted by a signal handler, or fail. */
module Kernel {

  /** The two values of errno that csapp.c tells apart. */
  datatype Errno = Eintr | Other

  /** What the kernel does with one read(): hand over up to `count` bytes, or report an error. */
  datatype ReadOutcome = Take(count: nat) | ReadInterrupted | ReadFailed

  /** What the kernel does with one write(). A write that returns 0 leaves errno as it was. */
  datatype WriteOutcome = Accept(count: nat) | Nothing(stale: Errno) | WriteInterrupted | WriteFailed

  /** The reading side of a descriptor: all bytes that will still arrive, and what the next reads
      will do. When the schedule is used up, every later read transfers as much as it can. Any
      terminating execution makes finitely many reads, so a finite schedule loses no generality. */
  datatype Source = Source(incoming: string, schedule: seq<ReadOutcome>)

  datatype ReadResult = Data(bytes: string) | ReadError(errno: Errno)

  function Min(a: int, b: int): int {
    if a <= b then a else b
  }

  function Max(a: int, b: int): int {
    if a >= b then a else b
  }

  /** One read() of at most n bytes. It returns no bytes only at the end of the stream. */
  function ReadStep(k: Source, n: nat): (ReadResult, Source) {
    if k.schedule == [] then
      var m := Min(n, |k.incoming|);
      (Data(k.incoming[..m]), Source(k.incoming[m..], []))
    else
      var rest := k.schedule[1..];
      match k.schedule[0]
      case Take(count) =>
        var m := Min(Max(1, count), Min(n, |k.incoming|));
        (Data(k.incoming[..m]), Source(k.incoming[m..], rest))
      case ReadInterrupted => (ReadError(Eintr), k.(schedule := rest))
      case ReadFailed => (ReadError(Other), k.(schedule := rest))
  }

  /** No read of this source ever fails for a reason other than an interrupt. */
  ghost predicate NeverFails(k: Source) {
    ReadFailed !in k.schedule
  }

  class Descriptor {
    var incoming: string            // bytes that read() has not handed over yet
    var readPlan: seq<ReadOutcome>
    var outgoing: string            // bytes that write() has accepted so far
    var writePlan: seq<WriteOutcome>

    constructor (incoming: string, readPlan: seq<ReadOutcome>, writePlan: seq<WriteOutcome>)
      ensures this.incoming == incoming && this.readPlan == readPlan
      ensures this.outgoing == "" && this.writePlan == writePlan
    {
      this.incoming, this.readPlan, this.outgoing, this.writePlan := incoming, readPlan, "", writePlan;
    }

    function Input(): Source
      reads this`incoming, this`readPlan
    {
      Source(incoming, readPlan)
    }

    /** read(fd, buf + off, n) */
    method Read(buf: array<char>, off: nat, n: nat) returns (nread: int, errno: Errno)
      requires off + n <= buf.Length
      modifies this`incoming, this`readPlan, buf
      ensures
        var (r, k) := ReadStep(old(Input()), n);
        && Input() == k
        && match r
           case Data(bytes) =>
             && nread == |bytes| <= n
             && buf[..] == old(buf[..off]) + bytes + old(buf[off + |bytes|..])
           case ReadError(e) => nread == -1 && errno == e && buf[..] == old(buf[..])
    {
      errno := Other;
      ghost var was := buf[..];
      var (r, k) := ReadStep(Source(incoming, readPlan), n);
      incoming, readPlan := k.incoming, k.schedule;
      match r {
        case Data(bytes) =>
          forall j | 0 <= j < |bytes| {
            buf[off + j] := bytes[j];
          }
          nread := |bytes|;
          assert buf[..] == was[..off] + bytes + was[off + |bytes|..];
        case ReadError(e) =>
          nread, errno := -1, e;
      }
    }

    /** write(fd, buf + off, n), for n > 0 */
    method Write(buf: array<char>, off: nat, n: nat) returns (nwritten: int, errno: Errno)
      requires 0 < n && off + n <= buf.Length
      modifies this`outgoing, this`writePlan
      ensures
        if old(writePlan) == [] then
          nwritten == n && outgoing == old(outgoing) + buf[off..off + n] && writePlan == []
        else
          && writePlan == old(writePlan)[1..]
          && match old(writePlan)[0]
             case Accept(count) =>
               && nwritten == Min(Max(1, count), n)
               && outgoing == old(outgoing) + buf[off..off + nwritten]
             case Nothing(stale) => nwritten == 0 && errno == stale && outgoing == old(outgoing)
             case WriteInterrupted => nwritten == -1 && errno == Eintr && outgoing == old(outgoing)
             case WriteFailed => nwritten == -1 && errno == Other && outgoing == old(outgoing)
    {
      errno := Other;
      if writePlan == [] {
        nwritten := n;
        outgoing := outgoing + buf[off..off + n];
      } else {
        var outcome := writePlan[0];
        writePlan := writePlan[1..];
        match outcome {
          case Accept(count) =>
            nwritten := Min(Max(1, count), n);
            outgoing := outgoing + buf[off..off + nwritten];
          case Nothing(stale) => nwritten, errno := 0, stale;
          case WriteInterrupted => nwritten, errno := -1, Eintr;
          case WriteFailed => nwritten, errno := -1, Other;
        }
      }
    }
  }
}
