/** Printing integers without stdio: sio_strlen, sio_reverse, sio_ltoa and sio_putl of csapp.c. */
module Sio {
  import opened Kernel
  import opened CStrings

  /** C's division and remainder: the quotient is truncated towards zero. */
  function TruncDiv(v: int, b: int): int
    requires b > 0
  {
    if v >= 0 then v / b else -((-v) / b)
  }

  function TruncMod(v: int, b: int): (m: int)
    requires b > 0
    ensures -b < m < b
    ensures v >= 0 ==> m == v % b
  {
    if v >= 0 then v % b else -((-v) % b)
  }

  /** ((c < 10) ? c + '0' : c - 10 + 'a') */
  function DigitChar(c: int): char
    requires -36 < c < 36
  {
    if c < 10 then (c + '0' as int) as char else (c - 10 + 'a' as int) as char
  }

  /** The digits in the order the division loop produces them, least significant first. */
  function Digits(v: int, b: int): (s: string)
    requires 2 <= b <= 36
    ensures s != ""
    decreases if v > 0 then v else 0
  {
    QuotientShrinks(v, b);
    [DigitChar(TruncMod(v, b))] + (if TruncDiv(v, b) > 0 then Digits(TruncDiv(v, b), b) else "")
  }

  function Reverse(s: string): (r: string)
    ensures |r| == |s|
  {
    if s == "" then "" else Reverse(s[1..]) + [s[0]]
  }

  lemma {:induction false} ReverseAt(s: string, k: nat)
    requires k < |s|
    ensures Reverse(s)[k] == s[|s| - 1 - k]
  {
    if k < |s| - 1 {
      ReverseAt(s[1..], k);
    }
  }

  lemma ReverseLast(s: string)
    requires s != ""
    ensures Reverse(s)[..|s| - 1] == Reverse(s[1..]) && Reverse(s)[|s| - 1] == s[0]
  {
  }

  function Ltoa(v: int, b: int): string
    requires 2 <= b <= 36
  {
    Reverse(Digits(v, b))
  }

  /** Reading numerals, with no reference to how they are printed. */
  function DigitValue(c: char): int {
    if '0' <= c <= '9' then c as int - '0' as int
    else if 'a' <= c <= 'z' then c as int - 'a' as int + 10
    else -1
  }

  predicate IsNumeral(s: string, b: int) {
    && s != ""
    && (forall c :: c in s ==> 0 <= DigitValue(c) < b)
    && (s[0] == '0' ==> |s| == 1)
  }

  function Value(s: string, b: int): int {
    if s == "" then 0 else Value(s[..|s| - 1], b) * b + DigitValue(s[|s| - 1])
  }

  lemma ValueAppend(s: string, c: char, b: int)
    ensures Value(s + [c], b) == Value(s, b) * b + DigitValue(c)
  {
  }

  lemma DivMod(q: int, d: int, b: int)
    requires 0 <= d < b && 0 <= q
    ensures (q * b + d) / b == q && (q * b + d) % b == d
  {
    var v := q * b + d;
    var t, r := v / b, v % b;
    assert v == b * t + r;
    assert b * (t - q) == b * t - b * q;
    MulBound(b, t - q);
  }

  lemma MulBound(b: int, e: int)
    requires b > 0
    ensures e >= 1 ==> b * e >= b
    ensures e <= -1 ==> b * e <= -b
  {
  }

  lemma LtoaOneDigit(d: int, b: int)
    requires 2 <= b <= 36 && 0 <= d < b
    ensures Ltoa(d, b) == [DigitChar(d)]
  {
    DivMod(0, d, b);
    ReverseLast([DigitChar(d)]);
  }

  lemma LtoaMoreDigits(q: int, d: int, b: int)
    requires 2 <= b <= 36 && 0 <= d < b && 0 < q <= q * b + d
    ensures Ltoa(q * b + d, b) == Ltoa(q, b) + [DigitChar(d)]
  {
    DivMod(q, d, b);
    var s := Digits(q * b + d, b);
    assert s == [DigitChar(d)] + Digits(q, b);
    ReverseLast(s);
  }

  lemma DigitOf(d: int)
    requires 0 <= d < 36
    ensures DigitValue(DigitChar(d)) == d
    ensures DigitChar(d) == '0' <==> d == 0
  {
  }

  lemma NumeralAppend(s: string, c: char, b: int)
    requires IsNumeral(s, b) && s[0] != '0' && 0 <= DigitValue(c) < b
    ensures IsNumeral(s + [c], b) && (s + [c])[0] != '0'
  {
  }

  lemma {:induction false} LtoaIsNumeral(v: nat, b: int)
    requires 2 <= b <= 36
    ensures IsNumeral(Ltoa(v, b), b) && Value(Ltoa(v, b), b) == v
    ensures v > 0 ==> Ltoa(v, b)[0] != '0'
    decreases v
  {
    hide Ltoa, IsNumeral, DigitChar, DigitValue, Value;
    var d, q := v % b, v / b;
    DigitOf(d);
    if q == 0 {
      LtoaOneDigit(d, b);
      OneDigit(DigitChar(d), b);
    } else {
      QuotientSmaller(v, b);
      LtoaIsNumeral(q, b);
      LtoaMoreDigits(q, d, b);
      NumeralAppend(Ltoa(q, b), DigitChar(d), b);
      ValueAppend(Ltoa(q, b), DigitChar(d), b);
    }
  }

  lemma QuotientSmaller(v: nat, b: int)
    requires b >= 2 && v / b > 0
    ensures v == (v / b) * b + v % b && 0 < v / b < v
  {
    var q, r := v / b, v % b;
    assert v == b * q + r;
    hide *;
    TwiceAtMost(b, q);
  }

  lemma TwiceAtMost(b: int, q: int)
    requires b >= 2 && q > 0
    ensures b * q >= 2 * q && b * q == q * b
  {
    assert b * q == 2 * q + (b - 2) * q;
    NotNegative(b - 2, q);
  }

  lemma NotNegative(a: int, b: int)
    requires a >= 0 && b >= 0
    ensures a * b >= 0
  {
  }

  lemma OneDigit(c: char, b: int)
    requires 0 <= DigitValue(c) < b
    ensures IsNumeral([c], b) && Value([c], b) == DigitValue(c)
  {
  }

  lemma {:induction false} ValueNonNegative(s: string, b: int)
    requires b > 0 && forall c :: c in s ==> 0 <= DigitValue(c)
    ensures Value(s, b) >= 0
  {
    if s != "" {
      ValueNonNegative(s[..|s| - 1], b);
    }
  }

  /** A numeral with an optional minus sign. */
  predicate IsSigned(s: string, b: int) {
    if s != "" && s[0] == '-' then IsNumeral(s[1..], b) && s[1..] != "0" else IsNumeral(s, b)
  }

  function SignedValue(s: string, b: int): int {
    if s != "" && s[0] == '-' then -Value(s[1..], b) else Value(s, b)
  }

  /** The loop stops after one character for a number that is not positive. */
  lemma OneCharacter(v: int, b: int)
    requires 2 <= b <= 36 && v < 0
    ensures Ltoa(v, b) == [('0' as int - (-v) % b) as char]
  {
    NegativeQuotient(v, b);
    DigitsStep(v, b);
    hide TruncDiv, Digits;
    var c := DigitChar(TruncMod(v, b));
    assert Digits(v, b) == [c];
    ReverseLast([c]);
    assert Ltoa(v, b) == [c];
  }

  lemma NegativeQuotient(v: int, b: int)
    requires 0 < b && v < 0
    ensures TruncDiv(v, b) <= 0
  {
  }

  /** sio_ltoa prints the number it is given exactly when that number is not negative. */
  lemma PrintsExactly(v: int, b: int)
    requires 2 <= b <= 36
    ensures IsSigned(Ltoa(v, b), b) && SignedValue(Ltoa(v, b), b) == v <==> v >= 0
  {
    if v >= 0 {
      LtoaIsNumeral(v, b);
      assert Ltoa(v, b)[0] in Ltoa(v, b);
    } else {
      OneCharacter(v, b);
      var s := Ltoa(v, b);
      if s[0] == '-' {
        assert s[1..] == "";
      } else if IsNumeral(s, b) {
        ValueNonNegative(s, b);
      }
    }
  }

  lemma DigitCharInverse(c: char)
    requires 0 <= DigitValue(c)
    ensures DigitValue(c) < 36 && DigitChar(DigitValue(c)) == c
  {
  }

  lemma NumeralFront(s: string, b: int)
    requires IsNumeral(s, b) && |s| > 1
    ensures IsNumeral(s[..|s| - 1], b) && s[0] == s[..|s| - 1][0] != '0'
    ensures 0 <= DigitValue(s[|s| - 1]) < b
  {
  }

  /** Numerals are canonical: the printed form is the only numeral with that value. */
  lemma {:induction false} NumeralIsUnique(s: string, b: int)
    requires 2 <= b <= 36 && IsNumeral(s, b)
    ensures Value(s, b) >= 0 && s == Ltoa(Value(s, b), b)
    decreases |s|
  {
    hide Ltoa, DigitChar, DigitValue, Value;
    var front, c := s[..|s| - 1], s[|s| - 1];
    assert c in s && s == front + [c];
    DigitCharInverse(c);
    if front == "" {
      assert s == [c];
      OneDigit(c, b);
      LtoaOneDigit(DigitValue(c), b);
    } else {
      NumeralFront(s, b);
      NumeralIsUnique(front, b);
      ValueAppend(front, c, b);
      var q := Value(front, b);
      if q == 0 {
        LtoaOneDigit(0, b);
        DigitOf(0);
        assert false;
      }
      assert q * b >= q;
      LtoaMoreDigits(q, DigitValue(c), b);
    }
  }

  function Pow(b: nat, k: nat): nat {
    if k == 0 then 1 else b * Pow(b, k - 1)
  }

  lemma {:induction false} LtoaLength(v: int, b: int, k: nat)
    requires 2 <= b <= 36 && k > 0 && v < Pow(b, k)
    ensures |Ltoa(v, b)| <= k
    decreases k
  {
    DigitCount(v, b);
    hide Ltoa, TruncDiv;
    var q := TruncDiv(v, b);
    if q > 0 {
      var rest := Pow(b, k - 1);
      assert v < b * rest;
      QuotientBound(v, b, rest);
      LtoaLength(q, b, k - 1);
    }
  }

  lemma DigitCount(v: int, b: int)
    requires 2 <= b <= 36
    ensures |Ltoa(v, b)| == 1 + if TruncDiv(v, b) > 0 then |Ltoa(TruncDiv(v, b), b)| else 0
  {
  }

  lemma QuotientBound(v: int, b: int, m: int)
    requires 0 < b && v < b * m && TruncDiv(v, b) > 0
    ensures TruncDiv(v, b) < m && m > 1
  {
  }

  lemma MulMonotone(a: nat, b: nat, x: nat, y: nat)
    requires a <= b && x <= y
    ensures a * x <= b * y
  {
  }

  lemma {:induction false} PowMonotone(a: nat, b: nat, k: nat)
    requires a <= b
    ensures Pow(a, k) <= Pow(b, k)
  {
    if k > 0 {
      PowMonotone(a, b, k - 1);
      MulMonotone(a, b, Pow(a, k - 1), Pow(b, k - 1));
    }
  }

  const LONG_MAX := 0x7FFF_FFFF_FFFF_FFFF

  lemma PowTwo63()
    ensures Pow(2, 63) == LONG_MAX + 1
  {
    var a, b, c, d := Pow(2, 7), Pow(2, 14), Pow(2, 28), Pow(2, 56);
    assert a == 0x80;
    PowSplit(2, 7, 7);
    PowSplit(2, 14, 14);
    PowSplit(2, 28, 28);
    PowSplit(2, 56, 7);
    hide Pow;
    assert b == 0x4000;
    assert c == 0x1000_0000;
    assert d == 0x100_0000_0000_0000;
  }

  lemma {:induction false} PowSplit(b: nat, m: nat, n: nat)
    ensures Pow(b, m + n) == Pow(b, m) * Pow(b, n)
  {
    if m > 0 {
      PowSplit(b, m - 1, n);
      var p, q, r := Pow(b, m - 1), Pow(b, n), Pow(b, m - 1 + n);
      assert Pow(b, m) == b * p && Pow(b, m + n) == b * r && r == p * q;
      hide *;
      Associate(b, p, q);
    }
  }

  lemma Associate(a: int, b: int, c: int)
    ensures a * (b * c) == a * b * c
  {
  }

  /** Every 64-bit number, in every base, fits sio_putl's 128-byte buffer, terminator included. */
  lemma LongFits(v: int, b: int)
    requires 2 <= b <= 36 && v <= LONG_MAX
    ensures |Ltoa(v, b)| + 1 <= 64
  {
    PowTwo63();
    PowMonotone(2, b, 63);
    LtoaLength(v, b, 63);
  }

  lemma {:induction false} NoNulDigits(v: int, b: int)
    requires 2 <= b <= 36
    ensures NUL !in Digits(v, b)
    decreases if v > 0 then v else 0
  {
    hide DigitChar, Digits, TruncDiv, TruncMod;
    DigitIsNotNul(TruncMod(v, b));
    DigitsStep(v, b);
    QuotientShrinks(v, b);
    if TruncDiv(v, b) > 0 {
      NoNulDigits(TruncDiv(v, b), b);
    }
  }

  lemma DigitsStep(v: int, b: int)
    requires 2 <= b <= 36
    ensures Digits(v, b) == [DigitChar(TruncMod(v, b))] + if TruncDiv(v, b) > 0 then Digits(TruncDiv(v, b), b) else ""
  {
  }

  lemma DigitIsNotNul(c: int)
    requires -36 < c < 36
    ensures DigitChar(c) != NUL
  {
  }

  method StrLen(s: array<char>) returns (i: int)
    requires NUL in s[..]
    ensures 0 <= i && i == |CStr(s[..])| < s.Length && s[i] == NUL
  {
    i := 0;
    while s[i] != NUL
      invariant 0 <= i < s.Length && NUL !in s[..i] && NUL in s[i..]
      decreases s.Length - i
    {
      assert s[i..] == [s[i]] + s[i + 1..];
      i := i + 1;
    }
    CStrAt(s[..], i);
  }

  /** The first i and the last i of the first len characters have changed places. */
  ghost predicate Swapped(now: string, was: string, len: nat, i: nat) {
    && |now| == |was| && 2 * i <= len + 1 && len <= |was|
    && forall k :: 0 <= k < |was| ==> now[k] == was[Origin(len, i, k)]
  }

  /** Where the character now at k was before the first i swaps. */
  function Origin(len: nat, i: nat, k: nat): int {
    if k < len && (k < i || len - 1 - k < i) then len - 1 - k else k
  }

  lemma SwappedAll(now: string, was: string, len: nat, i: nat)
    requires Swapped(now, was, len, i) && 2 * i + 1 >= len
    ensures now == Reverse(was[..len]) + was[len..]
  {
    var r := Reverse(was[..len]) + was[len..];
    forall k | 0 <= k < |was| ensures now[k] == r[k] {
      assert now[k] == was[Origin(len, i, k)];
      if k < len {
        ReverseAt(was[..len], k);
        assert Origin(len, i, k) == len - 1 - k;
      }
    }
  }

  lemma SwappedNext(now: string, was: string, len: nat, i: nat, next: string)
    requires Swapped(now, was, len, i) && i < len - 1 - i
    requires next == now[i := now[len - 1 - i]][len - 1 - i := now[i]]
    ensures Swapped(next, was, len, i + 1)
  {
  }

  method ReverseInPlace(s: array<char>)
    requires NUL in s[..]
    modifies s
    ensures
      var text := CStr(old(s[..]));
      s[..] == Reverse(text) + old(s[..])[|text|..]
  {
    hide Swapped, Reverse, CStr;
    ghost var was := s[..];
    var len := StrLen(s);
    SwappedNone(was, len);
    var i: nat, j: int := 0, len - 1;
    while i < j
      invariant i + j == len - 1 && i <= j + 1
      invariant Swapped(s[..], was, len, i)
    {
      ghost var now := s[..];
      var c := s[i];
      s[i] := s[j];
      s[j] := c;
      SwappedNext(now, was, len, i, s[..]);
      i, j := i + 1, j - 1;
    }
    SwappedAll(s[..], was, len, i);
    assert CStr(was) == was[..len];
  }

  lemma SwappedNone(was: string, len: nat)
    requires len <= |was|
    ensures Swapped(was, was, len, 0)
  {
  }

  /** What is left of the division loop after i digits. */
  ghost predicate Printing(v: int, b: int, i: nat, w: int, more: bool)
    requires 2 <= b <= 36
  {
    && i <= |Digits(v, b)|
    && if more then Digits(v, b)[i..] == Digits(w, b) else i == |Digits(v, b)|
  }

  lemma PrintingNext(v: int, b: int, i: nat, w: int)
    requires 2 <= b <= 36 && Printing(v, b, i, w, true)
    ensures i < |Digits(v, b)| && Digits(v, b)[i] == DigitChar(TruncMod(w, b))
    ensures Printing(v, b, i + 1, TruncDiv(w, b), TruncDiv(w, b) > 0)
  {
    var all := Digits(v, b);
    assert all[i] == all[i..][0] && all[i..][1..] == all[i + 1..];
  }

  lemma PrintedText(was: string, now: string, v: int, b: int)
    requires 2 <= b <= 36
    requires |was| == |now| > |Digits(v, b)|
    requires was[..|Digits(v, b)|] == Digits(v, b) && was[|Digits(v, b)|] == NUL
    requires now == Reverse(CStr(was)) + was[|CStr(was)|..]
    ensures CStr(now) == Ltoa(v, b)
    ensures now[|Ltoa(v, b)|..] == was[|Ltoa(v, b)|..]
  {
    var digits := Digits(v, b);
    NoNulDigits(v, b);
    CStrAt(was, |digits|);
    forall k | 0 <= k < |digits| ensures Reverse(digits)[k] != NUL {
      ReverseAt(digits, k);
    }
    assert now[..|digits|] == Reverse(digits);
    CStrAt(now, |digits|);
  }

  method LtoaInto(v: int, s: array<char>, b: int)
    requires 2 <= b <= 36 && |Ltoa(v, b)| < s.Length
    modifies s
    ensures CStr(s[..]) == Ltoa(v, b)
    ensures s[..][|Ltoa(v, b)|..] == [NUL] + old(s[..])[|Ltoa(v, b)| + 1..]
  {
    ghost var was, digits := s[..], Digits(v, b);
    assert |Ltoa(v, b)| == |digits|;
    hide Digits, Ltoa, CStr, Reverse;
    var i := DivisionLoop(v, s, b);
    s[i] := NUL;
    ghost var printed := s[..];
    Terminated(was, digits, printed);
    ReverseInPlace(s);
    PrintedText(printed, s[..], v, b);
  }

  lemma Terminated(was: string, digits: string, printed: string)
    requires |digits| < |was|
    requires printed == (digits + was[|digits|..])[|digits| := NUL]
    ensures printed[..|digits|] == digits && printed[|digits|] == NUL && NUL in printed
    ensures printed[|digits|..] == [NUL] + was[|digits| + 1..]
  {
  }

  /** The do-while loop of sio_ltoa. */
  method DivisionLoop(v: int, s: array<char>, b: int) returns (i: nat)
    requires 2 <= b <= 36 && |Digits(v, b)| < s.Length
    modifies s
    ensures i == |Digits(v, b)|
    ensures s[..] == Digits(v, b) + old(s[..])[|Digits(v, b)|..]
  {
    hide Digits, Printing, DigitChar, TruncMod;
    ghost var was, digits := s[..], Digits(v, b);
    i := 0;
    var w, more := v, true;
    PrintingFirst(v, b);
    while more
      invariant Printing(v, b, i, w, more) && i <= |digits|
      invariant s[..i] == digits[..i] && s[i..] == was[i..]
      decreases more, if w > 0 then w else 0
    {
      PrintingNext(v, b, i, w);
      s[i] := DigitChar(TruncMod(w, b));
      assert digits[..i + 1] == digits[..i] + [digits[i]];
      i := i + 1;
      QuotientShrinks(w, b);
      w := TruncDiv(w, b);
      more := w > 0;
    }
    PrintingLast(v, b, i, w);
    assert s[..] == s[..i] + s[i..];
  }

  lemma QuotientShrinks(w: int, b: int)
    requires 2 <= b
    ensures TruncDiv(w, b) > 0 ==> TruncDiv(w, b) < w
  {
    if TruncDiv(w, b) > 0 {
      QuotientSmaller(w, b);
    }
  }

  lemma PrintingFirst(v: int, b: int)
    requires 2 <= b <= 36
    ensures Printing(v, b, 0, v, true)
  {
  }

  lemma PrintingLast(v: int, b: int, i: nat, w: int)
    requires 2 <= b <= 36 && Printing(v, b, i, w, false)
    ensures i == |Digits(v, b)|
  {
  }

  /** sio_putl: one write() of the decimal numeral, however much of it the kernel takes. */
  method Putl(v: int, stdout: Descriptor) returns (nwritten: int)
    requires v <= LONG_MAX
    modifies stdout`outgoing, stdout`writePlan
    ensures nwritten <= |Ltoa(v, 10)|
    ensures stdout.outgoing == old(stdout.outgoing) + Ltoa(v, 10)[..Max(nwritten, 0)]
    ensures
      if old(stdout.writePlan) == [] then
        nwritten == |Ltoa(v, 10)| && stdout.writePlan == []
      else
        && stdout.writePlan == old(stdout.writePlan)[1..]
        && match old(stdout.writePlan)[0]
           case Accept(count) => nwritten == Min(Max(1, count), |Ltoa(v, 10)|)
           case Nothing(_) => nwritten == 0
           case _ => nwritten == -1
  {
    var s := new char[128];
    LongFits(v, 10);
    LtoaInto(v, s, 10);
    assert s[..][|Ltoa(v, 10)|..][0] == NUL;
    var n := StrLen(s);
    var errno;
    nwritten, errno := stdout.Write(s, 0, n);
    assert s[..n] == s[..][..n] == Ltoa(v, 10);
    assert s[0..Max(nwritten, 0)] == Ltoa(v, 10)[..Max(nwritten, 0)];
  }
}
