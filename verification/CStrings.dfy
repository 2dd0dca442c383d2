/** NUL-terminated strings inside character buffers. */
module CStrings {
  const NUL := '\0'

  /** What a C string function sees of a buffer: everything before the first NUL. */
  function CStr(s: string): (t: string)
    ensures t <= s && NUL !in t
    ensures t == s <==> NUL !in s
  {
    if s == "" || s[0] == NUL then "" else [s[0]] + CStr(s[1..])
  }

  lemma {:induction false} CStrStopsAt(s: string, n: nat)
    requires n < |s| && s[n] == NUL
    ensures CStr(s) == CStr(s[..n])
  {
    if n > 0 && s[0] != NUL {
      assert s[1..][..n - 1] == s[..n][1..];
      CStrStopsAt(s[1..], n - 1);
    }
  }

  lemma CStrNonEmpty(s: string)
    requires s != "" && s[0] != NUL
    ensures CStr(s) != ""
  {
  }

  lemma {:induction false} CStrAt(s: string, n: nat)
    requires n < |s| && s[n] == NUL && NUL !in s[..n]
    ensures CStr(s) == s[..n]
  {
    CStrStopsAt(s, n);
  }

  /** A buffer holding s and nothing else. */
  method Buffer(s: string) returns (a: array<char>)
    ensures fresh(a) && a[..] == s
  {
    a := new char[|s|](i requires 0 <= i < |s| => s[i]);
  }
}
