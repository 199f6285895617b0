/** Bytes, C strings and the optional value used throughout the model. */
module Bytes {
  datatype Byte = Byte(bits: bv8)

  const NUL := Byte(0)

  datatype Option<+T> = None | Some(value: T)

  /** The eight bytes of a DES block, and of a session secret. */
  type Block = b: seq<Byte> | |b| == 8 witness [NUL, NUL, NUL, NUL, NUL, NUL, NUL, NUL]

  lemma TakeNext<T>(s: seq<T>, i: nat)
    requires i < |s|
    ensures s[..i + 1] == s[..i] + [s[i]]
  {
  }

  lemma SplitBefore<T>(s: seq<T>, rest: seq<T>, i: nat)
    requires i <= |s|
    ensures (s + rest)[..i] == s[..i] && (s + rest)[i..] == s[i..] + rest
  {
  }

  lemma CutAfterFirst<T>(x: T, rest: seq<T>, k: nat)
    requires 0 < k <= |rest| + 1
    ensures ([x] + rest)[..k] == [x] + rest[..k - 1]
  {
  }

  lemma CutAfter<T>(a: seq<T>, b: seq<T>, j: nat)
    requires j <= |b|
    ensures (a + b)[..|a| + j] == a + b[..j]
  {
  }

  lemma LastApart<T>(s: seq<T>)
    requires s != []
    ensures s[..|s| - 1] + [s[|s| - 1]] == s
  {
  }

  /** What `strlen` finds in a buffer; a buffer without a NUL is read to its end. */
  function StrLen<T(==)>(s: seq<T>, nul: T): (n: nat)
    ensures n <= |s|
    ensures nul !in s[..n]
    ensures n < |s| ==> s[n] == nul
  {
    if s == [] || s[0] == nul then 0
    else
      var n := 1 + StrLen(s[1..], nul);
      assert s[..n] == [s[0]] + s[1..][..n - 1];
      n
  }

  lemma {:induction false} StrLenIs<T>(s: seq<T>, nul: T, n: nat)
    requires n <= |s| && nul !in s[..n] && (n < |s| ==> s[n] == nul)
    ensures StrLen(s, nul) == n
  {
    if n > 0 {
      assert s[0] == s[..n][0] && s[1..][..n - 1] == s[..n][1..];
      StrLenIs(s[1..], nul, n - 1);
    }
  }

  /** The characters of a C string, its terminating NUL left out. */
  type CString = s: seq<Byte> | NUL !in s witness []

  function CStrLen(s: seq<Byte>): (n: nat)
    ensures n <= |s|
    ensures NUL !in s[..n]
    ensures n < |s| ==> s[n] == NUL
  {
    StrLen(s, NUL)
  }

  function CStr(s: seq<Byte>): CString {
    s[..CStrLen(s)]
  }

  /** The buffer holds exactly this C string: its characters, then the NUL. */
  predicate ReadsAs(s: seq<Byte>, t: CString) {
    t + [NUL] <= s
  }

  lemma CStrLenIs(s: seq<Byte>, n: nat)
    requires n <= |s| && NUL !in s[..n] && (n < |s| ==> s[n] == NUL)
    ensures CStrLen(s) == n
  {
    StrLenIs(s, NUL, n);
  }

  lemma ReadsAsLength(s: seq<Byte>, t: CString)
    requires ReadsAs(s, t)
    ensures CStrLen(s) == |t| && CStr(s) == t
  {
    assert s[|t|] == (t + [NUL])[|t|] == NUL;
    assert s[..|t|] == (t + [NUL])[..|t|] == t;
    CStrLenIs(s, |t|);
  }
}
