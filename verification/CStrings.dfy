/**
 The C string functions the directory code relies on, on fixed-size character
 arrays (`seq<Byte>` of the array's length) and NUL-terminated arguments.
 */
module CStrings {

  newtype Byte = x: int | 0 <= x < 256

  const NUL: Byte := 0
  const SLASH: Byte := 47

  /** The characters of a C string, without the terminator. */
  type CString = s: seq<Byte> | NUL !in s

  /** A `char const *` argument, which may be NULL. */
  datatype CharPtr = Null | Str(chars: CString)

  /** strlen, for an array that may lack a terminator. */
  function StrLen(a: seq<Byte>): (n: nat)
    ensures n <= |a|
    ensures n < |a| ==> a[n] == NUL
    ensures forall i | 0 <= i < n :: a[i] != NUL
  {
    if a == [] || a[0] == NUL then 0
    else
      var n := StrLen(a[1..]);
      assert forall i | 1 <= i <= n :: a[i] == a[1..][i - 1];
      n + 1
  }

  /** The string an array holds. */
  function StringIn(a: seq<Byte>): CString {
    a[..StrLen(a)]
  }

  /** The character `k` of a C string, its terminator included. */
  function CharAt(s: CString, k: nat): Byte {
    if k < |s| then s[k] else NUL
  }

  /** strncpy(dst, src, n): copies up to `n` characters and pads with NULs. */
  function StrNCpy(dst: seq<Byte>, src: CString, n: nat): (d: seq<Byte>)
    requires n <= |dst|
    ensures |d| == |dst|
  {
    seq(|dst|, i requires 0 <= i < |dst| => if i < n then CharAt(src, i) else dst[i])
  }

  /** strncmp(a, s, n) == 0, comparing from position `k` on. */
  predicate StrNCmpFrom(a: seq<Byte>, s: CString, n: nat, k: nat)
    requires k <= n <= |a|
    decreases n - k
  {
    k == n || (a[k] == CharAt(s, k) && (a[k] == NUL || StrNCmpFrom(a, s, n, k + 1)))
  }

  predicate StrNCmpEqual(a: seq<Byte>, s: CString, n: nat)
    requires n <= |a|
  {
    StrNCmpFrom(a, s, n, 0)
  }

  /** strcmp stays inside the array if the array is terminated or longer than the string. */
  predicate Comparable(a: seq<Byte>, s: CString) {
    |s| < |a| || StrLen(a) < |a|
  }

  /** strcmp(a, s) == 0, comparing from position `k` on. */
  predicate StrCmpFrom(a: seq<Byte>, s: CString, k: nat)
    requires Comparable(a, s) && k <= |s| && k <= StrLen(a)
    decreases |a| - k
  {
    a[k] == CharAt(s, k) && (a[k] == NUL || StrCmpFrom(a, s, k + 1))
  }

  predicate StrCmpEqual(a: seq<Byte>, s: CString)
    requires Comparable(a, s)
  {
    StrCmpFrom(a, s, 0)
  }

  lemma {:induction false} StrLenIs(a: seq<Byte>, n: nat)
    requires n <= |a| && forall i | 0 <= i < n :: a[i] != NUL
    requires n < |a| ==> a[n] == NUL
    ensures StrLen(a) == n && StringIn(a) == a[..n]
  {
    if n > 0 {
      StrLenIs(a[1..], n - 1);
    }
  }

  /** On a terminated array strncmp decides equality with strings of every length. */
  lemma StrNCmpDecidesEquality(a: seq<Byte>, s: CString)
    requires NUL in a
    ensures StrNCmpEqual(a, s, |a|) <==> StringIn(a) == s
  {
    TerminatorIndex(a);
    StrNCmpDecidesFrom(a, s, 0);
    assert s[..0] == a[..0];
  }

  lemma TerminatorIndex(a: seq<Byte>)
    requires NUL in a
    ensures StrLen(a) < |a|
  {
    var k :| 0 <= k < |a| && a[k] == NUL;
    assert StrLen(a) <= k;
  }

  lemma {:induction false} StrNCmpDecidesFrom(a: seq<Byte>, s: CString, k: nat)
    requires StrLen(a) < |a| && k <= StrLen(a)
    requires k <= |s| && s[..k] == a[..k]
    ensures StrNCmpFrom(a, s, |a|, k) <==> StringIn(a) == s
    decreases |a| - k
  {
    var n := StrLen(a);
    assert k < n ==> a[k] == StringIn(a)[k];
    assert k == n <==> a[k] == NUL;
    if a[k] != CharAt(s, k) {
    } else if a[k] == NUL {
      assert s[..k] == s;
    } else {
      assert s[..k + 1] == s[..k] + [s[k]] == a[..k + 1];
      StrNCmpDecidesFrom(a, s, k + 1);
    }
  }

  /** strcmp agrees wherever it stays inside the array. */
  lemma StrCmpDecidesEquality(a: seq<Byte>, s: CString)
    requires Comparable(a, s)
    ensures StrCmpEqual(a, s) <==> StringIn(a) == s
  {
    assert s[..0] == a[..0];
    StrCmpDecidesFrom(a, s, 0);
  }

  lemma {:induction false} StrCmpDecidesFrom(a: seq<Byte>, s: CString, k: nat)
    requires Comparable(a, s) && k <= |s| && k <= StrLen(a) && s[..k] == a[..k]
    ensures StrCmpFrom(a, s, k) <==> StringIn(a) == s
    decreases |a| - k
  {
    assert k < StrLen(a) ==> a[k] == StringIn(a)[k];
    if a[k] != CharAt(s, k) {
    } else if a[k] == NUL {
      assert s[..k] == s;
      StrLenIs(a, k);
    } else {
      assert s[..k + 1] == s[..k] + [s[k]] == a[..k + 1];
      StrCmpDecidesFrom(a, s, k + 1);
    }
  }
}
