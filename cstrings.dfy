/** The stock Option datatype used for "maybe a value" results. */
module Wrappers {
  datatype Option<+T> = None | Some(value: T)
}

/** Facts about sequences that the solver does not always find by itself. */
module Sequences {
  lemma SplitAt<T>(s: seq<T>, i: nat)
    requires i <= |s|
    ensures s == s[..i] + s[i..]
  {
  }

  lemma AppendAssoc<T>(a: seq<T>, b: seq<T>, c: seq<T>)
    ensures (a + b) + c == a + (b + c)
  {
  }
}

/**
 * The C-string primitives telnet-irc.c relies on, stated over byte sequences:
 * `isspace` from <ctype.h> in the "C" locale, and `strlen` and `strstr` from
 * <string.h>. A C buffer is a `seq<byte>`; the C string it holds is the part
 * before its first NUL byte.
 */
module CStrings {
  import opened Wrappers

  /** One element of a `char` buffer, as an unsigned 8-bit value. */
  type byte = x: int | 0 <= x < 256

  const NUL: byte := 0

  /** `isspace` in the "C" locale: space, \t, \n, \v, \f and \r. */
  predicate IsSpace(b: byte)
    ensures IsSpace(b) <==> b in {9, 10, 11, 12, 13, 32}
  {
    b == 32 || 9 <= b <= 13
  }

  /** No byte of `s` is NUL, so `s` is a whole C string. */
  predicate NoNul(s: seq<byte>) {
    forall i :: 0 <= i < |s| ==> s[i] != NUL
  }

  /** A buffer of `n` zero bytes, as `calloc` returns it. */
  function Zeros(n: nat): (z: seq<byte>)
    ensures |z| == n && forall i :: 0 <= i < n ==> z[i] == NUL
  {
    seq(n, _ => NUL)
  }

  /**
   * `strlen`: the offset of the first NUL byte. A buffer without a NUL is
   * taken to end with the sequence (every buffer of the model has one).
   */
  function Strlen(s: seq<byte>): (n: nat)
    ensures n <= |s|
    ensures forall i :: 0 <= i < n ==> s[i] != NUL
    ensures n < |s| ==> s[n] == NUL
  {
    if s == [] || s[0] == NUL then 0 else 1 + Strlen(s[1..])
  }

  /** The C string a buffer holds: its bytes up to, not including, the first NUL. */
  function CStr(s: seq<byte>): (c: seq<byte>)
    ensures NoNul(c)
    ensures c <= s
    ensures |c| == |s| || s[|c|] == NUL
  {
    s[..Strlen(s)]
  }

  /** A sequence without NUL is its own C string. */
  lemma CStrOfNoNul(s: seq<byte>)
    requires NoNul(s)
    ensures CStr(s) == s
  {
  }

  /** Zero padding after the data does not change the C string it holds. */
  lemma CStrPadded(s: seq<byte>, k: nat)
    ensures CStr(s + Zeros(k)) == CStr(s)
  {
    var n := Strlen(s);
    if n < |s| {
      assert (s + Zeros(k))[n] == NUL;
      assert forall i :: 0 <= i < n ==> (s + Zeros(k))[i] == s[i];
      assert Strlen(s + Zeros(k)) == n;
    } else if k > 0 {
      assert (s + Zeros(k))[n] == NUL;
      assert forall i :: 0 <= i < n ==> (s + Zeros(k))[i] == s[i];
      assert Strlen(s + Zeros(k)) == n;
    }
    assert (s + Zeros(k))[..n] == s[..n];
  }

  /** `p` occurs in `s` at offset `i`. */
  predicate OccursAt(s: seq<byte>, p: seq<byte>, i: int) {
    0 <= i && i + |p| <= |s| && s[i..i + |p|] == p
  }

  /** `p` is a substring of `s`. */
  ghost predicate Contains(s: seq<byte>, p: seq<byte>) {
    exists i :: OccursAt(s, p, i)
  }

  /** The first offset at or after `from` at which `p` occurs in `s`, if any. */
  function FindFrom(s: seq<byte>, p: seq<byte>, from: nat): (r: Option<nat>)
    ensures r.Some? ==> from <= r.value && OccursAt(s, p, r.value)
    ensures r.Some? ==> forall j :: from <= j < r.value ==> !OccursAt(s, p, j)
    ensures r.None? ==> forall j :: from <= j ==> !OccursAt(s, p, j)
    decreases |s| - from
  {
    if from + |p| > |s| then None
    else if s[from..from + |p|] == p then Some(from)
    else FindFrom(s, p, from + 1)
  }

  /** `strstr(s, p)`: the offset of the first occurrence of `p` in `s`, if any. */
  function Strstr(s: seq<byte>, p: seq<byte>): (r: Option<nat>)
    ensures r.Some? <==> Contains(s, p)
    ensures r.Some? ==> OccursAt(s, p, r.value)
    ensures r.Some? ==> forall j :: 0 <= j < r.value ==> !OccursAt(s, p, j)
  {
    FindFrom(s, p, 0)
  }

  /** The length of the leading run of `isspace` bytes of `s`. */
  function SpaceRun(s: seq<byte>): (n: nat)
    ensures n <= |s|
    ensures forall i :: 0 <= i < n ==> IsSpace(s[i])
    ensures n < |s| ==> !IsSpace(s[n])
  {
    if s == [] || !IsSpace(s[0]) then 0 else 1 + SpaceRun(s[1..])
  }

  /** The length of the leading run of bytes of `s` that are not `isspace`. */
  function WordRun(s: seq<byte>): (n: nat)
    ensures n <= |s|
    ensures forall i :: 0 <= i < n ==> !IsSpace(s[i])
    ensures n < |s| ==> IsSpace(s[n])
  {
    if s == [] || IsSpace(s[0]) then 0 else 1 + WordRun(s[1..])
  }

  /** A run is determined by where it stops: `n` is the space run of `s`. */
  lemma {:induction false} SpaceRunIs(s: seq<byte>, n: nat)
    requires n <= |s|
    requires forall i :: 0 <= i < n ==> IsSpace(s[i])
    requires n < |s| ==> !IsSpace(s[n])
    ensures SpaceRun(s) == n
  {
    if n > 0 {
      SpaceRunIs(s[1..], n - 1);
    }
  }

  /** A run is determined by where it stops: `n` is the word run of `s`. */
  lemma {:induction false} WordRunIs(s: seq<byte>, n: nat)
    requires n <= |s|
    requires forall i :: 0 <= i < n ==> !IsSpace(s[i])
    requires n < |s| ==> IsSpace(s[n])
    ensures WordRun(s) == n
  {
    if n > 0 {
      WordRunIs(s[1..], n - 1);
    }
  }
}
