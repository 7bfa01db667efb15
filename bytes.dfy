/**
 * Octets as the C sources handle them (`char` buffers), and the handful of
 * string primitives (`strlen`, NUL-terminated runs) the parsers and the
 * response writers rely on.
 */
module Bytes {

  /** One octet of a `char` buffer. */
  type byte = c: char | c as int < 256

  const NUL: byte := '\0'
  const SP: byte := ' '
  const CR: byte := '\r'
  const LF: byte := '\n'
  const SLASH: byte := '/'

  datatype Option<T> = None | Some(value: T)

  /** `n` NUL bytes, the contents of a buffer after `memset(buf, 0, n)`. */
  function Zeros(n: nat): (r: seq<byte>)
    ensures |r| == n
    ensures forall i :: 0 <= i < n ==> r[i] == NUL
  {
    if n == 0 then [] else [NUL] + Zeros(n - 1)
  }

  predicate AllZero(s: seq<byte>)
  {
    forall i :: 0 <= i < |s| ==> s[i] == NUL
  }

  predicate NulFree(s: seq<byte>)
  {
    forall i :: 0 <= i < |s| ==> s[i] != NUL
  }

  /**
   * `strlen`: the index of the first NUL of `s`, or |s| when `s` holds none
   * (where C would read past the end).
   */
  function Strlen(s: seq<byte>): (n: nat)
    ensures n <= |s|
    ensures forall i :: 0 <= i < n ==> s[i] != NUL
    ensures n < |s| ==> s[n] == NUL
  {
    if s == [] then 0
    else if s[0] == NUL then 0
    else 1 + Strlen(s[1..])
  }

  /** The length of the NUL-free run of `s` that starts at `from`. */
  function RunLength(s: seq<byte>, from: nat): (n: nat)
    requires from <= |s|
    ensures from + n <= |s|
    ensures forall i :: from <= i < from + n ==> s[i] != NUL
    ensures from + n < |s| ==> s[from + n] == NUL
    decreases |s| - from
  {
    if from == |s| || s[from] == NUL then 0 else 1 + RunLength(s, from + 1)
  }

  /**
   * The highest index of `s` holding a NUL, as found by scanning down from
   * the last index; None when there is none.
   */
  function LastNul(s: seq<byte>): (r: Option<nat>)
    ensures r.Some? ==> r.value < |s| && s[r.value] == NUL
    ensures r.Some? ==> forall i :: r.value < i < |s| ==> s[i] != NUL
    ensures r.None? ==> NulFree(s)
  {
    if s == [] then None
    else if s[|s| - 1] == NUL then Some(|s| - 1)
    else LastNul(s[..|s| - 1])
  }

  /** A NUL-free prefix is found again by `strlen` when a NUL follows it. */
  lemma {:induction false} StrlenOfPrefix(p: seq<byte>, rest: seq<byte>)
    requires NulFree(p)
    requires rest != [] && rest[0] == NUL
    ensures Strlen(p + rest) == |p|
  {
    if p != [] {
      assert (p + rest)[1..] == p[1..] + rest;
      StrlenOfPrefix(p[1..], rest);
    }
  }

  /** The NUL-free run starting at a position is exactly the bytes up to the next NUL. */
  lemma RunLengthOf(s: seq<byte>, from: nat, run: seq<byte>)
    requires from + |run| <= |s|
    requires s[from..from + |run|] == run
    requires NulFree(run)
    requires from + |run| == |s| || s[from + |run|] == NUL
    ensures RunLength(s, from) == |run|
  {
  }

  /** `strlen` is pinned down by the first NUL. */
  lemma StrlenIs(s: seq<byte>, n: nat)
    requires n <= |s|
    requires forall i :: 0 <= i < n ==> s[i] != NUL
    requires n < |s| ==> s[n] == NUL
    ensures Strlen(s) == n
  {
  }

  /** The downward scan for a NUL is pinned down by the highest NUL. */
  lemma {:induction false} LastNulIs(s: seq<byte>, n: nat)
    requires n < |s| && s[n] == NUL
    requires forall i :: n < i < |s| ==> s[i] != NUL
    ensures LastNul(s) == Some(n)
  {
    if n < |s| - 1 {
      LastNulIs(s[..|s| - 1], n);
    }
  }
}
