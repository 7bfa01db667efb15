/**
 * In-place byte-range primitives: `util_reverse` (src/util.c, util.c, identical in the
 * two revisions) and the libc `memmove`/`memset` the parsers and pools call.
 */
module Util {
  import opened Bytes

  /** The reference definition of reversal. */
  function Reversed(s: seq<byte>): (r: seq<byte>)
    ensures |r| == |s|
  {
    if s == [] then [] else Reversed(s[1..]) + [s[0]]
  }

  lemma {:induction false} ReversedAt(s: seq<byte>, k: nat)
    requires k < |s|
    ensures Reversed(s)[k] == s[|s| - 1 - k]
  {
    if k < |s| - 1 {
      ReversedAt(s[1..], k);
    }
  }

  /** Reversing twice gives back the original sequence. */
  lemma ReversedTwice(s: seq<byte>)
    ensures Reversed(Reversed(s)) == s
  {
    var r := Reversed(s);
    forall k | 0 <= k < |s|
      ensures Reversed(r)[k] == s[k]
    {
      ReversedAt(r, k);
      ReversedAt(s, |s| - 1 - k);
    }
  }

  /** The contents after reversing the inclusive range [start, end] of `s`. */
  function ReverseRange(s: seq<byte>, start: int, end: int): (r: seq<byte>)
    requires start < end ==> 0 <= start && end < |s|
    ensures |r| == |s|
  {
    if start >= end then s else s[..start] + Reversed(s[start..end + 1]) + s[end + 1..]
  }

  /** Element-wise meaning of a range reversal: mirrored inside, untouched outside. */
  lemma ReverseRangeAt(s: seq<byte>, start: int, end: int, k: int)
    requires start < end ==> 0 <= start && end < |s|
    requires 0 <= k < |s|
    ensures start <= k <= end ==> ReverseRange(s, start, end)[k] == s[start + end - k]
    ensures !(start <= k <= end) ==> ReverseRange(s, start, end)[k] == s[k]
  {
    if start < end && start <= k <= end {
      ReversedAt(s[start..end + 1], k - start);
    }
  }

  /** Reversing the same range twice restores the original contents. */
  lemma ReverseRangeTwice(s: seq<byte>, start: int, end: int)
    requires start < end ==> 0 <= start && end < |s|
    ensures ReverseRange(ReverseRange(s, start, end), start, end) == s
  {
    if start < end {
      var once := ReverseRange(s, start, end);
      var twice := ReverseRange(once, start, end);
      forall k | 0 <= k < |s|
        ensures twice[k] == s[k]
      {
        var j := if start <= k <= end then start + end - k else k;
        ReverseRangeAt(once, start, end, k);
        ReverseRangeAt(s, start, end, j);
        assert twice[k] == once[j];
      }
      assert twice == s;
    }
  }

  /**
   * The swap loop of util_reverse as a recursion on its two cursors: swap
   * the bytes at `lo` and `hi`, then move both inward until they meet.
   */
  function Swapped(s: seq<byte>, lo: int, hi: int): (r: seq<byte>)
    requires lo < hi ==> 0 <= lo && hi < |s|
    ensures |r| == |s|
    decreases hi - lo
  {
    if lo >= hi then s else Swapped(s[lo := s[hi]][hi := s[lo]], lo + 1, hi - 1)
  }

  lemma {:induction false} SwappedAt(s: seq<byte>, lo: int, hi: int, k: int)
    requires lo < hi ==> 0 <= lo && hi < |s|
    requires 0 <= k < |s|
    ensures lo <= k <= hi ==> Swapped(s, lo, hi)[k] == s[lo + hi - k]
    ensures !(lo <= k <= hi) ==> Swapped(s, lo, hi)[k] == s[k]
    decreases hi - lo
  {
    if lo < hi {
      SwappedAt(s[lo := s[hi]][hi := s[lo]], lo + 1, hi - 1, k);
    }
  }

  /** The swap loop reverses the range. */
  lemma SwappedReverses(s: seq<byte>, lo: int, hi: int)
    requires lo < hi ==> 0 <= lo && hi < |s|
    ensures Swapped(s, lo, hi) == ReverseRange(s, lo, hi)
  {
    forall k | 0 <= k < |s|
      ensures Swapped(s, lo, hi)[k] == ReverseRange(s, lo, hi)[k]
    {
      SwappedAt(s, lo, hi, k);
      ReverseRangeAt(s, lo, hi, k);
    }
  }

  /**
   * util_reverse(start, end): swaps bytes pairwise from both ends of the
   * inclusive range until the two cursors meet; a range with start >= end is
   * left alone.
   */
  method Reverse(a: array<byte>, start: int, end: int)
    requires start < end ==> 0 <= start && end < a.Length
    modifies a
    ensures a[..] == ReverseRange(old(a[..]), start, end)
    ensures a[..] == Swapped(old(a[..]), start, end)
  {
    ghost var target := Swapped(a[..], start, end);
    var lo, hi := start, end;
    while lo < hi
      invariant lo < hi ==> 0 <= lo && hi < a.Length
      invariant target == Swapped(a[..], lo, hi)
      decreases hi - lo
    {
      a[lo], a[hi] := a[hi], a[lo];
      lo, hi := lo + 1, hi - 1;
    }
    SwappedReverses(old(a[..]), start, end);
  }

  /** What `memmove(dst, src, n)` leaves behind: the bytes as if copied through a temporary. */
  function Moved(s: seq<byte>, dst: nat, src: nat, n: nat): (r: seq<byte>)
    requires dst + n <= |s| && src + n <= |s|
    ensures |r| == |s|
  {
    s[..dst] + s[src..src + n] + s[dst + n..]
  }

  lemma MovedAt(s: seq<byte>, dst: nat, src: nat, n: nat, k: nat)
    requires dst + n <= |s| && src + n <= |s| && k < |s|
    ensures dst <= k < dst + n ==> Moved(s, dst, src, n)[k] == s[src + k - dst]
    ensures !(dst <= k < dst + n) ==> Moved(s, dst, src, n)[k] == s[k]
  {
  }

  /**
   * A move towards lower addresses (`dst <= src`), done front to back one
   * byte at a time: each byte is read before any write reaches it.
   */
  function CopiedDown(s: seq<byte>, dst: nat, src: nat, n: nat): (r: seq<byte>)
    requires dst <= src && src + n <= |s|
    ensures |r| == |s|
    decreases n
  {
    if n == 0 then s else CopiedDown(s[dst := s[src]], dst + 1, src + 1, n - 1)
  }

  lemma {:induction false} CopiedDownAt(s: seq<byte>, dst: nat, src: nat, n: nat, k: nat)
    requires dst <= src && src + n <= |s| && k < |s|
    ensures dst <= k < dst + n ==> CopiedDown(s, dst, src, n)[k] == s[src + k - dst]
    ensures !(dst <= k < dst + n) ==> CopiedDown(s, dst, src, n)[k] == s[k]
    decreases n
  {
    if n > 0 {
      CopiedDownAt(s[dst := s[src]], dst + 1, src + 1, n - 1, k);
    }
  }

  /** Copying down front to back is what memmove does. */
  lemma CopiedDownMoves(s: seq<byte>, dst: nat, src: nat, n: nat)
    requires dst <= src && src + n <= |s|
    ensures CopiedDown(s, dst, src, n) == Moved(s, dst, src, n)
  {
    forall k | 0 <= k < |s|
      ensures CopiedDown(s, dst, src, n)[k] == Moved(s, dst, src, n)[k]
    {
      CopiedDownAt(s, dst, src, n, k);
      MovedAt(s, dst, src, n, k);
    }
  }

  /**
   * A move towards higher addresses (`src <= dst`), done back to front one
   * byte at a time: each byte is read before any write reaches it.
   */
  function CopiedUp(s: seq<byte>, dst: nat, src: nat, n: nat): (r: seq<byte>)
    requires src <= dst && dst + n <= |s|
    ensures |r| == |s|
    decreases n
  {
    if n == 0 then s else CopiedUp(s[dst + n - 1 := s[src + n - 1]], dst, src, n - 1)
  }

  lemma {:induction false} CopiedUpAt(s: seq<byte>, dst: nat, src: nat, n: nat, k: nat)
    requires src <= dst && dst + n <= |s| && k < |s|
    ensures dst <= k < dst + n ==> CopiedUp(s, dst, src, n)[k] == s[src + k - dst]
    ensures !(dst <= k < dst + n) ==> CopiedUp(s, dst, src, n)[k] == s[k]
    decreases n
  {
    if n > 0 {
      CopiedUpAt(s[dst + n - 1 := s[src + n - 1]], dst, src, n - 1, k);
    }
  }

  /** Copying up back to front is what memmove does. */
  lemma CopiedUpMoves(s: seq<byte>, dst: nat, src: nat, n: nat)
    requires src <= dst && dst + n <= |s|
    ensures CopiedUp(s, dst, src, n) == Moved(s, dst, src, n)
  {
    forall k | 0 <= k < |s|
      ensures CopiedUp(s, dst, src, n)[k] == Moved(s, dst, src, n)[k]
    {
      CopiedUpAt(s, dst, src, n, k);
      MovedAt(s, dst, src, n, k);
    }
  }

  /** memmove on one buffer; the overlapping copy runs in the direction that keeps it correct. */
  method MemMove(a: array<byte>, dst: nat, src: nat, n: nat)
    requires dst + n <= a.Length && src + n <= a.Length
    modifies a
    ensures a[..] == Moved(old(a[..]), dst, src, n)
  {
    if dst <= src {
      MemMoveDown(a, dst, src, n);
      CopiedDownMoves(old(a[..]), dst, src, n);
    } else {
      MemMoveUp(a, dst, src, n);
      CopiedUpMoves(old(a[..]), dst, src, n);
    }
  }

  /** memmove towards lower addresses: the front-to-back copy. */
  method MemMoveDown(a: array<byte>, dst: nat, src: nat, n: nat)
    requires dst <= src && src + n <= a.Length
    modifies a
    ensures a[..] == CopiedDown(old(a[..]), dst, src, n)
  {
    ghost var target := CopiedDown(a[..], dst, src, n);
    var i := 0;
    while i < n
      invariant 0 <= i <= n
      invariant target == CopiedDown(a[..], dst + i, src + i, n - i)
    {
      a[dst + i] := a[src + i];
      i := i + 1;
    }
  }

  /** memmove towards higher addresses: the back-to-front copy. */
  method MemMoveUp(a: array<byte>, dst: nat, src: nat, n: nat)
    requires src <= dst && dst + n <= a.Length
    modifies a
    ensures a[..] == CopiedUp(old(a[..]), dst, src, n)
  {
    ghost var target := CopiedUp(a[..], dst, src, n);
    var i := n;
    while i > 0
      invariant 0 <= i <= n
      invariant target == CopiedUp(a[..], dst, src, i)
    {
      i := i - 1;
      a[dst + i] := a[src + i];
    }
  }

  /** memset(buf, 0, sizeof buf). */
  method MemZero(a: array<byte>)
    modifies a
    ensures a[..] == Zeros(a.Length)
  {
    var i := 0;
    while i < a.Length
      invariant 0 <= i <= a.Length
      invariant forall k :: 0 <= k < i ==> a[k] == NUL
    {
      a[i] := NUL;
      i := i + 1;
    }
    assert a[..] == Zeros(a.Length);
  }
}
