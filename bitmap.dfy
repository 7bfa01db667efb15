/**
 * The occupancy bitmaps of the slot pools (`connections_bitmap` in
 * src/conn.c and conn.c, `clients_bitmap` in client.c): bit `id` is set
 * while slot `id` is in use. A bitmap is the sequence of its bits, bit `i`
 * at index `i`, as long as the word is wide (32 bits for `uint32_t`, 16
 * for `uint16_t`); `b |= 1 << i` sets index `i`, `b &= ~(1 << i)` clears
 * it and `(b & (1 << i)) != 0` reads it.
 */
module Bitmap {
  type Bits = seq<bool>

  /** The bitmap of a pool of `n` slots none of which is in use. */
  function Empty(width: nat): (r: Bits)
    ensures |r| == width && forall i :: 0 <= i < width ==> !r[i]
  {
    seq(width, _ => false)
  }

  /** The ids below `n` whose bits are set. */
  function Members(b: Bits, n: nat): (r: set<nat>)
    requires n <= |b|
    ensures forall i: nat :: i in r <==> i < n && b[i]
  {
    set i: nat | i < n && b[i]
  }

  /**
   * The first-fit choice of the allocators: the lowest id below `n` whose
   * bit is clear, or -1 when all `n` are set.
   */
  function LowestFree(b: Bits, n: nat): (r: int)
    requires n <= |b|
    ensures -1 <= r < n
    ensures r == -1 <==> forall i :: 0 <= i < n ==> b[i]
    ensures r != -1 ==> !b[r] && forall i :: 0 <= i < r ==> b[i]
  {
    LowestFreeFrom(b, 0, n)
  }

  /** The lowest clear id in [from, n), or -1. */
  function LowestFreeFrom(b: Bits, from: nat, n: nat): (r: int)
    requires from <= n <= |b|
    ensures -1 <= r < n && (r != -1 ==> from <= r)
    ensures r == -1 <==> forall i :: from <= i < n ==> b[i]
    ensures r != -1 ==> !b[r] && forall i :: from <= i < r ==> b[i]
    decreases n - from
  {
    if from == n then -1
    else if !b[from] then from
    else LowestFreeFrom(b, from + 1, n)
  }

  /** The ids in [from, n) whose bits are set, in ascending order. */
  function Ascending(b: Bits, from: nat, n: nat): (r: seq<nat>)
    requires from <= n <= |b|
    ensures forall k :: 0 <= k < |r| ==> from <= r[k] < n && b[r[k]]
    ensures forall k, l :: 0 <= k < l < |r| ==> r[k] < r[l]
    decreases n - from
  {
    if from == n then []
    else if b[from] then [from] + Ascending(b, from + 1, n)
    else Ascending(b, from + 1, n)
  }

  /** Every set id in [from, n) appears in `Ascending`. */
  lemma {:induction false} AscendingComplete(b: Bits, from: nat, n: nat, i: nat)
    requires from <= i < n <= |b| && b[i]
    ensures i in Ascending(b, from, n)
    decreases n - from
  {
    if from < i {
      AscendingComplete(b, from + 1, n, i);
    }
  }

  /** `Ascending` lists exactly the members, each once, in ascending order. */
  lemma AscendingMembers(b: Bits, n: nat)
    requires n <= |b|
    ensures var r := Ascending(b, 0, n);
      && (forall i :: i in r <==> i in Members(b, n))
      && (forall k, l :: 0 <= k < l < |r| ==> r[k] < r[l])
  {
    forall i | i in Members(b, n) ensures i in Ascending(b, 0, n) {
      AscendingComplete(b, 0, n, i);
    }
  }

  /** Taking the lowest free id and setting its bit adds exactly that id to the members. */
  lemma AllocateAdds(b: Bits, n: nat)
    requires n <= |b| && LowestFree(b, n) != -1
    ensures var id := LowestFree(b, n);
      id !in Members(b, n) && Members(b[id := true], n) == Members(b, n) + {id}
  {
  }

  /** Clearing a bit removes exactly that id from the members. */
  lemma FreeRemoves(b: Bits, n: nat, id: nat)
    requires id < n <= |b|
    ensures Members(b[id := false], n) == Members(b, n) - {id}
  {
  }
}
