/**
 * The packed `req_fields` layout shared by both request parsers (src/reqparser.c
 * and reqparser.c): the path is written from index 0, the host is written
 * backwards from the last index, and `reqparser_fix_req_fields` turns that into
 * `path NUL host [NUL]`.
 */
module ReqFields {
  import opened Bytes
  import Util

  /**
   * The buffer after `reqparser_fix_req_fields(args, oldHost)`: reverse the
   * host span [oldHost, |buf|-1] with util_reverse's swap loop, then pack it
   * against the first NUL.
   */
  function FixedFields(buf: seq<byte>, oldHost: nat): (r: seq<byte>)
    requires 1 <= oldHost <= |buf| && buf[oldHost - 1] == NUL
    ensures |r| == |buf|
  {
    var rev := Util.Swapped(buf, oldHost, |buf| - 1);
    Util.SwappedAt(buf, oldHost, |buf| - 1, oldHost - 1);
    PackHost(rev, Strlen(rev), oldHost)
  }

  /**
   * `memmove` the span [oldHost, |rev|) down to just after the NUL at `sep`,
   * then NUL-terminate it unless it ends on the last index.
   */
  function PackHost(rev: seq<byte>, sep: nat, oldHost: nat): (r: seq<byte>)
    requires oldHost <= |rev| && sep + 1 + (|rev| - oldHost) <= |rev|
    ensures |r| == |rev|
  {
    var hostLen := |rev| - oldHost;
    var moved := if hostLen != 0 then Util.CopiedDown(rev, sep + 1, oldHost, hostLen) else rev;
    if sep + 1 + hostLen != |rev| then moved[sep + 1 + hostLen := NUL] else moved
  }

  /**
   * The buffer as the host state leaves it just before the final CR: the
   * path, its NUL, untouched zeros and the host bytes received so far, last
   * one first.
   */
  function HostPending(path: seq<byte>, gap: seq<byte>, host: seq<byte>): (r: seq<byte>)
    ensures |r| == |path| + |gap| + 1 + |host|
  {
    path + [NUL] + gap + Util.Reversed(host)
  }

  /** The packed layout `path NUL host [NUL]` that fixing produces. */
  predicate PackedLayout(r: seq<byte>, path: seq<byte>, host: seq<byte>)
  {
    && |path| + 1 + |host| <= |r|
    && r[..|path|] == path
    && r[|path|] == NUL
    && r[|path| + 1..|path| + 1 + |host|] == host
    && (|path| + 1 + |host| < |r| ==> r[|path| + 1 + |host|] == NUL)
  }

  /** Reversing the host span of the pending layout puts the host in received order. */
  lemma PendingReversed(path: seq<byte>, gap: seq<byte>, host: seq<byte>)
    ensures var buf := HostPending(path, gap, host);
      Util.Swapped(buf, |path| + |gap| + 1, |buf| - 1) == path + [NUL] + gap + host
  {
    var buf := HostPending(path, gap, host);
    var oldHost := |path| + |gap| + 1;
    var L := |buf|;
    var rev := Util.Swapped(buf, oldHost, L - 1);
    forall k | 0 <= k < L
      ensures rev[k] == (path + [NUL] + gap + host)[k]
    {
      Util.SwappedAt(buf, oldHost, L - 1, k);
      if oldHost <= k {
        Util.ReversedAt(host, L - 1 - k);
        Util.ReversedAt(host, k - oldHost);
        if oldHost < L - 1 {
          assert rev[k] == buf[oldHost + L - 1 - k];
        }
      }
    }
  }

  /** Where each byte of `PackHost`'s result comes from. */
  lemma PackHostAt(rev: seq<byte>, sep: nat, oldHost: nat, k: nat)
    requires oldHost <= |rev| && sep + 1 + (|rev| - oldHost) <= |rev| && k < |rev|
    ensures k <= sep ==> PackHost(rev, sep, oldHost)[k] == rev[k]
    ensures sep + 1 <= k < sep + 1 + (|rev| - oldHost) ==>
      PackHost(rev, sep, oldHost)[k] == rev[oldHost + (k - (sep + 1))]
    ensures k == sep + 1 + (|rev| - oldHost) ==> PackHost(rev, sep, oldHost)[k] == NUL
  {
    var hostLen := |rev| - oldHost;
    if hostLen != 0 {
      Util.CopiedDownAt(rev, sep + 1, oldHost, hostLen, k);
    }
  }

  /** Moving the host to after the path's NUL and terminating it gives the packed layout. */
  lemma MovedLayout(path: seq<byte>, gap: seq<byte>, host: seq<byte>)
    ensures PackedLayout(PackHost(path + [NUL] + gap + host, |path|, |path| + |gap| + 1), path, host)
  {
    var rev := path + [NUL] + gap + host;
    var oldHost := |path| + |gap| + 1;
    var r := PackHost(rev, |path|, oldHost);
    assert r[..|path|] == path by {
      forall k | 0 <= k < |path| ensures r[k] == path[k] {
        PackHostAt(rev, |path|, oldHost, k);
        assert rev[k] == path[k];
      }
    }
    assert r[|path|] == NUL by {
      PackHostAt(rev, |path|, oldHost, |path|);
      assert rev[|path|] == NUL;
    }
    assert r[|path| + 1..|path| + 1 + |host|] == host by {
      forall k | 0 <= k < |host| ensures r[|path| + 1 + k] == host[k] {
        PackHostAt(rev, |path|, oldHost, |path| + 1 + k);
        assert rev[oldHost + k] == host[k];
      }
    }
    if |path| + 1 + |host| < |r| {
      PackHostAt(rev, |path|, oldHost, |path| + 1 + |host|);
    }
  }

  /**
   * Fixing the pending layout yields the path, a NUL, the host in the order
   * it was received, and a NUL unless the host reaches the last index.
   */
  lemma FixedFieldsLayout(path: seq<byte>, gap: seq<byte>, host: seq<byte>)
    requires NulFree(path) && AllZero(gap)
    ensures var buf := HostPending(path, gap, host);
      buf[|path| + |gap|] == NUL &&
      PackedLayout(FixedFields(buf, |path| + |gap| + 1), path, host)
  {
    var buf := HostPending(path, gap, host);
    assert buf[|path| + |gap|] == NUL by {
      if gap == [] {
        assert buf[|path| + |gap|] == buf[|path|];
      } else {
        assert buf[|path| + |gap|] == gap[|gap| - 1];
      }
    }
    PendingReversed(path, gap, host);
    var rev := path + [NUL] + gap + host;
    assert rev == path + ([NUL] + gap + host);
    StrlenOfPrefix(path, [NUL] + gap + host);
    MovedLayout(path, gap, host);
  }

  /**
   * Decoding the packed layout the way the response writers do (`strlen`
   * for the path, the NUL-free run after it for the host) gives back the
   * path and the host.
   */
  lemma PackedLayoutDecodes(r: seq<byte>, path: seq<byte>, host: seq<byte>)
    requires PackedLayout(r, path, host)
    requires NulFree(path) && NulFree(host)
    ensures Strlen(r) == |path|
    ensures RunLength(r, |path| + 1) == |host|
  {
    assert r == path + r[|path|..];
    StrlenOfPrefix(path, r[|path|..]);
    RunLengthOf(r, |path| + 1, host);
  }
}
