/**
 * The client pool of client.c: 16 `struct client` slots marked in a
 * uint16_t `clients_bitmap`, the redirect writer and the sender that
 * writes what is left of it from tmp_buf. `struct client` (client.h) has
 * the layout of `struct conn`, so the slots are `Conn.Conn` objects and
 * `Conn.Slot` values.
 */
module Client {
  import opened Bytes
  import opened Bitmap
  import opened Response
  import Conn
  import ReqFields
  import Util

  const MAX_CLIENTS: nat := 16

  /** `clients_bitmap` is a uint16_t. */
  const BITMAP_WIDTH: nat := 16

  /** enum client_respond. */
  datatype ClientRespond = CrContinue | CrError | CrFinished

  /** How client_continue_sending_response reports the end of its write loop. */
  function Responds(end: Drain): (r: Option<ClientRespond>)
    ensures r == Some(CrFinished) <==> end == Drained
    ensures r == Some(CrContinue) <==> end == Blocked
    ensures r == Some(CrError) <==> end == Broke
  {
    match end
    case Drained => Some(CrFinished)
    case Blocked => Some(CrContinue)
    case Broke => Some(CrError)
    case Overran => None
  }

  /**
   * The response client_write_response writes into tmp_buf: the redirect
   * with a bare `\r\n\r\n` footer. None when strlen runs past req_fields or
   * the response would overflow tmp_buf, which client.c does not check.
   */
  function ResponseOf(s: Conn.Slot): (r: Option<seq<byte>>)
  {
    RedirectWithin(s.reqFields, BARE_FOOTER, TMP_BUF_LEN)
  }

  /** client_continue_sending_response's result, the slot it leaves and the bytes the socket took. */
  datatype Continued = Continued(result: Option<ClientRespond>, slot: Conn.Slot, out: seq<byte>)

  /**
   * client_continue_sending_response on a slot: rebuild the redirect, then
   * write from `res_bytes_sent` on until it is all out (cr_finished), write
   * would block (cr_continue) or fails (cr_error).
   */
  function Sending(s: Conn.Slot, writes: seq<WriteResult>): (r: Continued)
    ensures r.slot == s.(resBytesSent := r.slot.resBytesSent)
  {
    var d := Deliver(ResponseOf(s), s.resBytesSent, writes);
    Continued(if d.end.Some? then Responds(d.end.value) else None, s.(resBytesSent := d.sent), d.out)
  }

  /** client_write_response: the redirect for `c` into `buf`, and its length. */
  method WriteResponse(c: Conn.Conn, buf: array<byte>) returns (len: Option<nat>)
    requires c.reqFields != buf
    modifies buf
    ensures len.Some? <==> RedirectWithin(c.reqFields[..], BARE_FOOTER, buf.Length).Some?
    ensures len.Some? ==> len.value <= buf.Length && buf[..len.value] == RedirectWithin(c.reqFields[..], BARE_FOOTER, buf.Length).value
  {
    len := WriteRedirect(c.reqFields, buf, BARE_FOOTER);
  }

  /** The static `clients` array, `clients_bitmap` and tmp_buf. */
  class Clients {
    var bitmap: Bits
    const slots: seq<Conn.Conn>
    const tmpBuf: array<byte>

    ghost predicate Valid()
      reads this, slots
    {
      && |bitmap| == BITMAP_WIDTH && |slots| == MAX_CLIENTS && tmpBuf.Length == TMP_BUF_LEN
      && (forall i, j :: 0 <= i < j < |slots| ==> slots[i] != slots[j] && slots[i].reqFields != slots[j].reqFields)
      && (forall i :: 0 <= i < |slots| ==> slots[i].reqFields.Length == Conn.REQ_FIELDS_LEN && slots[i].reqFields != tmpBuf)
      && (forall i :: 0 <= i < |slots| ==> slots[i].Fits())
    }

    /** Slot `index` as a value. */
    function At(index: nat): (s: Conn.Slot)
      requires index < |slots|
      reads slots[index], slots[index].reqFields
    {
      slots[index].Value()
    }

    /** The zero-initialised statics: no slot in use. */
    constructor ()
      ensures Valid() && bitmap == Empty(BITMAP_WIDTH)
      ensures forall i :: 0 <= i < MAX_CLIENTS ==> At(i) == Conn.Slot(0, 0, 0, 0, Zeros(Conn.REQ_FIELDS_LEN))
    {
      var s: seq<Conn.Conn> := [];
      var buf := new byte[TMP_BUF_LEN](_ => NUL);
      while |s| < MAX_CLIENTS
        invariant |s| <= MAX_CLIENTS
        invariant forall i, j :: 0 <= i < j < |s| ==> s[i] != s[j] && s[i].reqFields != s[j].reqFields
        invariant forall i :: 0 <= i < |s| ==> s[i].reqFields != buf && fresh(s[i]) && fresh(s[i].reqFields)
        invariant forall i :: 0 <= i < |s| ==> s[i].Value() == Conn.Slot(0, 0, 0, 0, Zeros(Conn.REQ_FIELDS_LEN))
      {
        var c := new Conn.Conn();
        s := s + [c];
      }
      bitmap := Empty(BITMAP_WIDTH);
      slots := s;
      tmpBuf := buf;
    }

    /**
     * client_allocate: takes the lowest index whose bit is clear and sets
     * that bit, and touches no slot; -1 when all 16 are in use.
     */
    method Allocate() returns (index: int)
      requires Valid()
      modifies this
      ensures Valid()
      ensures index == LowestFree(old(bitmap), MAX_CLIENTS)
      ensures index == -1 ==> bitmap == old(bitmap)
      ensures index != -1 ==> bitmap == old(bitmap)[index := true]
    {
      index := 0;
      while index < MAX_CLIENTS
        invariant 0 <= index <= MAX_CLIENTS
        invariant bitmap == old(bitmap)
        invariant forall i :: 0 <= i < index ==> bitmap[i]
      {
        if !bitmap[index] {
          bitmap := bitmap[index := true];
          return;
        }
        index := index + 1;
      }
      return -1;
    }

    /**
     * client_free: clears bit `index` and resets the slot's counter, parser
     * state (to ps_method_0) and req_fields; the timeout and socket_fd stay.
     */
    method Free(index: nat)
      requires Valid() && index < MAX_CLIENTS
      modifies this, slots[index], slots[index].reqFields
      ensures Valid()
      ensures bitmap == old(bitmap)[index := false]
      ensures At(index) == Conn.Freed(old(At(index)))
      ensures forall i :: 0 <= i < MAX_CLIENTS && i != index ==> At(i) == old(At(i))
    {
      bitmap := bitmap[index := false];
      var c := slots[index];
      c.resBytesSent := 0;
      c.reqparserState := 0;
      Util.MemZero(c.reqFields);
    }

    /**
     * client_get: the slot at `index` while its bit is set, null otherwise;
     * the bits above the 16 of `clients_bitmap` read as clear.
     */
    method Get(index: nat) returns (c: Conn.Conn?)
      requires Valid() && index < 31
      ensures c == null <==> !(index < MAX_CLIENTS && bitmap[index])
      ensures c != null ==> c == slots[index]
    {
      if index >= BITMAP_WIDTH || !bitmap[index] {
        return null;
      }
      c := slots[index];
    }

    /** client_get_max_index: the number of slots, one past the largest index. */
    method GetMaxIndex() returns (n: nat)
      requires Valid()
      ensures n == |slots| && n == |bitmap|
    {
      n := MAX_CLIENTS;
    }

    /**
     * client_continue_sending_response: rebuilds the redirect in tmp_buf and
     * writes from res_bytes_sent on, taking the write results in turn from
     * `writes`.
     */
    method ContinueSending(c: Conn.Conn, writes: seq<WriteResult>) returns (r: Option<ClientRespond>, out: seq<byte>)
      requires Valid() && c in slots
      modifies c, tmpBuf
      ensures Valid()
      ensures Continued(r, c.Value(), out) == Sending(old(c.Value()), writes)
    {
      ghost var s0 := c.Value();
      ghost var i :| 0 <= i < |slots| && slots[i] == c;
      assert c.reqFields != tmpBuf && c.reqFields.Length < SENT_RANGE;
      var total := WriteResponse(c, tmpBuf);
      assert c.reqFields[..] == s0.reqFields;
      var d := DeliverFrom(tmpBuf, total, c.resBytesSent, writes, ResponseOf(s0));
      c.resBytesSent := d.sent;
      r := if d.end.Some? then Responds(d.end.value) else None;
      out := d.out;
      assert c.Value() == s0.(resBytesSent := d.sent);
    }
  }

  /**
   * For a req_fields holding `path NUL host [NUL]`, the response is the
   * redirect to `https://` host `/` path with the bare footer.
   */
  lemma RedirectOfPacked(s: Conn.Slot, path: seq<byte>, host: seq<byte>)
    requires |s.reqFields| == Conn.REQ_FIELDS_LEN
    requires ReqFields.PackedLayout(s.reqFields, path, host) && NulFree(path) && NulFree(host)
    ensures ResponseOf(s) == Some(REDIRECT_HEADER + host + [SLASH] + path + BARE_FOOTER)
  {
    RedirectOfLayout(s.reqFields, path, host, BARE_FOOTER);
    RedirectFits(s.reqFields, BARE_FOOTER);
  }

  /**
   * client_continue_sending_response finishes exactly when the counter reaches the response length,
   * the socket has then taken the response from where the counter stood,
   * and a write that would block leaves the counter where it is.
   */
  lemma SendCompletes(s: Conn.Slot, writes: seq<WriteResult>)
    requires ResponseOf(s).Some? && s.resBytesSent <= |ResponseOf(s).value|
    ensures var resp := ResponseOf(s).value;
      var r := Sending(s, writes);
      && (r.result == Some(CrFinished) <==> r.slot.resBytesSent == |resp|)
      && r.out == resp[s.resBytesSent..r.slot.resBytesSent]
      && (s.resBytesSent < |resp| && (writes == [] || writes[0] == Again) ==>
            r.result == Some(CrContinue) && r.slot == s)
  {
    var d := Deliver(ResponseOf(s), s.resBytesSent, writes);
    assert d.end.Some?;
  }
}
