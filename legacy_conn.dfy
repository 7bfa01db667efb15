/**
 * The connection pool of the older conn.c: 16 `struct conn` slots marked
 * in a uint16_t `connections_bitmap`, a driver that hands a slot's bytes to
 * parser_go, and a sender that rebuilds the redirect in tmp_buf and writes
 * what is left of it. The slots have the layout of src/conn.c's, so they
 * are the `Conn.Conn` objects and `Conn.Slot` values.
 *
 * parser_go is declared in parser.h but its definition is not part of this
 * model: the pool takes it as a function from the parser state, the
 * req_fields contents and the received bytes to the result, the state it
 * leaves in its `uint8_t *` argument and the new req_fields contents.
 */
module LegacyConn {
  import opened Bytes
  import opened Bitmap
  import opened Response
  import Conn
  import ReqFields
  import SimpleParser
  import Util

  const MAX_CONN_COUNT: nat := 16

  /** `connections_bitmap` is a uint16_t. */
  const BITMAP_WIDTH: nat := 16

  /** What parser_go returns and leaves behind. */
  datatype GoResult = GoResult(result: SimpleParser.PResult, state: nat, fields: seq<byte>)

  type ParserGo = (nat, seq<byte>, seq<byte>) -> GoResult

  /**
   * What the declaration of parser_go promises: the state it leaves fits
   * its uint8_t, and it writes req_fields only within `req_fields_len`.
   */
  predicate WithinContract(g: GoResult, fieldsLen: nat)
  {
    g.state < 256 && |g.fields| == fieldsLen
  }

  /**
   * conn_recv on a slot: req_fields is what parser_go left, and the state
   * is stored (cut to its 4 bits) only on pr_continue. None when parser_go
   * breaks its contract.
   */
  function Receive(go: ParserGo, s: Conn.Slot, data: seq<byte>): (r: Conn.Received)
    ensures var g := go(s.reqparserState, s.reqFields, data);
      && (r.result.Some? <==> WithinContract(g, |s.reqFields|))
      && (r.result.Some? ==> r.slot == s.(reqparserState := r.slot.reqparserState, reqFields := g.fields))
      && (r.result == Some(Conn.CwmYes) <==> r.result.Some? && g.result == SimpleParser.PrContinue)
      && (r.result == Some(Conn.CwmError) <==> r.result.Some? && g.result == SimpleParser.PrError)
      && (r.result == Some(Conn.CwmNo) <==> r.result.Some? && g.result == SimpleParser.PrFinished)
      && (r.result == Some(Conn.CwmYes) ==> r.slot.reqparserState == g.state % Conn.STATE_RANGE)
      && (r.result != Some(Conn.CwmYes) ==> r.slot.reqparserState == s.reqparserState)
  {
    var g := go(s.reqparserState, s.reqFields, data);
    if !WithinContract(g, |s.reqFields|) then Conn.Received(None, s)
    else
      var s' := s.(reqFields := g.fields);
      match g.result
      case PrContinue => Conn.Received(Some(Conn.CwmYes), s'.(reqparserState := g.state % Conn.STATE_RANGE))
      case PrError => Conn.Received(Some(Conn.CwmError), s')
      case PrFinished => Conn.Received(Some(Conn.CwmNo), s')
  }

  /** The response conn_send builds: the redirect with a bare `\r\n\r\n` footer. */
  function ResponseOf(s: Conn.Slot): (r: Option<seq<byte>>)
  {
    RedirectWithin(s.reqFields, BARE_FOOTER, TMP_BUF_LEN)
  }

  /**
   * conn_send on a slot: rebuild the redirect, then write from
   * `res_bytes_sent` on until it is all out (CWM_NO), write would block
   * (CWM_YES) or fails (CWM_ERROR). None for a failed assertion, a counter
   * already past the response, or a write that reports more than it was given.
   */
  function Sending(s: Conn.Slot, writes: seq<WriteResult>): (r: Conn.Sent)
    ensures r.slot == s.(resBytesSent := r.slot.resBytesSent)
  {
    var d := Deliver(ResponseOf(s), s.resBytesSent, writes);
    Conn.Sent(if d.end.Some? then Conn.Wants(d.end.value) else None, s.(resBytesSent := d.sent), d.out, d.rest)
  }

  /** The static `connections` array, `connections_bitmap` and tmp_buf. */
  class Connections {
    var bitmap: Bits
    const slots: seq<Conn.Conn>
    const tmpBuf: array<byte>
    const go: ParserGo

    ghost predicate Valid()
      reads this, slots
    {
      && |bitmap| == BITMAP_WIDTH && |slots| == MAX_CONN_COUNT && tmpBuf.Length == TMP_BUF_LEN
      && (forall i, j :: 0 <= i < j < |slots| ==> slots[i] != slots[j] && slots[i].reqFields != slots[j].reqFields)
      && (forall i :: 0 <= i < |slots| ==> slots[i].reqFields.Length == Conn.REQ_FIELDS_LEN && slots[i].reqFields != tmpBuf)
      && (forall i :: 0 <= i < |slots| ==> slots[i].Fits())
    }

    /** The req_fields arrays of the slots. */
    ghost function Arrays(): set<object>
    {
      set i | 0 <= i < |slots| :: slots[i].reqFields
    }

    /** The pool holds the bitmap `bits` and the slot values `values`. */
    ghost predicate Holds(bits: Bits, values: seq<Conn.Slot>)
      reads this, slots, Arrays()
    {
      bitmap == bits && |values| == |slots| && forall i :: 0 <= i < |slots| ==> slots[i].Value() == values[i]
    }

    /** Slot `id` as a value. */
    function At(id: nat): (s: Conn.Slot)
      requires id < |slots|
      reads slots[id], slots[id].reqFields
    {
      slots[id].Value()
    }

    /** The zero-initialised statics, with `go` as parser_go: no slot in use. */
    constructor (go: ParserGo)
      ensures Valid() && bitmap == Empty(BITMAP_WIDTH) && this.go == go
      ensures forall i :: 0 <= i < MAX_CONN_COUNT ==> At(i) == Conn.Slot(0, 0, 0, 0, Zeros(Conn.REQ_FIELDS_LEN))
    {
      var s: seq<Conn.Conn> := [];
      var buf := new byte[TMP_BUF_LEN](_ => NUL);
      while |s| < MAX_CONN_COUNT
        invariant |s| <= MAX_CONN_COUNT
        invariant forall i, j :: 0 <= i < j < |s| ==> s[i] != s[j] && s[i].reqFields != s[j].reqFields
        invariant forall i :: 0 <= i < |s| ==> s[i].reqFields != buf && fresh(s[i]) && fresh(s[i].reqFields)
        invariant forall i :: 0 <= i < |s| ==> s[i].Value() == Conn.Slot(0, 0, 0, 0, Zeros(Conn.REQ_FIELDS_LEN))
      {
        var c := new Conn.Conn();
        s := s + [c];
      }
      bitmap := Empty(BITMAP_WIDTH);
      slots := s;
      tmpBuf := buf;
      this.go := go;
    }

    /**
     * conn_new: takes the lowest id whose bit is clear, sets that bit and
     * the slot's socket_fd, and touches nothing else; -1 when all 16 are in use.
     */
    method New(socketFd: int) returns (id: int)
      requires Valid()
      modifies this, slots
      ensures Valid()
      ensures id == LowestFree(old(bitmap), MAX_CONN_COUNT)
      ensures id == -1 ==> bitmap == old(bitmap)
      ensures id != -1 ==> bitmap == old(bitmap)[id := true] && At(id) == old(At(id)).(socketFd := socketFd)
      ensures forall i :: 0 <= i < MAX_CONN_COUNT && i != id ==> At(i) == old(At(i))
    {
      id := 0;
      while id < MAX_CONN_COUNT
        invariant 0 <= id <= MAX_CONN_COUNT
        invariant Valid() && bitmap == old(bitmap)
        invariant forall i :: 0 <= i < id ==> bitmap[i]
        invariant forall i :: 0 <= i < MAX_CONN_COUNT ==> At(i) == old(At(i))
      {
        if !bitmap[id] {
          bitmap := bitmap[id := true];
          slots[id].socketFd := socketFd;
          return;
        }
        id := id + 1;
      }
      return -1;
    }

    /**
     * conn_free: clears bit `index` and resets the slot's counter, parser
     * state (to ps_method_0) and req_fields; the timeout and socket_fd stay.
     */
    method Free(index: nat)
      requires Valid() && index < MAX_CONN_COUNT
      modifies this, slots[index], slots[index].reqFields
      ensures Valid()
      ensures bitmap == old(bitmap)[index := false]
      ensures At(index) == Conn.Freed(old(At(index)))
      ensures forall i :: 0 <= i < MAX_CONN_COUNT && i != index ==> At(i) == old(At(i))
    {
      bitmap := bitmap[index := false];
      var c := slots[index];
      c.resBytesSent := 0;
      c.reqparserState := 0;
      Util.MemZero(c.reqFields);
    }

    /**
     * conn_for_each: the ids the callback is called with, in the order it
     * is called: every id in use, once, ascending.
     */
    method ForEach() returns (ids: seq<nat>)
      requires Valid()
      ensures ids == Ascending(bitmap, 0, MAX_CONN_COUNT)
    {
      ids := [];
      var id := 0;
      while id < MAX_CONN_COUNT
        invariant 0 <= id <= MAX_CONN_COUNT
        invariant ids + Ascending(bitmap, id, MAX_CONN_COUNT) == Ascending(bitmap, 0, MAX_CONN_COUNT)
      {
        ghost var rest := Ascending(bitmap, id + 1, MAX_CONN_COUNT);
        assert Ascending(bitmap, id, MAX_CONN_COUNT) == if bitmap[id] then [id] + rest else rest;
        if bitmap[id] {
          assert ids + ([id] + rest) == (ids + [id]) + rest;
          ids := ids + [id];
        }
        id := id + 1;
      }
    }

    method GetSocketFd(id: nat) returns (fd: int)
      requires Valid() && id < MAX_CONN_COUNT
      ensures fd == At(id).socketFd
    {
      fd := slots[id].socketFd;
    }

    method SetTimeout(id: nat, timeout: Conn.uint64)
      requires Valid() && id < MAX_CONN_COUNT
      modifies slots[id]
      ensures Valid()
      ensures At(id) == old(At(id)).(timeout := timeout)
    {
      slots[id].timeout := timeout;
    }

    method GetTimeout(id: nat) returns (timeout: Conn.uint64)
      requires Valid() && id < MAX_CONN_COUNT
      ensures timeout == At(id).timeout
    {
      timeout := slots[id].timeout;
    }

    /** conn_recv: hands `data` to parser_go with the slot's state and req_fields. */
    method Recv(id: nat, data: seq<byte>) returns (r: Option<Conn.WantsMore>)
      requires Valid() && id < MAX_CONN_COUNT
      modifies slots[id], slots[id].reqFields
      ensures Valid()
      ensures Conn.Received(r, At(id)) == Receive(go, old(At(id)), data)
      ensures forall i :: 0 <= i < MAX_CONN_COUNT && i != id ==> At(i) == old(At(i))
    {
      var c := slots[id];
      var g := go(c.reqparserState, c.reqFields[..], data);
      if !(g.state < 256 && |g.fields| == c.reqFields.Length) {
        return None;
      }
      CopyInto(c.reqFields, 0, g.fields);
      assert c.reqFields[..] == g.fields;
      match g.result
      case PrContinue =>
        c.reqparserState := g.state % Conn.STATE_RANGE;
        r := Some(Conn.CwmYes);
      case PrError => r := Some(Conn.CwmError);
      case PrFinished => r := Some(Conn.CwmNo);
    }

    /** conn_write_redirect_response into `buf`, whose length is the capacity. */
    method WriteRedirectResponse(id: nat, buf: array<byte>) returns (len: Option<nat>)
      requires Valid() && id < MAX_CONN_COUNT
      requires forall i :: 0 <= i < |slots| ==> slots[i].reqFields != buf
      modifies buf
      ensures len.Some? <==> RedirectWithin(At(id).reqFields, BARE_FOOTER, buf.Length).Some?
      ensures len.Some? ==> len.value <= buf.Length && buf[..len.value] == RedirectWithin(At(id).reqFields, BARE_FOOTER, buf.Length).value
    {
      len := WriteRedirect(slots[id].reqFields, buf, BARE_FOOTER);
    }

    /**
     * conn_send: rebuilds the redirect in tmp_buf and writes from
     * res_bytes_sent on, taking the write results in turn from `writes`.
     */
    method Send(id: nat, writes: seq<WriteResult>) returns (r: Option<Conn.WantsMore>, out: seq<byte>, rest: seq<WriteResult>)
      requires Valid() && id < MAX_CONN_COUNT
      modifies slots[id], tmpBuf
      ensures Valid()
      ensures Conn.Sent(r, At(id), out, rest) == Sending(old(At(id)), writes)
      ensures forall i :: 0 <= i < MAX_CONN_COUNT && i != id ==> At(i) == old(At(i))
    {
      var c := slots[id];
      ghost var s0 := At(id);
      var total := WriteRedirectResponse(id, tmpBuf);
      assert c.reqFields[..] == s0.reqFields;
      assert forall i :: 0 <= i < MAX_CONN_COUNT ==> slots[i].reqFields != tmpBuf;
      var d := DeliverFrom(tmpBuf, total, c.resBytesSent, writes, ResponseOf(s0));
      c.resBytesSent := d.sent;
      r := if d.end.Some? then Conn.Wants(d.end.value) else None;
      out := d.out;
      rest := d.rest;
      assert At(id) == s0.(resBytesSent := d.sent);
    }
  }

  /**
   * For a req_fields holding `path NUL host [NUL]`, the response is the
   * redirect to `https://` host `/` path with the bare footer.
   */
  lemma RedirectOfPacked(s: Conn.Slot, path: seq<byte>, host: seq<byte>)
    requires |s.reqFields| == Conn.REQ_FIELDS_LEN
    requires ReqFields.PackedLayout(s.reqFields, path, host) && NulFree(path) && NulFree(host)
    ensures ResponseOf(s) == Some(REDIRECT_HEADER + host + [SLASH] + path + BARE_FOOTER)
  {
    RedirectOfLayout(s.reqFields, path, host, BARE_FOOTER);
    RedirectFits(s.reqFields, BARE_FOOTER);
  }

  /**
   * conn_send finishes exactly when the counter reaches the response length,
   * the socket has then taken the response from where the counter stood,
   * and a write that would block leaves the counter where it is.
   */
  lemma SendCompletes(s: Conn.Slot, writes: seq<WriteResult>)
    requires ResponseOf(s).Some? && s.resBytesSent <= |ResponseOf(s).value|
    ensures var resp := ResponseOf(s).value;
      var r := Sending(s, writes);
      && (r.result == Some(Conn.CwmNo) <==> r.slot.resBytesSent == |resp|)
      && r.out == resp[s.resBytesSent..r.slot.resBytesSent]
      && (s.resBytesSent < |resp| && (writes == [] || writes[0] == Again) ==>
            r.result == Some(Conn.CwmYes) && r.slot == s)
  {
    var d := Deliver(ResponseOf(s), s.resBytesSent, writes);
    assert d.end.Some?;
  }
}
