/**
 * The connection pool of src/conn.c: 28 `struct conn` slots, the
 * `connections_bitmap` that marks the used ones, the driver that feeds a
 * slot's bytes to reqparser_feed, and the sender that rebuilds the
 * response in util_tmp_buf and writes what is left of it.
 */
module Conn {
  import opened Bytes
  import opened Bitmap
  import opened Response
  import ReqParser
  import Util

  const MAX_CONN_COUNT: nat := 28

  /** `connections_bitmap` is a uint32_t. */
  const BITMAP_WIDTH: nat := 32

  const REQ_FIELDS_LEN: nat := 242

  /** The reqparser_state that marks a request too large for req_fields. */
  const REQPARSER_CUSTOM_ERR: nat := 15

  /** `reqparser_state` is a 4-bit field. */
  const STATE_RANGE: nat := 16

  type uint64 = x: int | 0 <= x < 0x1_0000_0000_0000_0000

  /** enum conn_wants_more. */
  datatype WantsMore = CwmYes | CwmNo | CwmError

  /** A `struct conn` as a value. */
  datatype Slot = Slot(timeout: uint64, socketFd: int, resBytesSent: nat, reqparserState: nat, reqFields: seq<byte>)

  /** What conn_free leaves in a slot: counters and parser state reset, req_fields zeroed. */
  function Freed(s: Slot): (r: Slot)
    ensures r.timeout == s.timeout && r.socketFd == s.socketFd
    ensures r.resBytesSent == 0 && r.reqparserState == ReqParser.RT_METHOD && AllZero(r.reqFields)
    ensures |r.reqFields| == REQ_FIELDS_LEN
  {
    s.(resBytesSent := 0, reqparserState := 0, reqFields := seq(REQ_FIELDS_LEN, _ => NUL))
  }

  /**
   * conn_recv's result and the slot it leaves. None stands for a process
   * that does not go on: a failed assertion (the id is not in use, or
   * reqparser_feed fails one of its own) or undefined behaviour inside the
   * parser.
   */
  datatype Received = Received(result: Option<WantsMore>, slot: Slot)

  /**
   * conn_recv on a slot: req_fields is whatever reqparser_feed left, and the
   * parser state is stored only on NeedsMoreData (cut to its 4 bits) and on
   * BufferTooSmall (as REQPARSER_CUSTOM_ERR).
   */
  function Receive(valid: bool, s: Slot, data: seq<byte>): (r: Received)
    requires s.reqparserState < 256
    ensures !valid ==> r.result.None? && r.slot == s
    ensures r.slot.timeout == s.timeout && r.slot.socketFd == s.socketFd && r.slot.resBytesSent == s.resBytesSent
    ensures r.slot.reqparserState < STATE_RANGE || r.slot.reqparserState == s.reqparserState
  {
    if !valid then Received(None, s)
    else
      var f := ReqParser.FeedResult(s.reqparserState, s.reqFields, data, 0);
      var s' := s.(reqFields := f.fields);
      match f.completion
      case Complete => Received(Some(CwmNo), s')
      case NeedsMoreData => Received(Some(CwmYes), s'.(reqparserState := f.state % STATE_RANGE))
      case BadData => Received(Some(CwmError), s')
      case BufferTooSmall => Received(Some(CwmNo), s'.(reqparserState := REQPARSER_CUSTOM_ERR))
      case AssertionFailure => Received(None, s')
      case Undefined => Received(None, s')
  }

  /**
   * The response conn_send builds: the 414 when the parser state is
   * REQPARSER_CUSTOM_ERR, the redirect otherwise.
   */
  function ResponseOf(s: Slot): (r: Option<seq<byte>>)
  {
    if s.reqparserState == REQPARSER_CUSTOM_ERR then Some(TOO_LONG)
    else RedirectWithin(s.reqFields, REDIRECT_FOOTER, TMP_BUF_LEN)
  }

  /**
   * conn_send's result, the slot it leaves, the bytes the socket took and
   * the write results it left unused.
   */
  datatype Sent = Sent(result: Option<WantsMore>, slot: Slot, out: seq<byte>, rest: seq<WriteResult>)

  /**
   * conn_send on a slot: rebuild the response, then write from
   * `res_bytes_sent` on until it is all out (CWM_NO), write would block
   * (CWM_YES) or fails (CWM_ERROR). None for a failed assertion, a counter
   * already past the response, or a write that reports more than it was given.
   */
  function Sending(valid: bool, s: Slot, writes: seq<WriteResult>): (r: Sent)
    ensures r.slot == s.(resBytesSent := r.slot.resBytesSent)
  {
    if !valid then Sent(None, s, [], writes)
    else
      var d := Deliver(ResponseOf(s), s.resBytesSent, writes);
      Sent(if d.end.Some? then Wants(d.end.value) else None, s.(resBytesSent := d.sent), d.out, d.rest)
  }

  /** How conn_send reports the end of its write loop. */
  function Wants(end: Drain): (r: Option<WantsMore>)
    ensures r == Some(CwmNo) <==> end == Drained
    ensures r == Some(CwmYes) <==> end == Blocked
    ensures r == Some(CwmError) <==> end == Broke
  {
    match end
    case Drained => Some(CwmNo)
    case Blocked => Some(CwmYes)
    case Broke => Some(CwmError)
    case Overran => None
  }

  /** One `struct conn`; req_fields is its own array. */
  class Conn {
    var timeout: uint64
    var socketFd: int
    var resBytesSent: nat
    var reqparserState: nat
    const reqFields: array<byte>

    /** The parser state and the counter fit their bit-fields. */
    ghost predicate Fits()
      reads this
    {
      reqparserState < STATE_RANGE && resBytesSent < SENT_RANGE
    }

    function Value(): (s: Slot)
      reads this, reqFields
    {
      Slot(timeout, socketFd, resBytesSent, reqparserState, reqFields[..])
    }

    /** A slot of the zero-initialised static array. */
    constructor ()
      ensures Value() == Slot(0, 0, 0, 0, Zeros(REQ_FIELDS_LEN))
      ensures fresh(reqFields)
    {
      timeout := 0;
      socketFd := 0;
      resBytesSent := 0;
      reqparserState := 0;
      reqFields := new byte[REQ_FIELDS_LEN](_ => NUL);
      new;
      assert reqFields[..] == Zeros(REQ_FIELDS_LEN);
    }
  }

  /** The static `connections` array, `connections_bitmap` and util_tmp_buf. */
  class Connections {
    var bitmap: Bits
    const slots: seq<Conn>
    const tmpBuf: array<byte>

    ghost predicate Valid()
      reads this, slots
    {
      && |bitmap| == BITMAP_WIDTH && |slots| == MAX_CONN_COUNT && tmpBuf.Length == TMP_BUF_LEN
      && (forall i, j :: 0 <= i < j < |slots| ==> slots[i] != slots[j] && slots[i].reqFields != slots[j].reqFields)
      && (forall i :: 0 <= i < |slots| ==> slots[i].reqFields.Length == REQ_FIELDS_LEN && slots[i].reqFields != tmpBuf)
      && (forall i :: 0 <= i < |slots| ==> slots[i].Fits())
      && (forall i :: MAX_CONN_COUNT <= i < BITMAP_WIDTH ==> !bitmap[i])
    }

    /** The req_fields arrays of the slots. */
    ghost function Arrays(): set<object>
    {
      set i | 0 <= i < |slots| :: slots[i].reqFields
    }

    /** The pool holds the bitmap `bits` and the slot values `values`. */
    ghost predicate Holds(bits: Bits, values: seq<Slot>)
      reads this, slots, Arrays()
    {
      bitmap == bits && |values| == |slots| && forall i :: 0 <= i < |slots| ==> slots[i].Value() == values[i]
    }

    /** Slot `id` as a value. */
    function At(id: nat): (s: Slot)
      requires id < |slots|
      reads slots[id], slots[id].reqFields
    {
      slots[id].Value()
    }

    /** The zero-initialised statics: no slot in use. */
    constructor ()
      ensures Valid() && bitmap == Empty(BITMAP_WIDTH)
      ensures forall i :: 0 <= i < MAX_CONN_COUNT ==> At(i) == Slot(0, 0, 0, 0, Zeros(REQ_FIELDS_LEN))
    {
      var s: seq<Conn> := [];
      var buf := new byte[TMP_BUF_LEN](_ => NUL);
      while |s| < MAX_CONN_COUNT
        invariant |s| <= MAX_CONN_COUNT
        invariant forall i, j :: 0 <= i < j < |s| ==> s[i] != s[j] && s[i].reqFields != s[j].reqFields
        invariant forall i :: 0 <= i < |s| ==> s[i].reqFields != buf && fresh(s[i]) && fresh(s[i].reqFields)
        invariant forall i :: 0 <= i < |s| ==> s[i].Value() == Slot(0, 0, 0, 0, Zeros(REQ_FIELDS_LEN))
      {
        var c := new Conn();
        s := s + [c];
      }
      bitmap := Empty(BITMAP_WIDTH);
      slots := s;
      tmpBuf := buf;
    }

    /** conn_is_valid: whether bit `id` is set. */
    method IsValid(id: nat) returns (b: bool)
      requires Valid() && id < BITMAP_WIDTH
      ensures b == bitmap[id]
      ensures b ==> id < MAX_CONN_COUNT
    {
      b := bitmap[id];
    }

    /**
     * conn_is_full is called by the event loop but not defined in the
     * sources modelled here; this is its specification: every one of the
     * 28 slots is in use.
     */
    method IsFull() returns (full: bool)
      requires Valid()
      ensures full <==> forall i :: 0 <= i < MAX_CONN_COUNT ==> bitmap[i]
    {
      full := LowestFree(bitmap, MAX_CONN_COUNT) == -1;
    }

    /**
     * conn_new: takes the lowest id whose bit is clear, sets that bit and
     * the slot's socket_fd, and touches nothing else; -1 when all 28 are in use.
     */
    method New(socketFd: int) returns (id: int)
      requires Valid()
      modifies this, slots
      ensures Valid()
      ensures id == LowestFree(old(bitmap), MAX_CONN_COUNT)
      ensures id == -1 ==> bitmap == old(bitmap)
      ensures id != -1 ==> bitmap == old(bitmap)[id := true] && At(id) == old(At(id)).(socketFd := socketFd)
      ensures forall i :: 0 <= i < MAX_CONN_COUNT && i != id ==> At(i) == old(At(i))
    {
      id := 0;
      while id < MAX_CONN_COUNT
        invariant 0 <= id <= MAX_CONN_COUNT
        invariant Valid() && bitmap == old(bitmap)
        invariant forall i :: 0 <= i < id ==> bitmap[i]
        invariant forall i :: 0 <= i < MAX_CONN_COUNT ==> At(i) == old(At(i))
      {
        var used := IsValid(id);
        if !used {
          bitmap := bitmap[id := true];
          slots[id].socketFd := socketFd;
          return;
        }
        id := id + 1;
      }
      return -1;
    }

    /**
     * conn_free: clears bit `index` and resets the slot's counter, parser
     * state and req_fields; the timeout and socket_fd stay.
     */
    method Free(index: nat)
      requires Valid() && index < MAX_CONN_COUNT
      modifies this, slots[index], slots[index].reqFields
      ensures Valid()
      ensures bitmap == old(bitmap)[index := false]
      ensures At(index) == Freed(old(At(index)))
      ensures forall i :: 0 <= i < MAX_CONN_COUNT && i != index ==> At(i) == old(At(i))
    {
      bitmap := bitmap[index := false];
      var c := slots[index];
      c.resBytesSent := 0;
      c.reqparserState := 0;
      Util.MemZero(c.reqFields);
    }

    /**
     * conn_for_each: the ids the callback is called with, in the order it
     * is called: every id in use, once, ascending.
     */
    method ForEach() returns (ids: seq<nat>)
      requires Valid()
      ensures ids == Ascending(bitmap, 0, MAX_CONN_COUNT)
    {
      ids := [];
      var id := 0;
      while id < MAX_CONN_COUNT
        invariant 0 <= id <= MAX_CONN_COUNT
        invariant ids + Ascending(bitmap, id, MAX_CONN_COUNT) == Ascending(bitmap, 0, MAX_CONN_COUNT)
      {
        var used := IsValid(id);
        ghost var rest := Ascending(bitmap, id + 1, MAX_CONN_COUNT);
        assert Ascending(bitmap, id, MAX_CONN_COUNT) == if used then [id] + rest else rest;
        if used {
          assert ids + ([id] + rest) == (ids + [id]) + rest;
          ids := ids + [id];
        }
        id := id + 1;
      }
    }

    method GetSocketFd(id: nat) returns (fd: int)
      requires Valid() && id < MAX_CONN_COUNT
      ensures fd == At(id).socketFd
    {
      fd := slots[id].socketFd;
    }

    method SetTimeout(id: nat, timeout: uint64)
      requires Valid() && id < MAX_CONN_COUNT
      modifies slots[id]
      ensures Valid()
      ensures At(id) == old(At(id)).(timeout := timeout)
    {
      slots[id].timeout := timeout;
    }

    method GetTimeout(id: nat) returns (timeout: uint64)
      requires Valid() && id < MAX_CONN_COUNT
      ensures timeout == At(id).timeout
    {
      timeout := slots[id].timeout;
    }

    /** conn_recv: feeds `data` to the slot's parser. */
    method Recv(id: nat, data: seq<byte>) returns (r: Option<WantsMore>)
      requires Valid() && id < MAX_CONN_COUNT
      modifies slots[id], slots[id].reqFields
      ensures Valid()
      ensures Received(r, At(id)) == Receive(old(bitmap[id]), old(At(id)), data)
      ensures forall i :: 0 <= i < MAX_CONN_COUNT && i != id ==> At(i) == old(At(i))
    {
      var valid := IsValid(id);
      if !valid {
        return None;
      }
      var c := slots[id];
      var args := new ReqParser.Args(c.reqparserState, data, 0, c.reqFields);
      var completion := ReqParser.Feed(args);
      match completion
      case Complete => r := Some(CwmNo);
      case NeedsMoreData =>
        c.reqparserState := args.state % STATE_RANGE;
        r := Some(CwmYes);
      case BadData => r := Some(CwmError);
      case BufferTooSmall =>
        c.reqparserState := REQPARSER_CUSTOM_ERR;
        r := Some(CwmNo);
      case AssertionFailure => r := None;
      case Undefined => r := None;
    }

    /** conn_write_redirect_response into `buf`, whose length is the capacity. */
    method WriteRedirectResponse(id: nat, buf: array<byte>) returns (len: Option<nat>)
      requires Valid() && id < MAX_CONN_COUNT
      requires forall i :: 0 <= i < |slots| ==> slots[i].reqFields != buf
      modifies buf
      ensures len.Some? ==> bitmap[id]
      ensures len.Some? <==> bitmap[id] && RedirectWithin(At(id).reqFields, REDIRECT_FOOTER, buf.Length).Some?
      ensures len.Some? ==> len.value <= buf.Length && buf[..len.value] == RedirectWithin(At(id).reqFields, REDIRECT_FOOTER, buf.Length).value
    {
      var valid := IsValid(id);
      if !valid {
        return None;
      }
      len := WriteRedirect(slots[id].reqFields, buf, REDIRECT_FOOTER);
    }

    /** conn_write_too_long_response into `buf`. */
    static method WriteTooLongResponse(buf: array<byte>) returns (len: Option<nat>)
      modifies buf
      ensures len.Some? <==> |TOO_LONG| <= buf.Length
      ensures len.Some? ==> len.value == |TOO_LONG| && buf[..len.value] == TOO_LONG
    {
      len := WriteWhole(buf, TOO_LONG);
    }

    /**
     * The first step of conn_send: the 414 into util_tmp_buf when the parser
     * state is REQPARSER_CUSTOM_ERR, the redirect otherwise; its length.
     */
    method BuildResponse(id: nat) returns (total: Option<nat>)
      requires Valid() && id < MAX_CONN_COUNT && bitmap[id]
      modifies tmpBuf
      ensures total.Some? <==> ResponseOf(At(id)).Some?
      ensures total.Some? ==> total.value <= tmpBuf.Length && tmpBuf[..total.value] == ResponseOf(At(id)).value
      ensures forall i :: 0 <= i < MAX_CONN_COUNT ==> At(i) == old(At(i))
    {
      if slots[id].reqparserState == REQPARSER_CUSTOM_ERR {
        total := WriteTooLongResponse(tmpBuf);
        TooLongFramed();
      } else {
        total := WriteRedirectResponse(id, tmpBuf);
      }
    }

    /**
     * conn_send: rebuilds the response in util_tmp_buf and writes from
     * res_bytes_sent on, taking the write results in turn from `writes`.
     */
    method Send(id: nat, writes: seq<WriteResult>) returns (r: Option<WantsMore>, out: seq<byte>, rest: seq<WriteResult>)
      requires Valid() && id < MAX_CONN_COUNT
      modifies slots[id], tmpBuf
      ensures Valid()
      ensures Sent(r, At(id), out, rest) == Sending(old(bitmap[id]), old(At(id)), writes)
      ensures forall i :: 0 <= i < MAX_CONN_COUNT && i != id ==> At(i) == old(At(i))
    {
      var valid := IsValid(id);
      if !valid {
        return None, [], writes;
      }
      ghost var s0 := At(id);
      var total := BuildResponse(id);
      var d := DeliverFrom(tmpBuf, total, slots[id].resBytesSent, writes, ResponseOf(s0));
      SetSent(id, d.sent);
      r := if d.end.Some? then Wants(d.end.value) else None;
      out := d.out;
      rest := d.rest;
    }

    /** Stores the new res_bytes_sent of slot `id`. */
    method SetSent(id: nat, sent: nat)
      requires Valid() && id < MAX_CONN_COUNT && sent < SENT_RANGE
      modifies slots[id]
      ensures Valid()
      ensures At(id) == old(At(id)).(resBytesSent := sent)
      ensures forall i :: 0 <= i < MAX_CONN_COUNT && i != id ==> At(i) == old(At(i))
    {
      slots[id].resBytesSent := sent;
    }
  }
}
