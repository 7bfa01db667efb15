/**
 * What the src/conn.c driver and sender do with whole requests and
 * partial writes, stated on the slot values of module Conn.
 */
module ConnFacts {
  import opened Bytes
  import opened ReqFields
  import opened Response
  import opened Conn
  import ReqParser
  import ReqParserFacts
  import ReqParserResume

  /** A freed slot starts a request cleanly: RT_METHOD over a zeroed req_fields. */
  lemma FreedStartsClean(s: Slot)
    ensures var f := Freed(s);
      ReqParser.Entry(f.reqparserState) == Some(ReqParser.Method)
      && ReqParserResume.Good(ReqParser.Method, f.reqFields)
  {
    ReqParserResume.ZeroedGood(Freed(s).reqFields);
  }

  /**
   * A request whose Host header follows the request line, received at once
   * by a freed slot whose req_fields has room for path, NUL and host:
   * conn_recv answers CWM_NO and leaves `path NUL host [NUL]` in req_fields.
   */
  lemma WholeRequestReceived(s: Slot, gap: nat, verb: seq<byte>, path: seq<byte>, rest: seq<byte>, host: seq<byte>)
    requires ReqParserFacts.WellFormed(verb, path, rest, host)
    requires |path| + gap + |host| + 1 == REQ_FIELDS_LEN
    ensures var r := Receive(true, Freed(s), ReqParserFacts.Request(verb, path, rest, host));
      && r.result == Some(CwmNo)
      && r.slot.reqparserState == ReqParser.RT_METHOD
      && PackedLayout(r.slot.reqFields, path, host)
  {
    var input := ReqParserFacts.Request(verb, path, rest, host);
    var fields := Zeros(|path| + (gap + |host| + 1));
    ReqParserFacts.WholeRequestCompletes(gap, verb, path, rest, host);
    ReqParserFacts.WholeRequestPacked(gap, verb, path, rest, host);
    assert Freed(s).reqFields == fields;
  }

  /**
   * Then conn_send builds the redirect to `https://` host `/` path. The
   * path starts with `/`, so the Location value has `//` after the host.
   */
  lemma WholeRequestRedirects(s: Slot, gap: nat, verb: seq<byte>, path: seq<byte>, rest: seq<byte>, host: seq<byte>)
    requires ReqParserFacts.WellFormed(verb, path, rest, host) && NulFree(host)
    requires |path| + gap + |host| + 1 == REQ_FIELDS_LEN
    ensures var r := Receive(true, Freed(s), ReqParserFacts.Request(verb, path, rest, host));
      && r.result == Some(CwmNo)
      && ResponseOf(r.slot) == Some(REDIRECT_HEADER + host + [SLASH] + path + REDIRECT_FOOTER)
      && ResponseOf(r.slot) == Some(REDIRECT_HEADER + host + [SLASH, SLASH] + path[1..] + REDIRECT_FOOTER)
  {
    var r := Receive(true, Freed(s), ReqParserFacts.Request(verb, path, rest, host));
    WholeRequestReceived(s, gap, verb, path, rest, host);
    RedirectOfLayout(r.slot.reqFields, path, host, REDIRECT_FOOTER);
    DoubleSlash(REDIRECT_HEADER + host, path, REDIRECT_FOOTER);
  }

  /** A path that starts with `/`, written after `/`, gives `//`. */
  lemma DoubleSlash(head: seq<byte>, path: seq<byte>, tail: seq<byte>)
    requires |path| != 0 && path[0] == SLASH
    ensures head + [SLASH] + path + tail == head + [SLASH, SLASH] + path[1..] + tail
  {
    assert path == [SLASH] + path[1..];
    assert [SLASH] + path == [SLASH, SLASH] + path[1..];
  }

  /**
   * When path, NUL and host fill all 242 bytes of req_fields, conn_recv
   * still completes, but the host scan as written reaches the end of
   * req_fields and reads the byte after it; the bounded scan gives the
   * redirect to the parsed host and path.
   */
  lemma FullFieldsScanAsWritten(s: Slot, verb: seq<byte>, path: seq<byte>, rest: seq<byte>, host: seq<byte>)
    requires ReqParserFacts.WellFormed(verb, path, rest, host) && NulFree(host)
    requires |path| + 1 + |host| == REQ_FIELDS_LEN
    ensures var r := Receive(true, Freed(s), ReqParserFacts.Request(verb, path, rest, host));
      && r.result == Some(CwmNo)
      && |r.slot.reqFields| == REQ_FIELDS_LEN
      && Strlen(r.slot.reqFields) == |path|
      && HostEndAsWritten(r.slot.reqFields, |path| + 1) == None
      && ResponseOf(r.slot) == Some(REDIRECT_HEADER + host + [SLASH] + path + REDIRECT_FOOTER)
  {
    var r := Receive(true, Freed(s), ReqParserFacts.Request(verb, path, rest, host));
    WholeRequestReceived(s, 0, verb, path, rest, host);
    WholeRequestRedirects(s, 0, verb, path, rest, host);
    assert |r.slot.reqFields| == REQ_FIELDS_LEN by {
      var f := ReqParser.FeedResult(ReqParser.RT_METHOD, Freed(s).reqFields, ReqParserFacts.Request(verb, path, rest, host), 0);
      assert r.slot.reqFields == f.fields;
      ReqParserResume.RunKeepsLength(ReqParser.Method, Freed(s).reqFields, ReqParserFacts.Request(verb, path, rest, host), 0);
    }
    PackedLayoutDecodes(r.slot.reqFields, path, host);
    HostFillsEnd(r.slot.reqFields, path, host);
  }

  /**
   * A request too long for req_fields: when reqparser_feed reports
   * BufferTooSmall, conn_recv answers CWM_NO and conn_send builds the 414,
   * whatever req_fields holds.
   */
  lemma TooSmallSendsTooLong(s: Slot, data: seq<byte>)
    requires s.reqparserState < 256
    requires |data| != 0 && ReqParser.FeedResult(s.reqparserState, s.reqFields, data, 0).completion == ReqParser.BufferTooSmall
    ensures var r := Receive(true, s, data);
      r.result == Some(CwmNo) && ResponseOf(r.slot) == Some(TOO_LONG)
  {
  }

  /**
   * conn_recv keeps the parser state only when the parser needs more
   * data; on every other result the stored state is the one the call
   * started from, except that BufferTooSmall stores REQPARSER_CUSTOM_ERR.
   */
  lemma StateKeptUnlessMore(s: Slot, data: seq<byte>)
    requires s.reqparserState < 256
    ensures var f := ReqParser.FeedResult(s.reqparserState, s.reqFields, data, 0);
      var r := Receive(true, s, data);
      && (f.completion == ReqParser.NeedsMoreData ==> r.slot.reqparserState == f.state % STATE_RANGE)
      && (f.completion == ReqParser.BufferTooSmall ==> r.slot.reqparserState == REQPARSER_CUSTOM_ERR)
      && (f.completion != ReqParser.NeedsMoreData && f.completion != ReqParser.BufferTooSmall ==>
            r.slot.reqparserState == s.reqparserState)
      && r.slot.reqFields == f.fields
  {
  }

  /**
   * A pause in the host value after `w` host bytes stores RT_HOST + w in
   * the 4-bit field: after 6 bytes that is RT_METHOD, and the next
   * conn_recv parses the rest of the host as a new request line.
   */
  lemma HostPauseStored(f: nat, w: nat, fields: seq<byte>)
    requires ReqParserResume.Good(ReqParser.Host(Some(f), w), fields) && |fields| == REQ_FIELDS_LEN
    ensures ReqParser.StateOf(ReqParser.Host(Some(f), w)) % STATE_RANGE == (ReqParser.RT_HOST + w) % STATE_RANGE
    ensures w == 6 ==> ReqParser.Entry(ReqParser.StateOf(ReqParser.Host(Some(f), w)) % STATE_RANGE) == Some(ReqParser.Method)
  {
    ReqParserResume.HostPauseState(f, w, fields);
  }

  /**
   * conn_send reports CWM_NO exactly when the counter reaches the response
   * length, and the socket has then taken the response from where the
   * counter stood; a write that would block leaves the counter where it is.
   */
  lemma SendCompletes(s: Slot, writes: seq<WriteResult>)
    requires ResponseOf(s).Some? && s.resBytesSent <= |ResponseOf(s).value|
    ensures var resp := ResponseOf(s).value;
      var r := Sending(true, s, writes);
      && (r.result == Some(CwmNo) <==> r.slot.resBytesSent == |resp|)
      && r.out == resp[s.resBytesSent..r.slot.resBytesSent]
      && (s.resBytesSent < |resp| && (writes == [] || writes[0] == Again) ==>
            r.result == Some(CwmYes) && r.slot == s)
  {
    var d := Deliver(ResponseOf(s), s.resBytesSent, writes);
    assert Sending(true, s, writes) == Sent(Wants(d.end.value), s.(resBytesSent := d.sent), d.out, d.rest);
  }

  /**
   * Two write-ready notifications: a call that blocked after using up its
   * write results, then a call with more, send the same bytes as one call
   * with all of them, where the first results were all successful writes.
   */
  lemma {:induction false} SendResumes(total: nat, sent: nat, writes: seq<WriteResult>, more: seq<WriteResult>)
    requires sent <= total
    requires forall k :: 0 <= k < |writes| ==> writes[k].Wrote?
    requires DrainFrom(total, sent, writes).end == Blocked
    ensures DrainFrom(total, DrainFrom(total, sent, writes).sent, more) == DrainFrom(total, sent, writes + more)
    decreases |writes|
  {
    if total - sent != 0 && writes != [] {
      assert (writes + more)[1..] == writes[1..] + more;
      assert (writes + more)[0] == writes[0];
      var n := writes[0].n;
      assert n <= total - sent;
      assert DrainFrom(total, sent, writes) == DrainFrom(total, sent + n, writes[1..]);
      assert DrainFrom(total, sent, writes + more) == DrainFrom(total, sent + n, writes[1..] + more);
      SendResumes(total, sent + n, writes[1..], more);
    } else if writes == [] {
      assert writes + more == more;
    }
  }
}
