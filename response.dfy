/**
 * What the three response writers share (conn_write_redirect_response in
 * src/conn.c and conn.c, client_write_response in client.c, and
 * conn_write_too_long_response in src/conn.c): the literals, the way the
 * writers read `req_fields` (strlen for the path, then the NUL-free run
 * after it for the host), and the partial-write loop of conn_send and
 * client_continue_sending_response.
 */
module Response {
  import opened Bytes
  import opened ReqFields

  const CRLF: seq<byte> := "\r\n"

  /** The 301 status line and the start of the Location header. */
  const REDIRECT_HEADER: seq<byte> := "HTTP/1.1 301 Moved Permanently\r\n" + "Location: https://"

  /** The rest of the src/conn.c redirect: an empty body, and the connection closes. */
  const REDIRECT_FOOTER: seq<byte> := "\r\nContent-Length: 0\r\n" + "Connection: close\r\n\r\n"

  /** The rest of the conn.c and client.c redirects: the end of the header block only. */
  const BARE_FOOTER: seq<byte> := "\r\n\r\n"

  /** The body of the 414 response. */
  const TOO_LONG_BODY: seq<byte> := "The combined URL host " + "and path is too large!\n"

  const TOO_LONG_STATUS: seq<byte> := "HTTP/1.1 414 URI Too Long"
  const CONTENT_LENGTH: seq<byte> := "Content-Length: "
  const CONTENT_TYPE: seq<byte> := "Content-Type: "
  const TEXT_PLAIN: seq<byte> := "text/plain"
  const CONNECTION_CLOSE: seq<byte> := "Connection: close"

  /**
   * The 414 literal of conn_write_too_long_response, line by line: the
   * status line and three header lines, a blank line, then the body.
   */
  const TOO_LONG: seq<byte> :=
    TOO_LONG_STATUS + CRLF
    + CONTENT_LENGTH + "45" + CRLF
    + CONTENT_TYPE + TEXT_PLAIN + CRLF
    + CONNECTION_CLOSE + CRLF
    + CRLF
    + TOO_LONG_BODY

  /** The size of util_tmp_buf, the buffer the responses of src/conn.c are written into. */
  const TMP_BUF_LEN: nat := 512

  /** The decimal digits of `n`, most significant first. */
  function Decimal(n: nat): (r: seq<byte>)
    ensures 1 <= |r|
    ensures forall i :: 0 <= i < |r| ==> '0' <= r[i] <= '9'
    decreases n
  {
    if n < 10 then [Digit(n)] else Decimal(n / 10) + [Digit(n % 10)]
  }

  function Digit(d: nat): (c: byte)
    requires d < 10
    ensures '0' <= c <= '9' && c as int - '0' as int == d
  {
    ('0' as int + d) as char
  }

  /** The value `Decimal` writes, read back. */
  function DecimalValue(s: seq<byte>): (n: nat)
    requires forall i :: 0 <= i < |s| ==> '0' <= s[i] <= '9'
  {
    if s == [] then 0 else DecimalValue(s[..|s| - 1]) * 10 + (s[|s| - 1] as int - '0' as int)
  }

  /** Reading the digits back gives the number. */
  lemma {:induction false} DecimalRoundTrip(n: nat)
    ensures DecimalValue(Decimal(n)) == n
    decreases n
  {
    var r := Decimal(n);
    if n >= 10 {
      DecimalRoundTrip(n / 10);
      assert r[..|r| - 1] == Decimal(n / 10);
    }
  }

  /**
   * A response whose Content-Length header is computed from its body, with
   * the header lines of the 414 response.
   */
  function Framed(status: seq<byte>, contentType: seq<byte>, body: seq<byte>): (r: seq<byte>)
    ensures |body| <= |r| && r[|r| - |body|..] == body
  {
    status + CRLF
      + CONTENT_LENGTH + Decimal(|body|) + CRLF
      + CONTENT_TYPE + contentType + CRLF
      + CONNECTION_CLOSE + CRLF
      + CRLF
      + body
  }

  /** The 414 literal is its body framed with the body's own length as Content-Length. */
  lemma TooLongFramed()
    ensures |TOO_LONG_BODY| == 45
    ensures TOO_LONG == Framed(TOO_LONG_STATUS, TEXT_PLAIN, TOO_LONG_BODY)
    ensures |TOO_LONG| <= TMP_BUF_LEN
  {
    assert |TOO_LONG_BODY| == 45;
    assert Decimal(45) == Decimal(4) + [Digit(5)];
    assert Decimal(|TOO_LONG_BODY|) == "45";
  }

  /**
   * The as-written host scan of the redirect writers: starting at `p`, it
   * dereferences the cursor before comparing it with the end of
   * `req_fields`, so it stops only at a NUL; None when it reaches the end,
   * where it reads the byte just past `req_fields`.
   */
  function HostEndAsWritten(fields: seq<byte>, p: nat): (r: Option<nat>)
    requires p <= |fields|
    ensures r.Some? ==> p <= r.value < |fields| && fields[r.value] == NUL
    ensures r.Some? ==> forall i :: p <= i < r.value ==> fields[i] != NUL
    ensures r.None? ==> forall i :: p <= i < |fields| ==> fields[i] != NUL
    decreases |fields| - p
  {
    if p == |fields| then None
    else if fields[p] == NUL then Some(p)
    else HostEndAsWritten(fields, p + 1)
  }

  /**
   * The as-written scan agrees with the intended one (the NUL-free run,
   * bounded by the end of the array) exactly when a NUL ends the host.
   */
  lemma HostEndAgrees(fields: seq<byte>, p: nat)
    requires p <= |fields|
    ensures p + RunLength(fields, p) < |fields| <==> HostEndAsWritten(fields, p).Some?
    ensures p + RunLength(fields, p) < |fields| ==> HostEndAsWritten(fields, p) == Some(p + RunLength(fields, p))
  {
    var r := HostEndAsWritten(fields, p);
    if r.Some? {
      RunLengthOf(fields, p, fields[p..r.value]);
    }
  }

  /**
   * When the host runs up to the last index of `req_fields` (which the
   * request parser produces when path, NUL and host fill the array), the
   * as-written scan reads past the end.
   */
  lemma HostFillsEnd(fields: seq<byte>, path: seq<byte>, host: seq<byte>)
    requires PackedLayout(fields, path, host) && NulFree(host)
    requires |path| + 1 + |host| == |fields|
    ensures HostEndAsWritten(fields, |path| + 1) == None
  {
    forall i | |path| + 1 <= i < |fields| ensures fields[i] != NUL {
      assert fields[i] == host[i - (|path| + 1)];
    }
  }

  /**
   * The redirect the writers build from `req_fields`, with the host scan
   * bounded by the end of the array: header, host, `/`, path, footer. None
   * when `req_fields` holds no NUL, where strlen reads past the end.
   */
  function Redirect(fields: seq<byte>, footer: seq<byte>): (r: Option<seq<byte>>)
    ensures r.None? <==> NulFree(fields)
    ensures r.Some? ==> |REDIRECT_HEADER| + |footer| <= |r.value| <= |REDIRECT_HEADER| + |fields| + |footer|
    ensures r.Some? ==> r.value[..|REDIRECT_HEADER|] == REDIRECT_HEADER
    ensures r.Some? ==> r.value[|r.value| - |footer|..] == footer
  {
    var sep := Strlen(fields);
    if sep == |fields| then None
    else
      var host := fields[sep + 1..sep + 1 + RunLength(fields, sep + 1)];
      Some(REDIRECT_HEADER + host + [SLASH] + fields[..sep] + footer)
  }

  /** The redirect, given where strlen and the host scan stop. */
  lemma RedirectParts(fields: seq<byte>, sep: nat, hostEnd: nat, footer: seq<byte>)
    requires sep == Strlen(fields) < |fields| && hostEnd == sep + 1 + RunLength(fields, sep + 1)
    ensures Redirect(fields, footer) == Some(REDIRECT_HEADER + fields[sep + 1..hostEnd] + [SLASH] + fields[..sep] + footer)
  {
  }

  /**
   * On the layout the parsers produce, the redirect carries exactly the
   * parsed host and path: Location is `https://` host `/` path.
   */
  lemma RedirectOfLayout(fields: seq<byte>, path: seq<byte>, host: seq<byte>, footer: seq<byte>)
    requires PackedLayout(fields, path, host) && NulFree(path) && NulFree(host)
    ensures Redirect(fields, footer) == Some(REDIRECT_HEADER + host + [SLASH] + path + footer)
  {
    assert fields == path + fields[|path|..];
    StrlenOfPrefix(path, fields[|path|..]);
    RunLengthOf(fields, |path| + 1, host);
  }

  /**
   * A redirect built from a 242-byte req_fields, with either footer, fits
   * the 512-byte tmp_buf: the capacity checks never fail, and client.c's
   * unchecked copies never overflow it.
   */
  lemma RedirectFits(fields: seq<byte>, footer: seq<byte>)
    requires |fields| == 242 && !NulFree(fields) && |footer| <= |REDIRECT_FOOTER|
    ensures RedirectWithin(fields, footer, TMP_BUF_LEN) == Redirect(fields, footer)
  {
  }

  /** What one write(2) call reports. */
  datatype WriteResult =
    | Wrote(n: nat)   // n bytes were taken
    | Again           // -1 with EAGAIN or EWOULDBLOCK
    | WriteFailed     // -1 with any other errno

  /**
   * How the write loop ends: everything is sent, the socket would block,
   * write failed, or write reported more bytes than it was given (which
   * write(2) never does; the loop would then index past the response).
   */
  datatype Drain = Drained | Blocked | Broke | Overran

  /** Where the loop ends, the counter it leaves, and the write results it did not use. */
  datatype Drained = DrainState(end: Drain, sent: nat, rest: seq<WriteResult>)

  /**
   * The write loop on a response of `total` bytes of which `sent` are out,
   * over the results the successive write calls report; once they are used
   * up, every further call would block.
   */
  function DrainFrom(total: nat, sent: nat, writes: seq<WriteResult>): (d: Drained)
    requires sent <= total
    ensures sent <= d.sent <= total
    ensures d.end == Drained <==> d.sent == total
    ensures |d.rest| <= |writes| && d.rest == writes[|writes| - |d.rest|..]
    decreases |writes|
  {
    if total - sent == 0 then DrainState(Drained, sent, writes)
    else if writes == [] then DrainState(Blocked, sent, writes)
    else match writes[0]
      case Again => DrainState(Blocked, sent, writes[1..])
      case WriteFailed => DrainState(Broke, sent, writes[1..])
      case Wrote(n) =>
        if n > total - sent then DrainState(Overran, sent, writes[1..])
        else DrainFrom(total, sent + n, writes[1..])
  }

  /**
   * One call of a sender's write loop over the response it rebuilt: how the
   * loop ended, the counter it leaves and the bytes the socket took. `end`
   * is None when there is no response (the builder failed) or the counter
   * is already past it; the counter and the output then stay as they were.
   */
  datatype Delivery = Delivery(end: Option<Drain>, sent: nat, out: seq<byte>, rest: seq<WriteResult>)

  function Deliver(resp: Option<seq<byte>>, sent: nat, writes: seq<WriteResult>): (d: Delivery)
    ensures d.end.None? <==> resp.None? || |resp.value| < sent
    ensures d.end.None? ==> d.sent == sent && d.out == [] && d.rest == writes
    ensures |d.rest| <= |writes| && d.rest == writes[|writes| - |d.rest|..]
    ensures d.end.Some? ==> sent <= d.sent <= |resp.value| && d.out == resp.value[sent..d.sent]
    ensures d.end == Some(Drained) <==> d.end.Some? && d.sent == |resp.value|
    ensures d.end.Some? && sent < |resp.value| && (writes == [] || writes[0] == Again) ==>
              d.end == Some(Blocked) && d.sent == sent
  {
    if resp.None? || |resp.value| < sent then Delivery(None, sent, [], writes)
    else
      var t := DrainFrom(|resp.value|, sent, writes);
      Delivery(Some(t.end), t.sent, resp.value[sent..t.sent], t.rest)
  }

  /** `res_bytes_sent` is a 12-bit field in `struct conn` and `struct client`. */
  const SENT_RANGE: nat := 4096

  /**
   * The loop of conn_send and client_continue_sending_response over the
   * first `total` bytes of `buf`, from the counter `sent`: each successful
   * write adds what it took to the 12-bit counter. Returns how the loop
   * ends, the counter, the bytes the socket took and the write results
   * left for later calls.
   */
  method WriteLoop(buf: array<byte>, total: nat, sent: nat, writes: seq<WriteResult>)
    returns (end: Drain, sent': nat, out: seq<byte>, rest: seq<WriteResult>)
    requires sent <= total <= buf.Length && total < SENT_RANGE
    ensures DrainFrom(total, sent, writes).end == end && DrainFrom(total, sent, writes).sent == sent'
    ensures DrainFrom(total, sent, writes).rest == rest
    ensures out == buf[sent..sent']
  {
    ghost var target := DrainFrom(total, sent, writes);
    sent' := sent;
    rest := writes;
    end := Blocked;
    var looping := true;
    while looping
      invariant sent <= sent' <= total
      invariant looping ==> DrainFrom(total, sent', rest) == target
      invariant !looping ==> target == DrainState(end, sent', rest)
      decreases |rest|, looping
    {
      var remaining := total - sent';
      if remaining == 0 {
        end, looping := Drained, false;
      } else if rest == [] {
        end, looping := Blocked, false;
      } else {
        var w := rest[0];
        ghost var before := rest;
        rest := rest[1..];
        if w.Again? {
          end, looping := Blocked, false;
        } else if w.WriteFailed? {
          end, looping := Broke, false;
        } else if w.n > remaining {
          end, looping := Overran, false;
        } else {
          DrainStep(total, sent', before);
          sent' := AddSent(sent', w.n);
        }
      }
    }
    out := buf[sent..sent'];
  }

  /** A write that takes `n` bytes of what is left moves the drain on by `n`. */
  lemma DrainStep(total: nat, sent: nat, writes: seq<WriteResult>)
    requires sent < total && writes != [] && writes[0].Wrote? && writes[0].n <= total - sent
    ensures DrainFrom(total, sent, writes) == DrainFrom(total, sent + writes[0].n, writes[1..])
  {
  }

  /**
   * A sender's loop after it rebuilt the response into `buf` (`total`
   * bytes, or None when the builder failed): what Deliver says of `resp`.
   */
  method DeliverFrom(buf: array<byte>, total: Option<nat>, sent: nat, writes: seq<WriteResult>, ghost resp: Option<seq<byte>>)
    returns (d: Delivery)
    requires total.Some? <==> resp.Some?
    requires total.Some? ==> total.value <= buf.Length && total.value < SENT_RANGE && buf[..total.value] == resp.value
    ensures d == Deliver(resp, sent, writes)
  {
    if total.None? || total.value < sent {
      return Delivery(None, sent, [], writes);
    }
    var end, sent', out, rest := WriteLoop(buf, total.value, sent, writes);
    d := Delivery(Some(end), sent', out, rest);
  }

  /**
   * `sent + n` stored in the 12-bit res_bytes_sent field: it wraps modulo
   * 4096, and a sum the field can hold is stored unchanged.
   */
  function AddSent(sent: nat, n: nat): (r: nat)
    ensures r < SENT_RANGE
    ensures sent + n < SENT_RANGE ==> r == sent + n
  {
    (sent + n) % SENT_RANGE
  }

  /** memcpy(dst + at, src, |src|). */
  method CopyInto(dst: array<byte>, at: nat, src: seq<byte>)
    requires at + |src| <= dst.Length
    modifies dst
    ensures dst[..at + |src|] == old(dst[..at]) + src
    ensures dst[at + |src|..] == old(dst[at + |src|..])
  {
    var i := 0;
    while i < |src|
      invariant 0 <= i <= |src|
      invariant dst[..at] == old(dst[..at])
      invariant dst[at..at + i] == src[..i]
      invariant dst[at + |src|..] == old(dst[at + |src|..])
    {
      dst[at + i] := src[i];
      i := i + 1;
      assert dst[at..at + i] == dst[at..at + i - 1] + [dst[at + i - 1]];
    }
    assert dst[..at + |src|] == dst[..at] + dst[at..at + |src|];
  }

  /** Writes `src` at the start of `buf` when it fits; its length. */
  method WriteWhole(buf: array<byte>, src: seq<byte>) returns (len: Option<nat>)
    modifies buf
    ensures len.Some? <==> |src| <= buf.Length
    ensures len.Some? ==> len.value == |src| && buf[..len.value] == src
  {
    if buf.Length < |src| {
      return None;
    }
    CopyInto(buf, 0, src);
    len := Some(|src|);
  }

  /**
   * The scan for the end of a NUL-free run of `a` from `from`, bounded by
   * the end of the array: strlen when `from` is 0, the corrected host scan
   * past the separator.
   */
  method RunEnd(a: array<byte>, from: nat) returns (end: nat)
    requires from <= a.Length
    ensures end == from + RunLength(a[..], from)
  {
    end := from;
    while end != a.Length && a[end] != NUL
      invariant from <= end <= a.Length
      invariant forall i :: from <= i < end ==> a[i] != NUL
      decreases a.Length - end
    {
      end := end + 1;
    }
    RunLengthOf(a[..], from, a[from..end]);
  }

  /** strlen is the NUL-free run from index 0. */
  lemma StrlenRun(s: seq<byte>)
    ensures Strlen(s) == RunLength(s, 0)
  {
    StrlenIs(s, RunLength(s, 0));
  }

  /**
   * The redirect as the writers leave it in a buffer of `capacity` bytes;
   * None when strlen runs past req_fields or it does not fit.
   */
  function RedirectWithin(fields: seq<byte>, footer: seq<byte>, capacity: nat): (r: Option<seq<byte>>)
    ensures r.Some? ==> |r.value| <= capacity && Redirect(fields, footer) == r
    ensures r.None? ==> Redirect(fields, footer).None? || capacity < |Redirect(fields, footer).value|
  {
    var full := Redirect(fields, footer);
    if full.Some? && |full.value| <= capacity then full else None
  }

  /**
   * The redirect writer shared by the three sources: header, the host run
   * after strlen's NUL (bounded by the end of req_fields), `/`, the path,
   * footer. None when strlen runs past req_fields or the response does not
   * fit `buf`, which the assertions of src/conn.c and conn.c catch and
   * client.c overflows.
   */
  method WriteRedirect(fields: array<byte>, buf: array<byte>, footer: seq<byte>) returns (len: Option<nat>)
    requires fields != buf
    modifies buf
    ensures len.Some? <==> RedirectWithin(fields[..], footer, buf.Length).Some?
    ensures len.Some? ==> len.value == |RedirectWithin(fields[..], footer, buf.Length).value|
    ensures len.Some? ==> buf[..len.value] == RedirectWithin(fields[..], footer, buf.Length).value
  {
    var sep := RunEnd(fields, 0);
    StrlenRun(fields[..]);
    if sep == fields.Length {
      if buf.Length < |REDIRECT_HEADER| {
        return None;
      }
      CopyInto(buf, 0, REDIRECT_HEADER);
      return None;
    }
    var hostEnd := RunEnd(fields, sep + 1);
    RedirectParts(fields[..], sep, hostEnd, footer);
    len := WriteParts(buf, REDIRECT_HEADER, fields[sep + 1..hostEnd], fields[..sep], footer);
  }

  /**
   * The copies of the redirect writers: header, host, `/`, path, footer,
   * each checked against the capacity before it is written.
   */
  method WriteParts(buf: array<byte>, header: seq<byte>, host: seq<byte>, path: seq<byte>, footer: seq<byte>)
    returns (len: Option<nat>)
    modifies buf
    ensures len.Some? <==> |header + host + [SLASH] + path + footer| <= buf.Length
    ensures len.Some? ==> len.value == |header + host + [SLASH] + path + footer|
    ensures len.Some? ==> buf[..len.value] == header + host + [SLASH] + path + footer
  {
    if buf.Length < |header| {
      return None;
    }
    CopyInto(buf, 0, header);
    var cursor := |header|;
    ghost var a0 := buf[..cursor];
    assert a0 == header;
    if buf.Length < cursor + |host| {
      return None;
    }
    CopyInto(buf, cursor, host);
    cursor := cursor + |host|;
    ghost var a1 := buf[..cursor];
    assert a1 == a0 + host;
    if buf.Length < cursor + 1 {
      return None;
    }
    Put(buf, cursor, SLASH);
    cursor := cursor + 1;
    ghost var a2 := buf[..cursor];
    assert a2 == a1 + [SLASH];
    if buf.Length < cursor + |path| {
      return None;
    }
    CopyInto(buf, cursor, path);
    cursor := cursor + |path|;
    ghost var a3 := buf[..cursor];
    assert a3 == a2 + path;
    if buf.Length < cursor + |footer| {
      return None;
    }
    CopyInto(buf, cursor, footer);
    cursor := cursor + |footer|;
    assert buf[..cursor] == a3 + footer;
    return Some(cursor);
  }

  /** `*cursor = ch` on a buffer whose prefix up to the cursor is kept. */
  method Put(buf: array<byte>, at: nat, ch: byte)
    requires at < buf.Length
    modifies buf
    ensures buf[..at + 1] == old(buf[..at]) + [ch]
    ensures buf[at + 1..] == old(buf[at + 1..])
  {
    buf[at] := ch;
    assert buf[..at + 1] == buf[..at] + [ch];
  }
}
