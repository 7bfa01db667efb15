/**
 * What the reqparser.c machine guarantees: the literal "GET /" match and
 * its resumption, the path and host guards, the empty path and the empty
 * host it accepts, and where the fields end up on a whole request.
 */
module LegacyReqParserFacts {
  import opened Bytes
  import Util
  import opened ReqFields
  import ReqParser
  import opened LegacyReqParser
  import ReqParserFacts

  // ---------------------------------------------------------------------
  // The cursor and the dispatch
  // ---------------------------------------------------------------------

  /**
   * reqparser_feed never moves the cursor past data_end and stops there
   * exactly when it asks for more data; it is undefined on an empty input
   * and on a state no `case` covers.
   */
  lemma FeedCursor(state: int, buf: seq<byte>, input: seq<byte>, cursor: nat)
    requires cursor <= |input|
    ensures var r := FeedResult(state, buf, input, cursor);
      && cursor <= r.cursor <= |input|
      && (cursor < |input| && 0 <= state <= RT_HOST ==>
            (r.completion == ReqParser.NeedsMoreData <==> r.cursor == |input|))
      && (cursor == |input| || state < 0 || RT_HOST < state ==> r.completion == ReqParser.Undefined)
  {
    if cursor < |input| && 0 <= state <= RT_HOST {
      var o := Run(Entry(state).value, buf, input, cursor);
      assert FeedResult(state, buf, input, cursor).completion == o.completion;
    }
  }

  /** No run of the machine reports an assertion failure: reqparser.c has no F_ASSERT. */
  lemma {:induction false} RunNeverAsserts(ph: Phase, buf: seq<byte>, input: seq<byte>, pos: nat)
    requires PhaseOk(ph, buf) && pos <= |input|
    ensures Run(ph, buf, input, pos).completion != ReqParser.AssertionFailure
    decreases |input| - pos
  {
    if pos < |input| {
      RunStep(ph, buf, input, pos);
      match Step(ph, buf, input[pos])
      case Stop(_, _, _) =>
      case Next(ph', buf') => RunNeverAsserts(ph', buf', input, pos + 1);
    }
  }

  lemma FeedNeverAsserts(state: int, buf: seq<byte>, input: seq<byte>, cursor: nat)
    requires cursor <= |input|
    ensures FeedResult(state, buf, input, cursor).completion != ReqParser.AssertionFailure
  {
    if cursor < |input| && Entry(state).Some? {
      RunNeverAsserts(Entry(state).value, buf, input, cursor);
    }
  }

  // ---------------------------------------------------------------------
  // The method states
  // ---------------------------------------------------------------------

  /**
   * Bytes that spell the rest of "GET /" from sub-index `m` lead to the
   * path state; so a request split after any prefix of "GET /" resumes
   * from the state the prefix leaves.
   */
  lemma {:induction false} MethodMatches(m: nat, buf: seq<byte>, input: seq<byte>, pos: nat)
    requires m < |METHOD_STR|
    requires pos + (|METHOD_STR| - m) <= |input|
    requires forall i :: pos <= i < pos + (|METHOD_STR| - m) ==> input[i] == METHOD_STR[m + (i - pos)]
    ensures Run(Method(m), buf, input, pos) == Run(Path(None), buf, input, pos + (|METHOD_STR| - m))
    decreases |METHOD_STR| - m
  {
    RunStep(Method(m), buf, input, pos);
    if m + 1 < |METHOD_STR| {
      MethodMatches(m + 1, buf, input, pos + 1);
    }
  }

  /** The first byte that differs from "GET /" is bad data, reported in front of that byte. */
  lemma {:induction false} MethodMismatch(m: nat, j: nat, buf: seq<byte>, input: seq<byte>, pos: nat)
    requires m <= j < |METHOD_STR|
    requires pos + (j - m) < |input|
    requires forall i :: pos <= i < pos + (j - m) ==> input[i] == METHOD_STR[m + (i - pos)]
    requires input[pos + (j - m)] != METHOD_STR[j]
    ensures Run(Method(m), buf, input, pos) == Outcome(ReqParser.BadData, Method(j), buf, pos + (j - m))
    decreases j - m
  {
    RunStep(Method(m), buf, input, pos);
    if m < j {
      MethodMismatch(m + 1, j, buf, input, pos + 1);
    }
  }

  /** The state each method phase stores is the one `reqparser_feed` resumes it from. */
  lemma MethodResumes(m: nat)
    requires m < |METHOD_STR|
    ensures StateOf(Method(m)) == RT_METHOD_0 + m
    ensures Entry(StateOf(Method(m))) == Some(Method(m))
  {
  }

  // ---------------------------------------------------------------------
  // The path state
  // ---------------------------------------------------------------------

  /**
   * The path state's first byte: the scan running off req_fields is
   * undefined, a NUL is bad data, and a space, even on an empty path, ends
   * the path with a NUL at the fill index.
   */
  lemma PathEntry(buf: seq<byte>, input: seq<byte>, pos: nat)
    requires pos < |input|
    ensures Strlen(buf) == |buf| ==> Run(Path(None), buf, input, pos).completion == ReqParser.Undefined
    ensures Strlen(buf) < |buf| ==> Run(Path(None), buf, input, pos) == Run(Path(Some(Strlen(buf))), buf, input, pos)
    ensures Strlen(buf) < |buf| && input[pos] == NUL ==>
      Run(Path(None), buf, input, pos) == Outcome(ReqParser.BadData, Path(Some(Strlen(buf))), buf, pos)
  {
    RunStep(Path(None), buf, input, pos);
    if Strlen(buf) < |buf| {
      RunStep(Path(Some(Strlen(buf))), buf, input, pos);
    }
  }

  /** An immediate space is an empty path: no error, a NUL at index 0, and on to the rest of the line. */
  lemma EmptyPath(buf: seq<byte>, input: seq<byte>, pos: nat)
    requires pos < |input| && input[pos] == SP
    requires 0 < |buf| && buf[0] == NUL
    ensures Run(Path(None), buf, input, pos) == Run(SkipLine, buf, input, pos + 1)
  {
    StrlenIs(buf, 0);
    RunStep(Path(None), buf, input, pos);
    assert buf[0 := NUL] == buf;
  }

  /** On the delimiting space the path state writes a NUL at the fill index and skips the rest of the line. */
  lemma PathSpace(f: nat, buf: seq<byte>, input: seq<byte>, pos: nat)
    requires f < |buf| && pos < |input| && input[pos] == SP
    ensures Run(Path(Some(f)), buf, input, pos) == Run(SkipLine, buf[f := NUL], input, pos + 1)
  {
    RunStep(Path(Some(f)), buf, input, pos);
  }

  /**
   * Path bytes (no NUL, no space) are appended at the fill index while the
   * fill index stays at most req_fields_len - 2.
   */
  lemma {:induction false} PathRun(f: nat, buf: seq<byte>, input: seq<byte>, pos: nat, n: nat)
    requires f + n + 2 <= |buf| && pos + n <= |input|
    requires forall i :: pos <= i < pos + n ==> input[i] != NUL && input[i] != SP
    ensures Run(Path(Some(f)), buf, input, pos)
      == Run(Path(Some(f + n)), ReqParserFacts.PathWritten(buf, f, input, pos, n), input, pos + n)
    decreases n
  {
    if n != 0 {
      RunStep(Path(Some(f)), buf, input, pos);
      PathRun(f + 1, buf[f := input[pos]], input, pos + 1, n - 1);
    }
  }

  /** One more path byte at fill index req_fields_len - 2 is BufferTooSmall; a NUL is bad data anywhere. */
  lemma PathStops(f: nat, buf: seq<byte>, input: seq<byte>, pos: nat)
    requires f <= |buf| && pos < |input|
    ensures input[pos] == NUL ==>
      Run(Path(Some(f)), buf, input, pos) == Outcome(ReqParser.BadData, Path(Some(f)), buf, pos)
    ensures input[pos] != NUL && input[pos] != SP && f + 2 == |buf| ==>
      Run(Path(Some(f)), buf, input, pos) == Outcome(ReqParser.BufferTooSmall, Path(Some(f)), buf, pos)
  {
    RunStep(Path(Some(f)), buf, input, pos);
  }

  /**
   * The fill index never passes req_fields_len - 2: wherever the path state
   * pauses it is at most that, and so is the path.
   */
  lemma {:induction false} PathFillBound(f: nat, buf: seq<byte>, input: seq<byte>, pos: nat)
    requires f + 2 <= |buf| && pos <= |input|
    ensures var o := Run(Path(Some(f)), buf, input, pos);
      o.phase.Path? ==> o.phase.pathFill.Some? && o.phase.pathFill.value + 2 <= |buf|
    decreases |input| - pos
  {
    if pos < |input| {
      RunStep(Path(Some(f)), buf, input, pos);
      match Step(Path(Some(f)), buf, input[pos])
      case Stop(_, _, _) =>
      case Next(ph, buf') =>
        if ph.Path? {
          PathFillBound(f + 1, buf', input, pos + 1);
        } else {
          PastPathStays(ph, buf', input, pos + 1);
        }
    }
  }

  /** Once past the request line the machine never returns to the method or path states. */
  predicate PastPath(ph: Phase)
  {
    !ph.Path? && !ph.Method?
  }

  lemma {:induction false} PastPathStays(ph: Phase, buf: seq<byte>, input: seq<byte>, pos: nat)
    requires PhaseOk(ph, buf) && PastPath(ph) && pos <= |input|
    ensures PastPath(Run(ph, buf, input, pos).phase)
    decreases |input| - pos
  {
    if pos < |input| {
      RunStep(ph, buf, input, pos);
      match Step(ph, buf, input[pos])
      case Stop(_, _, _) =>
      case Next(ph', buf') => PastPathStays(ph', buf', input, pos + 1);
    }
  }

  // ---------------------------------------------------------------------
  // Skip-line, LF and header-name states
  // ---------------------------------------------------------------------

  /** The skip-line state consumes every byte up to and including the first CR, then expects LF. */
  lemma {:induction false} SkipToCr(buf: seq<byte>, input: seq<byte>, pos: nat, k: nat)
    requires pos <= k < |input| && input[k] == CR
    requires forall i :: pos <= i < k ==> input[i] != CR
    ensures Run(SkipLine, buf, input, pos) == Run(Lf, buf, input, k + 1)
    decreases k - pos
  {
    RunStep(SkipLine, buf, input, pos);
    if pos < k {
      SkipToCr(buf, input, pos + 1, k);
    }
  }

  /** The byte after a CR must be LF: anything else is bad data, and LF starts a header name. */
  lemma LfStep(buf: seq<byte>, input: seq<byte>, pos: nat)
    requires pos < |input|
    ensures input[pos] != LF ==> FeedResult(RT_LF, buf, input, pos) == ReqParser.Result(ReqParser.BadData, RT_LF, buf, pos)
    ensures input[pos] == LF ==> Run(Lf, buf, input, pos) == Run(HeaderName(0), buf, input, pos + 1)
  {
    RunStep(Lf, buf, input, pos);
  }

  /** Header-name bytes that spell the rest of "Host: " lead to the host state. */
  lemma {:induction false} HeaderMatches(m: nat, buf: seq<byte>, input: seq<byte>, pos: nat)
    requires m < |HOST_STR|
    requires pos + (|HOST_STR| - m) <= |input|
    requires forall i :: pos <= i < pos + (|HOST_STR| - m) ==> input[i] == HOST_STR[m + (i - pos)]
    ensures Run(HeaderName(m), buf, input, pos) == Run(Host(None, 0), buf, input, pos + (|HOST_STR| - m))
    decreases |HOST_STR| - m
  {
    RunStep(HeaderName(m), buf, input, pos);
    if m + 1 < |HOST_STR| {
      HeaderMatches(m + 1, buf, input, pos + 1);
    }
  }

  /**
   * The first byte that differs from "Host: " (case included) is consumed
   * and the rest of the line is skipped.
   */
  lemma {:induction false} HeaderMismatch(m: nat, j: nat, buf: seq<byte>, input: seq<byte>, pos: nat)
    requires m <= j < |HOST_STR|
    requires pos + (j - m) < |input|
    requires forall i :: pos <= i < pos + (j - m) ==> input[i] == HOST_STR[m + (i - pos)]
    requires input[pos + (j - m)] != HOST_STR[j]
    ensures Run(HeaderName(m), buf, input, pos) == Run(SkipLine, buf, input, pos + (j - m) + 1)
    decreases j - m
  {
    RunStep(HeaderName(m), buf, input, pos);
    if m < j {
      HeaderMismatch(m + 1, j, buf, input, pos + 1);
    }
  }

  // ---------------------------------------------------------------------
  // The host state
  // ---------------------------------------------------------------------

  /**
   * Host bytes other than CR are written backwards from the fill index as
   * long as each lands on a NUL with a NUL below it.
   */
  lemma {:induction false} HostRun(f: nat, w: nat, buf: seq<byte>, input: seq<byte>, pos: nat, n: nat)
    requires n <= f < |buf| && pos + n <= |input|
    requires forall i :: f - n <= i <= f ==> buf[i] == NUL
    requires forall i :: pos <= i < pos + n ==> input[i] != CR
    ensures HostTail(f, w, buf, input, pos)
      == HostTail(f - n, w + n, ReqParserFacts.HostWritten(buf, f, input, pos, n), input, pos + n)
    decreases n
  {
    if n != 0 {
      HostRun(f - 1, w + 1, buf[f := input[pos]], input, pos + 1, n - 1);
    }
  }

  /**
   * The host guard, on one byte: CR completes at any fill index, even with
   * no host byte written; a missing NUL below the fill index is BufferTooSmall.
   */
  lemma HostStep(f: nat, w: nat, buf: seq<byte>, input: seq<byte>, pos: nat)
    requires f < |buf| && buf[f] == NUL && pos < |input|
    ensures input[pos] == CR ==>
      Run(Host(Some(f), w), buf, input, pos) == Outcome(ReqParser.Complete, Host(Some(f), w), buf, pos)
    ensures input[pos] != CR && (f == 0 || buf[f - 1] != NUL) ==>
      Run(Host(Some(f), w), buf, input, pos) == Outcome(ReqParser.BufferTooSmall, Host(Some(f), w), buf, pos)
  {
    RunStep(Host(Some(f), w), buf, input, pos);
  }

  /**
   * A CR right after "Host: " on a buffer holding a terminated path
   * completes with no host byte written: the buffer is the pending layout
   * of an empty host, which `ObservedLayout` packs as `path NUL [NUL]`.
   */
  lemma EmptyHost(path: seq<byte>, gap: nat, input: seq<byte>, pos: nat)
    requires pos < |input| && input[pos] == CR
    ensures var buf := path + [NUL] + Zeros(gap);
      Run(Host(None, 0), buf, input, pos) == Outcome(ReqParser.Complete, Host(Some(|path| + gap), 0), buf, pos)
  {
    var buf := path + [NUL] + Zeros(gap);
    var f := |path| + gap;
    assert buf[f] == NUL by {
      if gap == 0 {
        assert buf[f] == buf[|path|];
      } else {
        assert buf[f] == Zeros(gap)[gap - 1];
      }
    }
    LastNulIs(buf, f);
    HostEntry(buf, input, pos);
  }

  /** "Host: " and the scan down for the host's fill index, which is the last index. */
  lemma HostName(path: seq<byte>, gap: nat, n: nat, input: seq<byte>, p: nat)
    requires p + |HOST_STR| < |input|
    requires forall i :: p <= i < p + |HOST_STR| ==> input[i] == HOST_STR[i - p]
    ensures Run(HeaderName(0), path + Zeros(gap + n + 1), input, p)
      == HostTail(|path| + gap + n, 0, path + Zeros(gap + n + 1), input, p + |HOST_STR|)
  {
    var b1 := path + Zeros(gap + n + 1);
    HeaderMatches(0, b1, input, p);
    LastNulIs(b1, |path| + gap + n);
    HostEntry(b1, input, p + |HOST_STR|);
  }

  /** The host bytes, written backwards from the last index, and the final CR. */
  lemma HostValue(path: seq<byte>, gap: nat, host: seq<byte>, input: seq<byte>, q: nat)
    requires forall i :: 0 <= i < |host| ==> host[i] != CR
    requires q + |host| < |input| && input[q + |host|] == CR
    requires forall i :: q <= i < q + |host| ==> input[i] == host[i - q]
    ensures HostTail(|path| + gap + |host|, 0, path + Zeros(gap + |host| + 1), input, q)
      == Outcome(ReqParser.Complete, Host(Some(|path| + gap), |host|), HostPending(path, Zeros(gap), host), q + |host|)
  {
    var b1 := path + Zeros(gap + |host| + 1);
    var f := |path| + gap + |host|;
    assert forall i :: q <= i < q + |host| ==> input[i] != CR;
    HostRun(f, 0, b1, input, q, |host|);
    assert input[q..q + |host|] == host;
    ReqParserFacts.HostPendingWritten(path, gap, host, input, q);
  }

  // ---------------------------------------------------------------------
  // A whole request
  // ---------------------------------------------------------------------

  /** The shape of a request the legacy parser takes: "GET /" path SP rest CR LF "Host: " host CR. */
  predicate WellFormed(path: seq<byte>, rest: seq<byte>, host: seq<byte>)
  {
    && (forall i :: 0 <= i < |path| ==> path[i] != NUL && path[i] != SP)
    && (forall i :: 0 <= i < |rest| ==> rest[i] != CR)
    && (forall i :: 0 <= i < |host| ==> host[i] != CR)
  }

  /** The request `Request` builds from the verb "GET" and the path after its slash. */
  function GetRequest(path: seq<byte>, rest: seq<byte>, host: seq<byte>): (r: seq<byte>)
    ensures |r| == |path| + |rest| + |host| + 15
  {
    ReqParserFacts.Request("GET", [SLASH] + path, rest, host)
  }

  /** Where each part of the request sits, by index. */
  lemma GetRequestAt(path: seq<byte>, rest: seq<byte>, host: seq<byte>)
    ensures var input := GetRequest(path, rest, host);
      var b := |METHOD_STR| + |path|;
      var d := b + 1 + |rest| + 2;
      var e := d + |HOST_STR|;
      && (forall i :: 0 <= i < |METHOD_STR| ==> input[i] == METHOD_STR[i])
      && (forall i :: |METHOD_STR| <= i < b ==> input[i] == path[i - |METHOD_STR|])
      && input[b] == SP
      && (forall i :: b + 1 <= i < b + 1 + |rest| ==> input[i] == rest[i - (b + 1)])
      && input[b + 1 + |rest|] == CR && input[b + 1 + |rest| + 1] == LF
      && (forall i :: d <= i < e ==> input[i] == HOST_STR[i - d])
      && (forall i :: e <= i < e + |host| ==> input[i] == host[i - e])
      && input[e + |host|] == CR && |input| == e + |host| + 1
  {
    var input := GetRequest(path, rest, host);
    assert input == METHOD_STR + path + [SP] + rest + [CR, LF] + HOST_STR + host + [CR];
  }

  /** "GET /" and the scan for the path's fill index, which is 0 in a zeroed req_fields. */
  lemma MethodLine(L: nat, input: seq<byte>)
    requires 0 < L && |METHOD_STR| < |input|
    requires forall i :: 0 <= i < |METHOD_STR| ==> input[i] == METHOD_STR[i]
    ensures Run(Method(0), Zeros(L), input, 0) == Run(Path(Some(0)), Zeros(L), input, |METHOD_STR|)
  {
    MethodMatches(0, Zeros(L), input, 0);
    StrlenIs(Zeros(L), 0);
    PathEntry(Zeros(L), input, |METHOD_STR|);
  }

  /** The path and its space: the path is written from index 0 and NUL-terminated. */
  lemma PathLine(path: seq<byte>, tail: nat, input: seq<byte>, p: nat)
    requires 2 <= tail && (forall i :: 0 <= i < |path| ==> path[i] != NUL && path[i] != SP)
    requires p + |path| < |input| && input[p + |path|] == SP
    requires forall i :: p <= i < p + |path| ==> input[i] == path[i - p]
    ensures Run(Path(Some(0)), Zeros(|path| + tail), input, p) == Run(SkipLine, path + Zeros(tail), input, p + |path| + 1)
  {
    var b0 := Zeros(|path| + tail);
    assert forall i :: p <= i < p + |path| ==> input[i] != NUL && input[i] != SP;
    PathRun(0, b0, input, p, |path|);
    assert input[p..p + |path|] == path;
    var b1 := ReqParserFacts.PathWritten(b0, 0, input, p, |path|);
    PathSpace(|path|, b1, input, p + |path|);
    ReqParserFacts.PathOverZeros(path, tail, input, p);
  }

  /** The rest of the request line, its CR and its LF. */
  lemma LineEnd(buf: seq<byte>, n: nat, input: seq<byte>, p: nat)
    requires p + n + 1 < |input|
    requires forall i :: p <= i < p + n ==> input[i] != CR
    requires input[p + n] == CR && input[p + n + 1] == LF
    ensures Run(SkipLine, buf, input, p) == Run(HeaderName(0), buf, input, p + n + 2)
  {
    SkipToCr(buf, input, p, p + n);
    LfStep(buf, input, p + n + 1);
  }

  /**
   * The request line, from a zeroed req_fields with room for the path and
   * two more bytes: the path lands at index 0 with a NUL after it, and the
   * machine is at the header line.
   */
  lemma RequestLine(path: seq<byte>, rest: seq<byte>, host: seq<byte>, tail: nat)
    requires WellFormed(path, rest, host) && 2 <= tail
    ensures var input := GetRequest(path, rest, host);
      Run(Method(0), Zeros(|path| + tail), input, 0)
        == Run(HeaderName(0), path + Zeros(tail), input, |METHOD_STR| + |path| + 1 + |rest| + 2)
  {
    var input := GetRequest(path, rest, host);
    var b := |METHOD_STR| + |path|;
    GetRequestAt(path, rest, host);
    MethodLine(|path| + tail, input);
    PathLine(path, tail, input, |METHOD_STR|);
    assert forall i :: b + 1 <= i < b + 1 + |rest| ==> input[i] != CR;
    LineEnd(path + Zeros(tail), |rest|, input, b + 1);
  }

  /**
   * The Host line over `path NUL` and zeros: the host is written backwards
   * from the last index and the machine completes on the final CR.
   */
  lemma HostLine(path: seq<byte>, rest: seq<byte>, host: seq<byte>, gap: nat)
    requires WellFormed(path, rest, host)
    ensures var input := GetRequest(path, rest, host);
      var d := |METHOD_STR| + |path| + 1 + |rest| + 2;
      Run(HeaderName(0), path + Zeros(gap + |host| + 1), input, d)
        == Outcome(ReqParser.Complete, Host(Some(|path| + gap), |host|), HostPending(path, Zeros(gap), host), |input| - 1)
  {
    var input := GetRequest(path, rest, host);
    var d := |METHOD_STR| + |path| + 1 + |rest| + 2;
    GetRequestAt(path, rest, host);
    HostName(path, gap, |host|, input, d);
    HostValue(path, gap, host, input, d + |HOST_STR|);
  }

  /**
   * The machine on a whole request from a zeroed req_fields of
   * |path| + 1 + gap + |host| bytes, at least two more than the path: it
   * completes on the Host line's CR with the host pending above `gap` zeros.
   */
  lemma RequestRun(gap: nat, path: seq<byte>, rest: seq<byte>, host: seq<byte>)
    requires WellFormed(path, rest, host) && 1 <= gap + |host|
    ensures var input := GetRequest(path, rest, host);
      Run(Method(0), Zeros(|path| + (gap + |host| + 1)), input, 0)
        == Outcome(ReqParser.Complete, Host(Some(|path| + gap), |host|), HostPending(path, Zeros(gap), host), |input| - 1)
  {
    RequestLine(path, rest, host, gap + |host| + 1);
    HostLine(path, rest, host, gap);
  }

  /** The caller's view of a completion with the host pending above the path: the fields packed. */
  lemma ObservedLayout(o: Outcome, path: seq<byte>, gap: seq<byte>, host: seq<byte>)
    requires NulFree(path) && AllZero(gap)
    requires o.completion == ReqParser.Complete && o.phase == Host(Some(|path| + |gap|), |host|)
    requires o.fields == HostPending(path, gap, host)
    ensures Observe(o).completion == ReqParser.Complete
    ensures Observe(o).state == (RT_HOST + |host|) % 256 && Observe(o).cursor == o.cursor
    ensures PackedLayout(Observe(o).fields, path, host)
  {
    FixedFieldsLayout(path, gap, host);
  }

  /**
   * A GET request whose Host header follows the request line, fed at once
   * into a zeroed req_fields with room for the path, its NUL, the host and
   * at least one more byte, completes on the Host line's CR; req_fields
   * then reads `path NUL host [NUL]`, the path without its leading slash.
   * The host may be empty.
   */
  lemma WholeRequest(gap: nat, path: seq<byte>, rest: seq<byte>, host: seq<byte>)
    requires WellFormed(path, rest, host) && 1 <= gap + |host|
    ensures var input := GetRequest(path, rest, host);
      var r := FeedResult(RT_METHOD_0, Zeros(|path| + (gap + |host| + 1)), input, 0);
      && r.completion == ReqParser.Complete
      && r.state == (RT_HOST + |host|) % 256
      && r.cursor == |input| - 1
      && PackedLayout(r.fields, path, host)
  {
    var input := GetRequest(path, rest, host);
    var buf := Zeros(|path| + (gap + |host| + 1));
    RequestRun(gap, path, rest, host);
    var o := Run(Method(0), buf, input, 0);
    assert NulFree(path);
    ObservedLayout(o, path, Zeros(gap), host);
    assert FeedResult(RT_METHOD_0, buf, input, 0) == Observe(o);
  }
}
