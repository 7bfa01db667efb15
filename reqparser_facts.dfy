/**
 * What the src/reqparser.c machine guarantees: how each state treats its
 * bytes, where the fields end up on completion, and when a request split
 * over several reads parses as if it had arrived at once.
 */
module ReqParserFacts {
  import opened Bytes
  import Util
  import opened ReqFields
  import opened ReqParser

  // ---------------------------------------------------------------------
  // The cursor
  // ---------------------------------------------------------------------

  /**
   * reqparser_feed never moves the cursor past data_end, stops there exactly
   * when it asks for more data, and aborts on an empty input.
   */
  lemma FeedCursor(state: int, buf: seq<byte>, input: seq<byte>, cursor: nat)
    requires cursor <= |input|
    ensures var r := FeedResult(state, buf, input, cursor);
      cursor <= r.cursor <= |input| &&
      (cursor < |input| && 0 <= state <= RT_HOST ==> (r.completion == NeedsMoreData <==> r.cursor == |input|)) &&
      (cursor == |input| ==> r.completion == AssertionFailure)
  {
  }

  // ---------------------------------------------------------------------
  // Method, skip-line, LF and header-name states
  // ---------------------------------------------------------------------

  /** The method state consumes every byte up to and including the first space, then runs the path state. */
  lemma {:induction false} MethodToSpace(buf: seq<byte>, input: seq<byte>, pos: nat, k: nat)
    requires pos <= k < |input| && input[k] == SP
    requires forall i :: pos <= i < k ==> input[i] != SP
    ensures Run(Method, buf, input, pos) == Run(Path(None), buf, input, k + 1)
    decreases k - pos
  {
    if pos < k {
      MethodToSpace(buf, input, pos + 1, k);
    }
  }

  /** Without a space the method state consumes the whole input and asks for more. */
  lemma {:induction false} MethodNoSpace(buf: seq<byte>, input: seq<byte>, pos: nat)
    requires pos <= |input|
    requires forall i :: pos <= i < |input| ==> input[i] != SP
    ensures Run(Method, buf, input, pos) == Outcome(NeedsMoreData, Method, buf, |input|)
    decreases |input| - pos
  {
    if pos < |input| {
      MethodNoSpace(buf, input, pos + 1);
    }
  }

  /** The skip-line state consumes every byte up to and including the first CR, then expects LF. */
  lemma {:induction false} SkipToCr(buf: seq<byte>, input: seq<byte>, pos: nat, k: nat)
    requires pos <= k < |input| && input[k] == CR
    requires forall i :: pos <= i < k ==> input[i] != CR
    ensures Run(SkipLine, buf, input, pos) == Run(Lf, buf, input, k + 1)
    decreases k - pos
  {
    RunStep(SkipLine, buf, input, pos);
    if pos < k {
      SkipToCr(buf, input, pos + 1, k);
    }
  }

  /** The byte after a CR must be LF: anything else is bad data. */
  lemma LfRejects(buf: seq<byte>, input: seq<byte>, pos: nat)
    requires pos < |input| && input[pos] != LF
    ensures FeedResult(RT_LF, buf, input, pos) == Result(BadData, RT_LF, buf, pos)
  {
    RunStep(Lf, buf, input, pos);
  }

  /** LF after the CR starts a header name. */
  lemma LfStep(buf: seq<byte>, input: seq<byte>, pos: nat)
    requires pos < |input| && input[pos] == LF
    ensures Run(Lf, buf, input, pos) == Run(HeaderName(0), buf, input, pos + 1)
  {
    RunStep(Lf, buf, input, pos);
  }

  /** Header-name bytes that spell the rest of "Host: " lead to the host state. */
  lemma {:induction false} HeaderMatches(m: nat, buf: seq<byte>, input: seq<byte>, pos: nat)
    requires m < |HOST_STR|
    requires pos + (|HOST_STR| - m) <= |input|
    requires input[pos..pos + (|HOST_STR| - m)] == HOST_STR[m..]
    ensures Run(HeaderName(m), buf, input, pos) == Run(Host(None, 0), buf, input, pos + (|HOST_STR| - m))
    decreases |HOST_STR| - m
  {
    assert input[pos] == input[pos..pos + (|HOST_STR| - m)][0];
    if m + 1 < |HOST_STR| {
      assert input[pos + 1..pos + (|HOST_STR| - m)] == input[pos..pos + (|HOST_STR| - m)][1..];
      HeaderMatches(m + 1, buf, input, pos + 1);
    }
  }

  /**
   * The first byte that differs from "Host: " (case included) is consumed
   * and the rest of the line is skipped.
   */
  lemma {:induction false} HeaderMismatch(m: nat, j: nat, buf: seq<byte>, input: seq<byte>, pos: nat)
    requires m <= j < |HOST_STR|
    requires pos + (j - m) < |input|
    requires input[pos..pos + (j - m)] == HOST_STR[m..j]
    requires input[pos + (j - m)] != HOST_STR[j]
    ensures Run(HeaderName(m), buf, input, pos) == Run(SkipLine, buf, input, pos + (j - m) + 1)
    decreases j - m
  {
    if m < j {
      assert input[pos] == input[pos..pos + (j - m)][0];
      assert input[pos + 1..pos + (j - m)] == input[pos..pos + (j - m)][1..];
      HeaderMismatch(m + 1, j, buf, input, pos + 1);
    }
  }

  // ---------------------------------------------------------------------
  // The path state
  // ---------------------------------------------------------------------

  /** The path state's bad-data and undefined cases, on the first byte after entry. */
  lemma PathRejects(buf: seq<byte>, input: seq<byte>, pos: nat)
    requires pos < |input|
    ensures Strlen(buf) == |buf| ==> FeedResult(RT_URI, buf, input, pos).completion == Undefined
    ensures var f := Strlen(buf); var ch := input[pos];
      f < |buf| && (ch == NUL || (ch == SP && f == 0) || (f == 0 && ch != SP && ch != SLASH)) ==>
      FeedResult(RT_URI, buf, input, pos) == Result(BadData, RT_URI, buf, pos)
  {
    RunStep(Path(None), buf, input, pos);
  }

  /** The path state's writes: the `n` input bytes from `pos` on stored upwards from index `f`, one byte per step. */
  function PathWritten(buf: seq<byte>, f: nat, input: seq<byte>, pos: nat, n: nat): (r: seq<byte>)
    requires f + n <= |buf| && pos + n <= |input|
    ensures |r| == |buf|
    decreases n
  {
    if n == 0 then buf else PathWritten(buf[f := input[pos]], f + 1, input, pos + 1, n - 1)
  }

  /** Where each byte of the path state's writes comes from. */
  lemma {:induction false} PathWrittenAt(buf: seq<byte>, f: nat, input: seq<byte>, pos: nat, n: nat, k: nat)
    requires f + n <= |buf| && pos + n <= |input| && k < |buf|
    ensures PathWritten(buf, f, input, pos, n)[k] == if f <= k < f + n then input[pos + (k - f)] else buf[k]
    decreases n
  {
    if n != 0 {
      PathWrittenAt(buf[f := input[pos]], f + 1, input, pos + 1, n - 1, k);
    }
  }

  /**
   * Path bytes (no NUL, no space, a leading '/' when the path is empty so
   * far) are appended at the fill index while the fill index stays at most
   * req_fields_len - 2.
   */
  lemma {:induction false} PathRun(f: nat, buf: seq<byte>, input: seq<byte>, pos: nat, n: nat)
    requires f + n + 2 <= |buf| && pos + n <= |input|
    requires forall i :: pos <= i < pos + n ==> input[i] != NUL && input[i] != SP
    requires f == 0 && n != 0 ==> input[pos] == SLASH
    ensures Run(Path(Some(f)), buf, input, pos)
      == Run(Path(Some(f + n)), PathWritten(buf, f, input, pos, n), input, pos + n)
    decreases n
  {
    if n != 0 {
      RunStep(Path(Some(f)), buf, input, pos);
      PathRun(f + 1, buf[f := input[pos]], input, pos + 1, n - 1);
    }
  }

  /** On the delimiting space the path state writes a NUL at the fill index and skips the rest of the line. */
  lemma PathSpace(f: nat, buf: seq<byte>, input: seq<byte>, pos: nat)
    requires 0 < f < |buf| && pos < |input| && input[pos] == SP
    ensures Run(Path(Some(f)), buf, input, pos) == Run(SkipLine, buf[f := NUL], input, pos + 1)
  {
  }

  /**
   * The fill index never passes req_fields_len - 2: wherever the path state
   * stops or pauses, the path is at most that long, and one more path byte
   * at the bound is BufferTooSmall.
   */
  lemma {:induction false} PathFillBound(f: nat, buf: seq<byte>, input: seq<byte>, pos: nat)
    requires f + 2 <= |buf| && pos <= |input|
    ensures var o := Run(Path(Some(f)), buf, input, pos);
      o.phase.Path? ==> o.phase.pathFill.Some? && o.phase.pathFill.value + 2 <= |buf|
    ensures (pos < |input| && f + 2 == |buf| && input[pos] != NUL && input[pos] != SP &&
             (f > 0 || input[pos] == SLASH)) ==>
      Run(Path(Some(f)), buf, input, pos) == Outcome(BufferTooSmall, Path(Some(f)), buf, pos)
    decreases |input| - pos
  {
    if pos < |input| {
      match Step(Path(Some(f)), buf, input[pos])
      case Stop(_, _, _) =>
      case Next(ph, buf') =>
        if ph.Path? {
          PathFillBound(f + 1, buf', input, pos + 1);
        } else {
          // the next phase is SkipLine, which never returns to the path state
          SkipLineNeverPath(buf', input, pos + 1);
        }
    }
  }

  /** Once past the request line the machine never returns to the path state. */
  predicate PastPath(ph: Phase)
  {
    !ph.Path? && !ph.Method?
  }

  lemma {:induction false} PastPathStays(ph: Phase, buf: seq<byte>, input: seq<byte>, pos: nat)
    requires PhaseOk(ph, buf) && PastPath(ph) && pos <= |input|
    ensures PastPath(Run(ph, buf, input, pos).phase)
    decreases |input| - pos
  {
    if pos < |input| {
      match Step(ph, buf, input[pos])
      case Stop(_, _, _) =>
      case Next(ph', buf') => PastPathStays(ph', buf', input, pos + 1);
    }
  }

  lemma SkipLineNeverPath(buf: seq<byte>, input: seq<byte>, pos: nat)
    requires pos <= |input|
    ensures !Run(SkipLine, buf, input, pos).phase.Path?
  {
    PastPathStays(SkipLine, buf, input, pos);
  }

  // ---------------------------------------------------------------------
  // The host state
  // ---------------------------------------------------------------------

  /**
   * The host state's writes: the `n` input bytes from `pos` on stored
   * downwards from index `f`, one byte per step.
   */
  function HostWritten(buf: seq<byte>, f: nat, input: seq<byte>, pos: nat, n: nat): (r: seq<byte>)
    requires n <= f < |buf| && pos + n <= |input|
    ensures |r| == |buf| && r[f - n] == buf[f - n]
    decreases n
  {
    if n == 0 then buf else HostWritten(buf[f := input[pos]], f - 1, input, pos + 1, n - 1)
  }

  /**
   * Host bytes other than CR are written backwards from the fill index as
   * long as each lands on a NUL with a NUL below it.
   */
  lemma {:induction false} HostRun(f: nat, w: nat, buf: seq<byte>, input: seq<byte>, pos: nat, n: nat)
    requires n <= f < |buf| && pos + n <= |input|
    requires forall i :: f - n <= i <= f ==> buf[i] == NUL
    requires forall i :: pos <= i < pos + n ==> input[i] != CR
    ensures HostTail(f, w, buf, input, pos)
      == HostTail(f - n, w + n, HostWritten(buf, f, input, pos, n), input, pos + n)
    decreases n
  {
    if n != 0 {
      HostRun(f - 1, w + 1, buf[f := input[pos]], input, pos + 1, n - 1);
    }
  }

  /** Where each byte of the host state's writes comes from. */
  lemma {:induction false} HostWrittenAt(buf: seq<byte>, f: nat, input: seq<byte>, pos: nat, n: nat, k: nat)
    requires n <= f < |buf| && pos + n <= |input| && k < |buf|
    ensures HostWritten(buf, f, input, pos, n)[k] == if f - n < k <= f then input[pos + (f - k)] else buf[k]
    decreases n
  {
    if n != 0 {
      HostWrittenAt(buf[f := input[pos]], f - 1, input, pos + 1, n - 1, k);
    }
  }

  /** The host guard, on one byte: CR ends the host, a missing NUL below the fill index is BufferTooSmall. */
  lemma HostStep(f: nat, w: nat, buf: seq<byte>, input: seq<byte>, pos: nat)
    requires f < |buf| && buf[f] == NUL && pos < |input|
    ensures input[pos] == CR && f == |buf| - 1 ==>
      Run(Host(Some(f), w), buf, input, pos) == Outcome(BadData, Host(Some(f), w), buf, pos)
    ensures input[pos] == CR && f < |buf| - 1 ==>
      Observe(Run(Host(Some(f), w), buf, input, pos))
        == Result(Complete, StateOf(Host(Some(f), w)), FixedFields(buf, f + 1), pos)
    ensures input[pos] != CR && (f == 0 || buf[f - 1] != NUL) ==>
      Run(Host(Some(f), w), buf, input, pos) == Outcome(BufferTooSmall, Host(Some(f), w), buf, pos)
  {
    HostTailRuns(f, w, buf, input, pos);
  }

  /**
   * `out` agrees with `buf` at every index above `f`, at every byte that is
   * not NUL and at every NUL that follows a byte that is not NUL.
   */
  predicate KeptBelow(buf: seq<byte>, f: nat, out: seq<byte>)
  {
    && |out| == |buf|
    && forall i :: 0 <= i < |buf| && Protected(buf, f, i) ==> out[i] == buf[i]
  }

  /** Index `i` is above `f`, holds a byte that is not NUL, or follows one. */
  predicate Protected(buf: seq<byte>, f: nat, i: nat)
    requires i < |buf|
  {
    i > f || buf[i] != NUL || (i > 0 && buf[i - 1] != NUL)
  }

  /** Writing one host byte into a NUL that follows a NUL keeps what KeptBelow protects. */
  lemma KeptBelowStep(buf: seq<byte>, f: nat, ch: byte, out: seq<byte>)
    requires 0 < f < |buf| && buf[f] == NUL && buf[f - 1] == NUL
    requires KeptBelow(buf[f := ch], f - 1, out)
    ensures KeptBelow(buf, f, out)
  {
    var buf' := buf[f := ch];
    forall i | 0 <= i < |buf| && Protected(buf, f, i)
      ensures out[i] == buf[i]
    {
      assert buf'[i] == buf[i];
      assert Protected(buf', f - 1, i);
    }
  }

  /**
   * The host state never overwrites a byte that is not NUL, nor a NUL that
   * follows a byte that is not NUL (such as the path's terminator).
   */
  lemma {:induction false} HostKeepsPath(f: nat, w: nat, buf: seq<byte>, input: seq<byte>, pos: nat)
    requires f < |buf| && buf[f] == NUL && pos <= |input|
    ensures KeptBelow(buf, f, Run(Host(Some(f), w), buf, input, pos).fields)
    decreases |input| - pos
  {
    if pos < |input| {
      match Step(Host(Some(f), w), buf, input[pos])
      case Stop(_, _, _) =>
      case Next(ph, buf') =>
        assert f > 0 && buf[f - 1] == NUL;
        assert ph == Host(Some(f - 1), w + 1) && buf' == buf[f := input[pos]];
        HostKeepsPath(f - 1, w + 1, buf', input, pos + 1);
        KeptBelowStep(buf, f, input[pos], Run(ph, buf', input, pos + 1).fields);
    }
  }

  // ---------------------------------------------------------------------
  // A whole request
  // ---------------------------------------------------------------------

  /** Entering the path state scans for the first NUL; with one present it is the fill index. */
  lemma PathEntry(buf: seq<byte>, input: seq<byte>, pos: nat)
    requires pos < |input| && Strlen(buf) < |buf|
    ensures Run(Path(None), buf, input, pos) == Run(Path(Some(Strlen(buf))), buf, input, pos)
  {
    RunStep(Path(None), buf, input, pos);
    RunStep(Path(Some(Strlen(buf))), buf, input, pos);
  }

  /** A minimal request: request line, then a Host header line ending in CR. */
  function Request(verb: seq<byte>, path: seq<byte>, rest: seq<byte>, host: seq<byte>): (r: seq<byte>)
    ensures |r| == |verb| + |path| + |rest| + |host| + 11
  {
    RequestHead(verb, path, rest) + HostLine(host)
  }

  /** The request line `verb SP path SP rest CR LF`. */
  function RequestHead(verb: seq<byte>, path: seq<byte>, rest: seq<byte>): (r: seq<byte>)
    ensures |r| == |verb| + 1 + |path| + 1 + |rest| + 2
  {
    verb + [SP] + path + [SP] + rest + [CR, LF]
  }

  /** The header line `"Host: " host CR`. */
  function HostLine(host: seq<byte>): (r: seq<byte>)
    ensures |r| == |HOST_STR| + |host| + 1
  {
    HOST_STR + host + [CR]
  }

  /** The shape of a request `Request` can build. */
  predicate WellFormed(verb: seq<byte>, path: seq<byte>, rest: seq<byte>, host: seq<byte>)
  {
    && (forall i :: 0 <= i < |verb| ==> verb[i] != SP)
    && path != [] && path[0] == SLASH
    && (forall i :: 0 <= i < |path| ==> path[i] != NUL && path[i] != SP)
    && (forall i :: 0 <= i < |rest| ==> rest[i] != CR)
    && host != []
    && (forall i :: 0 <= i < |host| ==> host[i] != CR)
  }

  /**
   * `input` is the request `verb SP path SP rest CR LF "Host: " host CR`,
   * stated by where each part sits.
   */
  predicate Framed(input: seq<byte>, verb: seq<byte>, path: seq<byte>, rest: seq<byte>, host: seq<byte>)
  {
    && LineAt(input, verb, path, rest)
    && HostLineAt(input, |verb| + 1 + |path| + 1 + |rest| + 2, host)
  }

  /** `input` starts with the request line `verb SP path SP rest CR LF`. */
  predicate LineAt(input: seq<byte>, verb: seq<byte>, path: seq<byte>, rest: seq<byte>)
  {
    var b := |verb| + 1 + |path|;
    && b + 1 + |rest| + 2 <= |input|
    && input[..|verb|] == verb && input[|verb|] == SP
    && input[|verb| + 1..b] == path && input[b] == SP
    && input[b + 1..b + 1 + |rest|] == rest
    && input[b + 1 + |rest|] == CR && input[b + 1 + |rest| + 1] == LF
  }

  /** From `d` on, `input` is the header line `"Host: " host CR` and nothing after it. */
  predicate HostLineAt(input: seq<byte>, d: nat, host: seq<byte>)
  {
    var e := d + |HOST_STR|;
    && |input| == e + |host| + 1
    && input[d..e] == HOST_STR && input[e..e + |host|] == host && input[e + |host|] == CR
  }

  /** Where each part of the request line sits. */
  lemma HeadBytes(verb: seq<byte>, path: seq<byte>, rest: seq<byte>)
    ensures LineAt(RequestHead(verb, path, rest), verb, path, rest)
  {
    var input := RequestHead(verb, path, rest);
    var b := |verb| + 1 + |path|;
    assert input[..|verb|] == verb;
    assert input[|verb| + 1..b] == path;
    assert input[b + 1..b + 1 + |rest|] == rest;
  }

  /** Bytes appended after a request line leave it in place. */
  lemma LineAtPrefix(line: seq<byte>, tail: seq<byte>, verb: seq<byte>, path: seq<byte>, rest: seq<byte>)
    requires LineAt(line, verb, path, rest)
    ensures LineAt(line + tail, verb, path, rest)
  {
    var input := line + tail;
    var b := |verb| + 1 + |path|;
    assert input[..b + 1 + |rest| + 2] == line[..b + 1 + |rest| + 2];
  }

  /** Where each part of the Host line sits, after `d` bytes of request line. */
  lemma HostLineBytes(head: seq<byte>, host: seq<byte>)
    ensures HostLineAt(head + HostLine(host), |head|, host)
  {
    var input := head + HostLine(host);
    var e := |head| + |HOST_STR|;
    assert input[|head|..] == HostLine(host);
    assert input[|head|..e] == HOST_STR;
    assert input[e..e + |host|] == host;
  }

  /** `Request` builds a framed request. */
  lemma RequestFramed(verb: seq<byte>, path: seq<byte>, rest: seq<byte>, host: seq<byte>)
    ensures Framed(Request(verb, path, rest, host), verb, path, rest, host)
  {
    HeadBytes(verb, path, rest);
    LineAtPrefix(RequestHead(verb, path, rest), HostLine(host), verb, path, rest);
    HostLineBytes(RequestHead(verb, path, rest), host);
  }

  /** The method, its space and the scan for the path's fill index. */
  lemma MethodLine(L: nat, verb: seq<byte>, input: seq<byte>)
    requires 0 < L && |verb| + 1 < |input|
    requires forall i :: 0 <= i < |verb| ==> verb[i] != SP
    requires input[..|verb|] == verb && input[|verb|] == SP
    ensures Run(Method, Zeros(L), input, 0) == Run(Path(Some(0)), Zeros(L), input, |verb| + 1)
  {
    forall i | 0 <= i < |verb| ensures input[i] != SP {
      assert input[i] == verb[i];
    }
    MethodToSpace(Zeros(L), input, 0, |verb|);
    StrlenIs(Zeros(L), 0);
    PathEntry(Zeros(L), input, |verb| + 1);
  }

  /** The path and its space: the path is written from index 0 and NUL-terminated. */
  lemma PathLine(path: seq<byte>, tail: nat, input: seq<byte>, p: nat)
    requires path != [] && path[0] == SLASH && 2 <= tail
    requires forall i :: 0 <= i < |path| ==> path[i] != NUL && path[i] != SP
    requires p + |path| < |input| && input[p..p + |path|] == path && input[p + |path|] == SP
    ensures Run(Path(Some(0)), Zeros(|path| + tail), input, p) == Run(SkipLine, path + Zeros(tail), input, p + |path| + 1)
  {
    PathBytesAt(path, input, p);
    PathRun(0, Zeros(|path| + tail), input, p, |path|);
    var b0 := PathWritten(Zeros(|path| + tail), 0, input, p, |path|);
    PathSpace(|path|, b0, input, p + |path|);
    PathOverZeros(path, tail, input, p);
  }

  /** A path segment of the input, index by index. */
  lemma PathBytesAt(path: seq<byte>, input: seq<byte>, p: nat)
    requires path != [] && path[0] == SLASH
    requires forall i :: 0 <= i < |path| ==> path[i] != NUL && path[i] != SP
    requires p + |path| <= |input| && input[p..p + |path|] == path
    ensures input[p] == SLASH
    ensures forall i :: p <= i < p + |path| ==> input[i] != NUL && input[i] != SP
  {
    assert input[p] == path[0];
    forall i | p <= i < p + |path| ensures input[i] != NUL && input[i] != SP {
      assert input[i] == path[i - p];
    }
  }

  /** Writing the path over zeros and terminating it leaves the path followed by zeros. */
  lemma PathOverZeros(path: seq<byte>, tail: nat, input: seq<byte>, p: nat)
    requires 0 < tail && p + |path| <= |input| && input[p..p + |path|] == path
    ensures PathWritten(Zeros(|path| + tail), 0, input, p, |path|)[|path| := NUL] == path + Zeros(tail)
  {
    var b0 := Zeros(|path| + tail);
    var r := PathWritten(b0, 0, input, p, |path|)[|path| := NUL];
    forall k | 0 <= k < |b0| ensures r[k] == (path + Zeros(tail))[k] {
      PathWrittenAt(b0, 0, input, p, |path|, k);
      if k < |path| {
        assert input[p + k] == path[k];
      }
    }
  }

  /** The rest of the request line, its CR and its LF. */
  lemma LineEnd(buf: seq<byte>, n: nat, input: seq<byte>, p: nat)
    requires p + n + 1 < |input|
    requires forall i :: p <= i < p + n ==> input[i] != CR
    requires input[p + n] == CR && input[p + n + 1] == LF
    ensures Run(SkipLine, buf, input, p) == Run(HeaderName(0), buf, input, p + n + 2)
  {
    SkipToCr(buf, input, p, p + n);
    LfStep(buf, input, p + n + 1);
  }

  /** A CR-free segment of the input, index by index. */
  lemma NoCrAt(seg: seq<byte>, input: seq<byte>, p: nat)
    requires p + |seg| <= |input| && input[p..p + |seg|] == seg
    requires forall i :: 0 <= i < |seg| ==> seg[i] != CR
    ensures forall i :: p <= i < p + |seg| ==> input[i] != CR
  {
    forall i | p <= i < p + |seg| ensures input[i] != CR {
      assert input[i] == seg[i - p];
    }
  }

  /**
   * The request line, from a zeroed req_fields: the path lands at index 0
   * with a NUL after it, and the machine is at the header line.
   */
  lemma RequestLine(verb: seq<byte>, path: seq<byte>, rest: seq<byte>, tail: nat, input: seq<byte>)
    requires 2 <= tail
    requires WellFormed(verb, path, rest, [SLASH])
    requires |verb| + |path| + |rest| + 4 <= |input|
    requires input[..|verb|] == verb && input[|verb|] == SP
    requires input[|verb| + 1..|verb| + 1 + |path|] == path && input[|verb| + 1 + |path|] == SP
    requires input[|verb| + 1 + |path| + 1..|verb| + 1 + |path| + 1 + |rest|] == rest
    requires input[|verb| + 1 + |path| + 1 + |rest|] == CR && input[|verb| + 1 + |path| + 1 + |rest| + 1] == LF
    ensures Run(Method, Zeros(|path| + tail), input, 0)
      == Run(HeaderName(0), path + Zeros(tail), input, |verb| + 1 + |path| + 1 + |rest| + 2)
  {
    MethodLine(|path| + tail, verb, input);
    PathLine(path, tail, input, |verb| + 1);
    NoCrAt(rest, input, |verb| + 1 + |path| + 1);
    LineEnd(path + Zeros(tail), |rest|, input, |verb| + 1 + |path| + 1);
  }

  /** "Host: " and the scan down for the host's fill index, which is the last index. */
  lemma HostName(path: seq<byte>, gap: nat, n: nat, input: seq<byte>, p: nat)
    requires p + |HOST_STR| < |input| && input[p..p + |HOST_STR|] == HOST_STR
    ensures Run(HeaderName(0), path + Zeros(gap + n + 1), input, p)
      == HostTail(|path| + gap + n, 0, path + Zeros(gap + n + 1), input, p + |HOST_STR|)
  {
    var b1 := path + Zeros(gap + n + 1);
    HeaderMatches(0, b1, input, p);
    LastNulIs(b1, |path| + gap + n);
    ReqParser.HostEntry(b1, input, p + |HOST_STR|);
  }

  /** The host bytes, written backwards from the last index, and the final CR. */
  lemma HostValue(path: seq<byte>, gap: nat, host: seq<byte>, input: seq<byte>, q: nat)
    requires host != [] && (forall i :: 0 <= i < |host| ==> host[i] != CR)
    requires q + |host| < |input| && input[q..q + |host|] == host && input[q + |host|] == CR
    ensures HostTail(|path| + gap + |host|, 0, path + Zeros(gap + |host| + 1), input, q)
      == Outcome(Complete, Host(Some(|path| + gap), |host|), HostPending(path, Zeros(gap), host), q + |host|)
  {
    var b1 := path + Zeros(gap + |host| + 1);
    var f := |path| + gap + |host|;
    HostRun(f, 0, b1, input, q, |host|);
    HostPendingWritten(path, gap, host, input, q);
  }

  /** The host bytes written backwards above the zeros leave the pending layout. */
  lemma HostPendingWritten(path: seq<byte>, gap: nat, host: seq<byte>, input: seq<byte>, q: nat)
    requires q + |host| <= |input| && input[q..q + |host|] == host
    ensures HostWritten(path + Zeros(gap + |host| + 1), |path| + gap + |host|, input, q, |host|)
      == HostPending(path, Zeros(gap), host)
  {
    var b1 := path + Zeros(gap + |host| + 1);
    var f := |path| + gap + |host|;
    var r := HostWritten(b1, f, input, q, |host|);
    var p := HostPending(path, Zeros(gap), host);
    forall k | 0 <= k < |b1| ensures r[k] == p[k] {
      HostWrittenAt(b1, f, input, q, |host|, k);
      if k <= |path| + gap {
        assert p[k] == b1[k];
      } else {
        Util.ReversedAt(host, k - (|path| + gap + 1));
        assert input[q + (f - k)] == host[f - k];
      }
    }
  }

  /** A feed in the method state is the machine run from the method phase, as the caller sees it. */
  lemma FeedFromMethod(buf: seq<byte>, input: seq<byte>)
    requires input != []
    ensures FeedResult(RT_METHOD, buf, input, 0) == Observe(Run(Method, buf, input, 0))
  {
  }

  /** A machine completing in the host phase is seen by the caller as completing in its host state. */
  lemma ObserveCompleted(o: Outcome, r: Result, f: nat, w: nat, c: nat)
    requires r == Observe(o)
    requires o.completion == Complete && o.phase == Host(Some(f), w) && o.cursor == c
    ensures r.completion == Complete && r.state == (RT_HOST + w) % 256 && r.cursor == c
  {
  }

  /**
   * A machine completing in the host phase with the host pending above the
   * path is seen by the caller with the fields packed.
   */
  lemma ObservedLayout(o: Outcome, path: seq<byte>, gap: seq<byte>, host: seq<byte>)
    requires NulFree(path) && AllZero(gap) && host != []
    requires o.completion == Complete && o.phase == Host(Some(|path| + |gap|), |host|)
    requires o.fields == HostPending(path, gap, host)
    ensures PackedLayout(Observe(o).fields, path, host)
  {
    var f := |path| + |gap|;
    FixedFieldsLayout(path, gap, host);
    assert o.fields[f] == NUL && f + 1 < |o.fields|;
    ObservePacked(o, f, path, host);
  }

  /** On Complete with the fill index below the last index, the caller sees the fixed fields. */
  lemma ObservePacked(o: Outcome, f: nat, path: seq<byte>, host: seq<byte>)
    requires o.completion == Complete && o.phase.Host? && o.phase.hostFill == Some(f)
    requires f + 1 < |o.fields| && o.fields[f] == NUL
    requires PackedLayout(FixedFields(o.fields, f + 1), path, host)
    ensures PackedLayout(Observe(o).fields, path, host)
  {
  }

  /**
   * The machine on a whole request from a zeroed req_fields of
   * |path| + 1 + gap + |host| bytes: it completes on the Host line's CR, in
   * the host phase, with the host pending above `gap` untouched zeros.
   */
  lemma RequestRun(gap: nat, verb: seq<byte>, path: seq<byte>, rest: seq<byte>, host: seq<byte>)
    requires WellFormed(verb, path, rest, host)
    ensures var o := Run(Method, Zeros(|path| + (gap + |host| + 1)), Request(verb, path, rest, host), 0);
      && o.completion == Complete
      && o.phase == Host(Some(|path| + gap), |host|)
      && o.cursor == |Request(verb, path, rest, host)| - 1
      && o.fields == HostPending(path, Zeros(gap), host)
  {
    RequestFramed(verb, path, rest, host);
    FramedRun(gap, verb, path, rest, host, Request(verb, path, rest, host));
  }

  /** `RequestRun` for any framed input. */
  lemma FramedRun(gap: nat, verb: seq<byte>, path: seq<byte>, rest: seq<byte>, host: seq<byte>, input: seq<byte>)
    requires WellFormed(verb, path, rest, host) && Framed(input, verb, path, rest, host)
    ensures var o := Run(Method, Zeros(|path| + (gap + |host| + 1)), input, 0);
      && o.completion == Complete
      && o.phase == Host(Some(|path| + gap), |host|)
      && o.cursor == |input| - 1
      && o.fields == HostPending(path, Zeros(gap), host)
  {
    FramedLine(gap + |host| + 1, verb, path, rest, input);
    FramedHost(gap, path, host, input, |verb| + 1 + |path| + 1 + |rest| + 2);
  }

  /** A framed input's request line. */
  lemma FramedLine(tail: nat, verb: seq<byte>, path: seq<byte>, rest: seq<byte>, input: seq<byte>)
    requires 2 <= tail
    requires WellFormed(verb, path, rest, [SLASH]) && LineAt(input, verb, path, rest)
    ensures Run(Method, Zeros(|path| + tail), input, 0)
      == Run(HeaderName(0), path + Zeros(tail), input, |verb| + 1 + |path| + 1 + |rest| + 2)
  {
    RequestLine(verb, path, rest, tail, input);
  }

  /** A framed input's Host line. */
  lemma FramedHost(gap: nat, path: seq<byte>, host: seq<byte>, input: seq<byte>, d: nat)
    requires host != [] && (forall i :: 0 <= i < |host| ==> host[i] != CR)
    requires HostLineAt(input, d, host)
    ensures Run(HeaderName(0), path + Zeros(gap + |host| + 1), input, d)
      == Outcome(Complete, Host(Some(|path| + gap), |host|), HostPending(path, Zeros(gap), host), |input| - 1)
  {
    HostName(path, gap, |host|, input, d);
    HostValue(path, gap, host, input, d + |HOST_STR|);
  }

  /** The machine stops on the Host line's CR, in the host phase. */
  lemma RequestEnds(gap: nat, verb: seq<byte>, path: seq<byte>, rest: seq<byte>, host: seq<byte>)
    requires WellFormed(verb, path, rest, host)
    ensures var o := Run(Method, Zeros(|path| + (gap + |host| + 1)), Request(verb, path, rest, host), 0);
      && o.completion == Complete && o.phase == Host(Some(|path| + gap), |host|)
      && o.cursor == |Request(verb, path, rest, host)| - 1
  {
    RequestRun(gap, verb, path, rest, host);
  }

  /** As the caller sees the machine's outcome on a whole request, the fields are packed. */
  lemma RequestObserved(gap: nat, verb: seq<byte>, path: seq<byte>, rest: seq<byte>, host: seq<byte>)
    requires WellFormed(verb, path, rest, host)
    ensures var o := Run(Method, Zeros(|path| + (gap + |host| + 1)), Request(verb, path, rest, host), 0);
      PackedLayout(Observe(o).fields, path, host)
  {
    RequestRun(gap, verb, path, rest, host);
    ObservedLayout(Run(Method, Zeros(|path| + (gap + |host| + 1)), Request(verb, path, rest, host), 0), path, Zeros(gap), host);
  }

  /**
   * A request whose Host header follows the request line, fed at once into
   * a zeroed req_fields with room for the path, its NUL and the host, completes
   * on the Host line's CR, with the host's length counted into the state.
   */
  lemma WholeRequestCompletes(gap: nat, verb: seq<byte>, path: seq<byte>, rest: seq<byte>, host: seq<byte>)
    requires WellFormed(verb, path, rest, host)
    ensures var input := Request(verb, path, rest, host);
      var r := FeedResult(RT_METHOD, Zeros(|path| + (gap + |host| + 1)), input, 0);
      && r.completion == Complete
      && r.state == (RT_HOST + |host|) % 256
      && r.cursor == |input| - 1
  {
    var input := Request(verb, path, rest, host);
    var o := Run(Method, Zeros(|path| + (gap + |host| + 1)), input, 0);
    var r := FeedResult(RT_METHOD, Zeros(|path| + (gap + |host| + 1)), input, 0);
    RequestEnds(gap, verb, path, rest, host);
    FeedFromMethod(Zeros(|path| + (gap + |host| + 1)), input);
    ObserveCompleted(o, r, |path| + gap, |host|, |input| - 1);
  }

  /**
   * The same feed leaves req_fields as `path NUL host [NUL]`; by
   * `PackedLayoutDecodes`, `strlen` and the NUL-free run after it then give
   * back the path and the host.
   */
  lemma WholeRequestPacked(gap: nat, verb: seq<byte>, path: seq<byte>, rest: seq<byte>, host: seq<byte>)
    requires WellFormed(verb, path, rest, host)
    ensures var input := Request(verb, path, rest, host);
      var r := FeedResult(RT_METHOD, Zeros(|path| + (gap + |host| + 1)), input, 0);
      PackedLayout(r.fields, path, host)
  {
    RequestObserved(gap, verb, path, rest, host);
    FeedFromMethod(Zeros(|path| + (gap + |host| + 1)), Request(verb, path, rest, host));
  }
}
