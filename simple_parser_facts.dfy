/**
 * Properties of the parser.c machine: how each sub-state consumes its part
 * of a request, the bounds on the two buffers, a whole request, resuming
 * across reads, and what the as-written parser_feed does at data_end.
 */
module SimpleParserFacts {
  import opened Bytes
  import opened SimpleParser
  import ReqParserFacts

  /** `k` bytes matching "GET " from index `tmp`, short of the whole string, only advance `tmp`. */
  lemma {:induction false} MethodPrefix(m: Machine, input: seq<byte>, pos: nat, k: nat)
    requires Ok(m) && m.state == PsMethod && m.tmp + k < |METHOD_STR| && pos + k <= |input|
    requires forall i :: pos <= i < pos + k ==> input[i] == METHOD_STR[m.tmp + (i - pos)]
    ensures Run(m, input, pos) == Run(m.(tmp := m.tmp + k), input, pos + k)
    decreases k
  {
    if k > 0 {
      RunStep(m, input, pos);
      MethodPrefix(m.(tmp := m.tmp + 1), input, pos + 1, k - 1);
    }
  }

  /** The rest of "GET " from index `tmp` enters ps_uri with `tmp` back at 0. */
  lemma MethodMatches(m: Machine, input: seq<byte>, pos: nat)
    requires Ok(m) && m.state == PsMethod && pos + (|METHOD_STR| - m.tmp) <= |input|
    requires forall i :: pos <= i < pos + (|METHOD_STR| - m.tmp) ==> input[i] == METHOD_STR[m.tmp + (i - pos)]
    ensures Run(m, input, pos) == Run(m.(state := PsUri, tmp := 0), input, pos + (|METHOD_STR| - m.tmp))
  {
    var k := |METHOD_STR| - 1 - m.tmp;
    MethodPrefix(m, input, pos, k);
    RunStep(m.(tmp := m.tmp + k), input, pos + k);
  }

  /**
   * A request that agrees with "GET " on its first `j` bytes and not on the
   * next is rejected with pr_error just past that byte.
   */
  lemma MethodRejects(m: Machine, input: seq<byte>, j: nat)
    requires j < |METHOD_STR| && j < |input|
    requires forall i :: 0 <= i < j ==> input[i] == METHOD_STR[i]
    requires input[j] != METHOD_STR[j]
    ensures Run(AfterReset(m), input, 0) == Outcome(PrError, AfterReset(m).(tmp := j + 1), j + 1)
  {
    var m0 := AfterReset(m);
    MethodPrefix(m0, input, 0, j);
    RunStep(m0.(tmp := j), input, j);
  }

  /** The URI bytes stored so far, with `n` more from the input after them. */
  lemma StoredAfter(buf: seq<byte>, f: nat, input: seq<byte>, pos: nat, n: nat)
    requires f + n <= |buf| && pos + n <= |input|
    ensures ReqParserFacts.PathWritten(buf, f, input, pos, n)[..f + n] == buf[..f] + input[pos..pos + n]
  {
    var w := ReqParserFacts.PathWritten(buf, f, input, pos, n);
    forall k | 0 <= k < f + n
      ensures w[k] == (buf[..f] + input[pos..pos + n])[k]
    {
      ReqParserFacts.PathWrittenAt(buf, f, input, pos, n, k);
    }
  }

  /**
   * URI bytes other than a space are stored one after another while they
   * fit in the buffer; the rest of the buffer is untouched.
   */
  lemma {:induction false} UriRun(m: Machine, input: seq<byte>, pos: nat, n: nat)
    requires Ok(m) && m.state == PsUri && m.uriLen + n <= |m.uri| && pos + n <= |input|
    requires forall i :: pos <= i < pos + n ==> input[i] != SP
    ensures Run(m, input, pos)
      == Run(m.(uri := ReqParserFacts.PathWritten(m.uri, m.uriLen, input, pos, n), uriLen := m.uriLen + n), input, pos + n)
    decreases n
  {
    if n > 0 {
      RunStep(m, input, pos);
      UriRun(m.(uri := m.uri[m.uriLen := input[pos]], uriLen := m.uriLen + 1), input, pos + 1, n - 1);
    }
  }

  /** The space after the URI is not stored and leads to ps_ignore_line. */
  lemma UriSpace(m: Machine, input: seq<byte>, pos: nat)
    requires Ok(m) && m.state == PsUri && pos < |input| && input[pos] == SP
    ensures Run(m, input, pos) == Run(m.(state := PsIgnoreLine), input, pos + 1)
  {
    RunStep(m, input, pos);
  }

  /**
   * A URI longer than its buffer: the bytes that fit are stored, and the
   * first one that does not yields pr_error with nothing more stored.
   */
  lemma UriTooLong(m: Machine, input: seq<byte>, pos: nat)
    requires Ok(m) && m.state == PsUri && pos + (|m.uri| - m.uriLen) < |input|
    requires forall i :: pos <= i <= pos + (|m.uri| - m.uriLen) ==> input[i] != SP
    ensures var o := Run(m, input, pos);
      && o.result == PrError && o.cursor == pos + (|m.uri| - m.uriLen) + 1
      && o.machine.uriLen == |m.uri|
      && o.machine.StoredUri() == m.StoredUri() + input[pos..pos + (|m.uri| - m.uriLen)]
  {
    var n := |m.uri| - m.uriLen;
    UriRun(m, input, pos, n);
    StoredAfter(m.uri, m.uriLen, input, pos, n);
    var m1 := m.(uri := ReqParserFacts.PathWritten(m.uri, m.uriLen, input, pos, n), uriLen := m.uriLen + n);
    RunStep(m1, input, pos + n);
  }

  /** ps_ignore_line skips every byte up to the CR at `e`, which leads to ps_lf. */
  lemma {:induction false} SkipToCr(m: Machine, input: seq<byte>, pos: nat, e: nat)
    requires Ok(m) && m.state == PsIgnoreLine && pos <= e < |input| && input[e] == CR
    requires forall i :: pos <= i < e ==> input[i] != CR
    ensures Run(m, input, pos) == Run(m.(state := PsLf), input, e + 1)
    decreases e - pos
  {
    RunStep(m, input, pos);
    if pos < e {
      SkipToCr(m, input, pos + 1, e);
    }
  }

  /** After the CR, a LF leads to ps_header_name and any other byte yields pr_error. */
  lemma LfStep(m: Machine, input: seq<byte>, pos: nat)
    requires Ok(m) && m.state == PsLf && pos < |input|
    ensures input[pos] == LF ==> Run(m, input, pos) == Run(m.(state := PsHeaderName), input, pos + 1)
    ensures input[pos] != LF ==> Run(m, input, pos) == Outcome(PrError, m, pos + 1)
  {
    RunStep(m, input, pos);
  }

  /** `k` bytes matching "Host: " from index `tmp`, short of the whole string, only advance `tmp`. */
  lemma {:induction false} HeaderPrefix(m: Machine, input: seq<byte>, pos: nat, k: nat)
    requires Ok(m) && m.state == PsHeaderName && m.tmp + k < |HOST_STR| && pos + k <= |input|
    requires forall i :: pos <= i < pos + k ==> input[i] == HOST_STR[m.tmp + (i - pos)]
    ensures Run(m, input, pos) == Run(m.(tmp := m.tmp + k), input, pos + k)
    decreases k
  {
    if k > 0 {
      RunStep(m, input, pos);
      HeaderPrefix(m.(tmp := m.tmp + 1), input, pos + 1, k - 1);
    }
  }

  /** The rest of "Host: " from index `tmp` enters ps_host with `tmp` back at 0. */
  lemma HeaderMatches(m: Machine, input: seq<byte>, pos: nat)
    requires Ok(m) && m.state == PsHeaderName && pos + (|HOST_STR| - m.tmp) <= |input|
    requires forall i :: pos <= i < pos + (|HOST_STR| - m.tmp) ==> input[i] == HOST_STR[m.tmp + (i - pos)]
    ensures Run(m, input, pos) == Run(m.(state := PsHost, tmp := 0), input, pos + (|HOST_STR| - m.tmp))
  {
    var k := |HOST_STR| - 1 - m.tmp;
    HeaderPrefix(m, input, pos, k);
    RunStep(m.(tmp := m.tmp + k), input, pos + k);
  }

  /**
   * A header name that agrees with "Host: " on `k` bytes from index `tmp`
   * and not on the next is skipped: the mismatching byte is consumed and
   * the parser is in ps_ignore_line with `tmp` 0.
   */
  lemma HeaderMismatch(m: Machine, input: seq<byte>, pos: nat, k: nat)
    requires Ok(m) && m.state == PsHeaderName && m.tmp + k < |HOST_STR| && pos + k < |input|
    requires forall i :: pos <= i < pos + k ==> input[i] == HOST_STR[m.tmp + (i - pos)]
    requires input[pos + k] != HOST_STR[m.tmp + k]
    ensures Run(m, input, pos) == Run(m.(state := PsIgnoreLine, tmp := 0), input, pos + k + 1)
  {
    HeaderPrefix(m, input, pos, k);
    RunStep(m.(tmp := m.tmp + k), input, pos + k);
  }

  /** Host bytes other than CR are stored one after another while they fit in the buffer. */
  lemma {:induction false} HostRun(m: Machine, input: seq<byte>, pos: nat, n: nat)
    requires Ok(m) && m.state == PsHost && m.hostLen + n <= |m.host| && pos + n <= |input|
    requires forall i :: pos <= i < pos + n ==> input[i] != CR
    ensures Run(m, input, pos)
      == Run(m.(host := ReqParserFacts.PathWritten(m.host, m.hostLen, input, pos, n), hostLen := m.hostLen + n), input, pos + n)
    decreases n
  {
    if n > 0 {
      RunStep(m, input, pos);
      HostRun(m.(host := m.host[m.hostLen := input[pos]], hostLen := m.hostLen + 1), input, pos + 1, n - 1);
    }
  }

  /** The CR ending the Host value finishes the request, whatever is stored. */
  lemma HostCr(m: Machine, input: seq<byte>, pos: nat)
    requires Ok(m) && m.state == PsHost && pos < |input| && input[pos] == CR
    ensures Run(m, input, pos) == Outcome(PrFinished, m, pos + 1)
  {
    RunStep(m, input, pos);
  }

  /**
   * A Host value longer than its buffer: the bytes that fit are stored, and
   * the first one that does not yields pr_error with nothing more stored.
   */
  lemma HostTooLong(m: Machine, input: seq<byte>, pos: nat)
    requires Ok(m) && m.state == PsHost && pos + (|m.host| - m.hostLen) < |input|
    requires forall i :: pos <= i <= pos + (|m.host| - m.hostLen) ==> input[i] != CR
    ensures var o := Run(m, input, pos);
      && o.result == PrError && o.cursor == pos + (|m.host| - m.hostLen) + 1
      && o.machine.hostLen == |m.host|
      && o.machine.StoredHost() == m.StoredHost() + input[pos..pos + (|m.host| - m.hostLen)]
  {
    var n := |m.host| - m.hostLen;
    HostRun(m, input, pos, n);
    StoredAfter(m.host, m.hostLen, input, pos, n);
    var m1 := m.(host := ReqParserFacts.PathWritten(m.host, m.hostLen, input, pos, n), hostLen := m.hostLen + n);
    RunStep(m1, input, pos + n);
  }

  /** A request parser.c accepts: no space in the URI, no CR in the rest of the request line or the host. */
  predicate WellFormed(uri: seq<byte>, rest: seq<byte>, host: seq<byte>)
  {
    && (forall i :: 0 <= i < |uri| ==> uri[i] != SP)
    && (forall i :: 0 <= i < |rest| ==> rest[i] != CR)
    && (forall i :: 0 <= i < |host| ==> host[i] != CR)
  }

  /** The request `"GET " uri SP rest CR LF "Host: " host CR`. */
  function GetRequest(uri: seq<byte>, rest: seq<byte>, host: seq<byte>): (r: seq<byte>)
    ensures |r| == |METHOD_STR| + |uri| + 1 + |rest| + 2 + |HOST_STR| + |host| + 1
  {
    ReqParserFacts.Request("GET", uri, rest, host)
  }

  /** Where each part of the request sits, by index. */
  lemma GetRequestAt(uri: seq<byte>, rest: seq<byte>, host: seq<byte>)
    ensures var input := GetRequest(uri, rest, host);
      var b := |METHOD_STR| + |uri|;
      var d := b + 1 + |rest| + 2;
      var e := d + |HOST_STR|;
      && (forall i :: 0 <= i < |METHOD_STR| ==> input[i] == METHOD_STR[i])
      && (forall i :: |METHOD_STR| <= i < b ==> input[i] == uri[i - |METHOD_STR|])
      && input[b] == SP
      && (forall i :: b + 1 <= i < b + 1 + |rest| ==> input[i] == rest[i - (b + 1)])
      && input[b + 1 + |rest|] == CR && input[b + 1 + |rest| + 1] == LF
      && (forall i :: d <= i < e ==> input[i] == HOST_STR[i - d])
      && (forall i :: e <= i < e + |host| ==> input[i] == host[i - e])
      && input[e + |host|] == CR && |input| == e + |host| + 1
  {
    var input := GetRequest(uri, rest, host);
    assert input == METHOD_STR + uri + [SP] + rest + [CR, LF] + HOST_STR + host + [CR];
  }

  /** The URI and its space: the URI is stored from index 0 of its buffer and the rest of the line is skipped. */
  lemma UriLine(mu: Machine, uri: seq<byte>, input: seq<byte>, p: nat)
    requires Ok(mu) && mu.state == PsUri && mu.uriLen == 0 && |uri| <= |mu.uri|
    requires forall i :: 0 <= i < |uri| ==> uri[i] != SP
    requires p + |uri| < |input| && input[p + |uri|] == SP
    requires forall i :: p <= i < p + |uri| ==> input[i] == uri[i - p]
    ensures var w := ReqParserFacts.PathWritten(mu.uri, 0, input, p, |uri|);
      w[..|uri|] == uri
      && Run(mu, input, p) == Run(mu.(state := PsIgnoreLine, uri := w, uriLen := |uri|), input, p + |uri| + 1)
  {
    assert forall i :: p <= i < p + |uri| ==> input[i] != SP;
    UriRun(mu, input, p, |uri|);
    StoredAfter(mu.uri, 0, input, p, |uri|);
    assert input[p..p + |uri|] == uri;
    var w := ReqParserFacts.PathWritten(mu.uri, 0, input, p, |uri|);
    UriSpace(mu.(uri := w, uriLen := |uri|), input, p + |uri|);
  }

  /** The rest of the request line, its CR and its LF lead to the header name. */
  lemma LineEnd(m: Machine, input: seq<byte>, p: nat, n: nat)
    requires Ok(m) && m.state == PsIgnoreLine && p + n + 1 < |input|
    requires forall i :: p <= i < p + n ==> input[i] != CR
    requires input[p + n] == CR && input[p + n + 1] == LF
    ensures Run(m, input, p) == Run(m.(state := PsHeaderName), input, p + n + 2)
  {
    SkipToCr(m, input, p, p + n);
    LfStep(m.(state := PsLf), input, p + n + 1);
  }

  /** The request line: the URI is stored and the parser is at the header name. */
  lemma RequestLine(m: Machine, uri: seq<byte>, rest: seq<byte>, host: seq<byte>)
    requires WellFormed(uri, rest, host) && |uri| <= |m.uri|
    ensures var input := GetRequest(uri, rest, host);
      var m0 := AfterReset(m);
      var m1 := m0.(state := PsHeaderName, uri := ReqParserFacts.PathWritten(m.uri, 0, input, |METHOD_STR|, |uri|), uriLen := |uri|);
      Ok(m1) && m1.StoredUri() == uri
      && Run(m0, input, 0) == Run(m1, input, |METHOD_STR| + |uri| + 1 + |rest| + 2)
  {
    var input := GetRequest(uri, rest, host);
    assert LineAt(input, uri, |rest|) by {
      GetRequestAt(uri, rest, host);
      var b := |METHOD_STR| + |uri|;
      assert forall i :: b + 1 <= i < b + 1 + |rest| ==> input[i] != CR;
    }
    RequestLineAt(m, uri, |rest|, input);
  }

  /**
   * `input` starts with the request line `"GET " uri SP`, `n` bytes other
   * than CR, CR LF.
   */
  predicate LineAt(input: seq<byte>, uri: seq<byte>, n: nat)
  {
    && |METHOD_STR| + |uri| + 1 + n + 1 < |input|
    && (forall i :: 0 <= i < |METHOD_STR| ==> input[i] == METHOD_STR[i])
    && (forall i :: |METHOD_STR| <= i < |METHOD_STR| + |uri| ==> input[i] == uri[i - |METHOD_STR|])
    && input[|METHOD_STR| + |uri|] == SP
    && (forall i :: |METHOD_STR| + |uri| + 1 <= i < |METHOD_STR| + |uri| + 1 + n ==> input[i] != CR)
    && input[|METHOD_STR| + |uri| + 1 + n] == CR && input[|METHOD_STR| + |uri| + 1 + n + 1] == LF
  }

  /** `RequestLine` over any input that holds the request line at its start. */
  lemma RequestLineAt(m: Machine, uri: seq<byte>, n: nat, input: seq<byte>)
    requires (forall i :: 0 <= i < |uri| ==> uri[i] != SP) && |uri| <= |m.uri|
    requires LineAt(input, uri, n)
    ensures var m0 := AfterReset(m);
      var m1 := m0.(state := PsHeaderName, uri := ReqParserFacts.PathWritten(m.uri, 0, input, |METHOD_STR|, |uri|), uriLen := |uri|);
      Ok(m1) && m1.StoredUri() == uri
      && Run(m0, input, 0) == Run(m1, input, |METHOD_STR| + |uri| + 1 + n + 2)
  {
    var m0 := AfterReset(m);
    var b := |METHOD_STR| + |uri|;
    MethodMatches(m0, input, 0);
    var mu := m0.(state := PsUri, tmp := 0);
    UriLine(mu, uri, input, |METHOD_STR|);
    var w := ReqParserFacts.PathWritten(m.uri, 0, input, |METHOD_STR|, |uri|);
    var mi := mu.(state := PsIgnoreLine, uri := w, uriLen := |uri|);
    LineEnd(mi, input, b + 1, n);
    assert mi.(state := PsHeaderName) == m0.(state := PsHeaderName, uri := w, uriLen := |uri|);
  }

  /** The Host line: the value is stored and the final CR finishes the request. */
  lemma HostLine(m1: Machine, uri: seq<byte>, rest: seq<byte>, host: seq<byte>)
    requires WellFormed(uri, rest, host) && Ok(m1) && m1.state == PsHeaderName && m1.tmp == 0
    requires m1.hostLen == 0 && |host| <= |m1.host|
    ensures var input := GetRequest(uri, rest, host);
      var o := Run(m1, input, |METHOD_STR| + |uri| + 1 + |rest| + 2);
      && o.result == PrFinished && o.cursor == |input|
      && o.machine.StoredUri() == m1.StoredUri() && o.machine.StoredHost() == host
  {
    var input := GetRequest(uri, rest, host);
    var d := |METHOD_STR| + |uri| + 1 + |rest| + 2;
    assert HostAt(input, d, host) by {
      GetRequestAt(uri, rest, host);
    }
    HostLineAt(m1, host, input, d);
  }

  /** `input` ends with the Host line `"Host: " host CR`, which starts at `d`. */
  predicate HostAt(input: seq<byte>, d: nat, host: seq<byte>)
  {
    && |input| == d + |HOST_STR| + |host| + 1
    && (forall i :: d <= i < d + |HOST_STR| ==> input[i] == HOST_STR[i - d])
    && (forall i :: d + |HOST_STR| <= i < d + |HOST_STR| + |host| ==> input[i] == host[i - (d + |HOST_STR|)])
    && input[d + |HOST_STR| + |host|] == CR
  }

  /** `HostLine` over any input that ends with the Host line. */
  lemma HostLineAt(m1: Machine, host: seq<byte>, input: seq<byte>, d: nat)
    requires Ok(m1) && m1.state == PsHeaderName && m1.tmp == 0
    requires m1.hostLen == 0 && |host| <= |m1.host|
    requires (forall i :: 0 <= i < |host| ==> host[i] != CR) && HostAt(input, d, host)
    ensures var o := Run(m1, input, d);
      && o.result == PrFinished && o.cursor == |input|
      && o.machine.StoredUri() == m1.StoredUri() && o.machine.StoredHost() == host
  {
    var e := d + |HOST_STR|;
    HeaderMatches(m1, input, d);
    var mh := m1.(state := PsHost, tmp := 0);
    assert forall i :: e <= i < e + |host| ==> input[i] != CR;
    HostRun(mh, input, e, |host|);
    StoredAfter(m1.host, 0, input, e, |host|);
    assert input[e..e + |host|] == host;
    HostCr(mh.(host := ReqParserFacts.PathWritten(m1.host, 0, input, e, |host|), hostLen := |host|), input, e + |host|);
  }

  /**
   * A whole request fed to a reset parser whose buffers can hold the URI
   * and the host finishes on the Host line's CR, having consumed the whole
   * input, with the URI and the host stored.
   */
  lemma WholeRequest(m: Machine, uri: seq<byte>, rest: seq<byte>, host: seq<byte>)
    requires WellFormed(uri, rest, host) && |uri| <= |m.uri| && |host| <= |m.host|
    ensures var input := GetRequest(uri, rest, host);
      var o := Run(AfterReset(m), input, 0);
      && o.result == PrFinished && o.cursor == |input|
      && o.machine.StoredUri() == uri && o.machine.StoredHost() == host
  {
    RequestLine(m, uri, rest, host);
    var input := GetRequest(uri, rest, host);
    var m1 := AfterReset(m).(state := PsHeaderName, uri := ReqParserFacts.PathWritten(m.uri, 0, input, |METHOD_STR|, |uri|), uriLen := |uri|);
    HostLine(m1, uri, rest, host);
  }

  /** The parser on a prefix of the input agrees with the parser on the whole input, up to the prefix's end. */
  lemma {:induction false} RunPrefix(m: Machine, input: seq<byte>, pos: nat, k: nat)
    requires Ok(m) && pos <= k <= |input|
    ensures var o := Run(m, input[..k], pos);
      Run(m, input, pos) == if o.result == PrContinue then Run(o.machine, input, k) else o
    decreases k - pos
  {
    if pos < k {
      RunStep(m, input, pos);
      RunStep(m, input[..k], pos);
      assert input[..k][pos] == input[pos];
      match Step(m, input[pos])
      case Stop(_, _) =>
      case Next(m') => RunPrefix(m', input, pos + 1, k);
    }
  }

  /** The parser does not depend on the bytes before its cursor. */
  lemma {:induction false} RunDrop(m: Machine, input: seq<byte>, j: nat, pos: nat)
    requires Ok(m) && j <= pos <= |input|
    ensures var o := Run(m, input, pos);
      Run(m, input[j..], pos - j) == o.(cursor := o.cursor - j)
    decreases |input| - pos
  {
    if pos < |input| {
      RunStep(m, input, pos);
      RunStep(m, input[j..], pos - j);
      assert input[j..][pos - j] == input[pos];
      match Step(m, input[pos])
      case Stop(_, _) =>
      case Next(m') => RunDrop(m', input, j, pos + 1);
    }
  }

  /**
   * Two calls of parser_feed on two chunks of one request, from any state
   * a parser can be fed in: the first call stops as the whole request
   * would, or it continues and the second call, from the `struct parser` it
   * leaves, ends as the whole request would, its cursor counted from the
   * second chunk. The parser keeps its whole state in the struct, so a
   * split anywhere resumes.
   */
  lemma FeedSplit(m: Machine, a: seq<byte>, b: seq<byte>)
    requires Ok(m)
    ensures var o1 := Run(m, a, 0);
      var o := Run(m, a + b, 0);
      && (o1.result != PrContinue ==> o == o1)
      && (o1.result == PrContinue ==>
            && Ok(o1.machine) && |a| <= o.cursor
            && Run(o1.machine, b, 0) == o.(cursor := o.cursor - |a|))
  {
    var input := a + b;
    assert input[..|a|] == a;
    RunPrefix(m, input, 0, |a|);
    var o1 := Run(m, a, 0);
    if o1.result == PrContinue {
      assert input[|a|..] == b;
      RunDrop(o1.machine, input, |a|, |a|);
    }
  }

  /**
   * parser_feed as written on "GET " from a reset parser: the input is
   * consumed with pr_continue and the loop, whose condition never changes,
   * calls parser_do_uri at data_end, which reads past the input. A witness
   * on one input of what FeedAsWritten's contract states for all of them.
   */
  lemma AsWrittenReadsPastEnd(m: Machine)
    ensures FeedAsWritten(AfterReset(m), METHOD_STR, 0) == ReadsPastEnd
  {
    CorrectedFeedContinues(m);
  }

  /**
   * As written, parser_feed on an empty input reads `*data` at data_end in
   * its first sub-function call: a second witness of FeedAsWritten's contract.
   */
  lemma AsWrittenEmpty(m: Machine)
    requires Ok(m)
    ensures FeedAsWritten(m, [], 0) == ReadsPastEnd
  {
  }

  /**
   * The feed loop that stops at data_end, on "GET " from a reset parser:
   * it returns pr_continue having consumed the four bytes, in ps_uri with
   * nothing stored. The witness, on the input of AsWrittenReadsPastEnd, of
   * the intended loop; FeedSplit and WholeRequest state it for all inputs.
   */
  lemma CorrectedFeedContinues(m: Machine)
    ensures Run(AfterReset(m), METHOD_STR, 0) == Outcome(PrContinue, AfterReset(m).(state := PsUri), |METHOD_STR|)
  {
    MethodMatches(AfterReset(m), METHOD_STR, 0);
  }
}
