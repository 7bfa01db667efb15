/**
 * parser.c: the simpler incremental request parser, which keeps the request
 * URI and the Host value in two separate bounded buffers of `struct parser`.
 *
 * The parser's state is `state`, the match index `tmp`, the two buffers and
 * their fill lengths. `Machine` is that state as a value and `Step` is one
 * consumed byte; `Run` consumes bytes until a sub-function returns something
 * other than pr_continue or the input is exhausted. The class `Parser` holds
 * the same fields and its methods are the `parser_do_*` sub-functions, each
 * proved to move the parser along `Run`.
 *
 * The definition of `struct parser` is not part of this model, so the
 * capacities `sizeof(p->uri)` and `sizeof(p->host)` are the lengths of the
 * two arrays, whatever they are.
 */
module SimpleParser {
  import opened Bytes

  /** The sub-states dispatched on by parser_feed. */
  datatype PState = PsMethod | PsUri | PsIgnoreLine | PsLf | PsHeaderName | PsHost

  /** enum parser_result. */
  datatype PResult = PrContinue | PrError | PrFinished

  const METHOD_STR: seq<byte> := "GET "
  const HOST_STR: seq<byte> := "Host: "

  /**
   * The fields of `struct parser`: the whole contents of the two buffers,
   * of which the first `uriLen` and `hostLen` bytes are the stored ones.
   */
  datatype Machine = Machine(state: PState, tmp: nat, uri: seq<byte>, uriLen: nat, host: seq<byte>, hostLen: nat)
  {
    /** The URI bytes stored so far. */
    function StoredUri(): seq<byte>
      requires uriLen <= |uri|
    {
      uri[..uriLen]
    }

    /** The Host value bytes stored so far. */
    function StoredHost(): seq<byte>
      requires hostLen <= |host|
    {
      host[..hostLen]
    }
  }

  /**
   * What every reachable parser satisfies: the fill lengths are within the
   * buffers, `tmp` is a valid index into the string being matched, and it
   * is 0 in every other state.
   */
  predicate Ok(m: Machine)
  {
    && Bounded(m)
    && (m.state == PsMethod ==> m.tmp < |METHOD_STR|)
    && (m.state == PsHeaderName ==> m.tmp < |HOST_STR|)
    && (m.state != PsMethod && m.state != PsHeaderName ==> m.tmp == 0)
  }

  /** The fill lengths are within the buffers. */
  predicate Bounded(m: Machine)
  {
    m.uriLen <= |m.uri| && m.hostLen <= |m.host|
  }

  /** parser_reset: back to the method state with nothing matched or stored; the buffers keep their bytes. */
  function AfterReset(m: Machine): (r: Machine)
    ensures Ok(r) && r.state == PsMethod && r.tmp == 0
    ensures r.StoredUri() == [] && r.StoredHost() == []
    ensures r.uri == m.uri && r.host == m.host
  {
    m.(state := PsMethod, tmp := 0, uriLen := 0, hostLen := 0)
  }

  /** One consumed byte: the parser goes on, or the sub-function returns `result`. */
  datatype StepResult = Next(m: Machine) | Stop(result: PResult, m: Machine)

  /**
   * The effect of the byte `ch` on the parser, as the sub-function for its
   * state handles it. The byte is consumed in every case. On pr_error in
   * the method state `tmp` has already moved past the mismatch.
   */
  function Step(m: Machine, ch: byte): (r: StepResult)
    requires Ok(m)
    ensures Bounded(r.m) && |r.m.uri| == |m.uri| && |r.m.host| == |m.host|
    ensures r.Next? ==> Ok(r.m)
    ensures r.Stop? ==> r.result != PrContinue
  {
    match m.state
    case PsMethod =>
      if ch != METHOD_STR[m.tmp] then Stop(PrError, m.(tmp := m.tmp + 1))
      else if m.tmp + 1 == |METHOD_STR| then Next(m.(state := PsUri, tmp := 0))
      else Next(m.(tmp := m.tmp + 1))
    case PsUri =>
      if ch == SP then Next(m.(state := PsIgnoreLine))
      else if m.uriLen >= |m.uri| then Stop(PrError, m)
      else Next(m.(uri := m.uri[m.uriLen := ch], uriLen := m.uriLen + 1))
    case PsIgnoreLine =>
      if ch == CR then Next(m.(state := PsLf)) else Next(m)
    case PsLf =>
      if ch != LF then Stop(PrError, m) else Next(m.(state := PsHeaderName))
    case PsHeaderName =>
      if ch != HOST_STR[m.tmp] then Next(m.(state := PsIgnoreLine, tmp := 0))
      else if m.tmp + 1 == |HOST_STR| then Next(m.(state := PsHost, tmp := 0))
      else Next(m.(tmp := m.tmp + 1))
    case PsHost =>
      if ch == CR then Stop(PrFinished, m)
      else if m.hostLen >= |m.host| then Stop(PrError, m)
      else Next(m.(host := m.host[m.hostLen := ch], hostLen := m.hostLen + 1))
  }

  /** Where a run ends: the result returned, the parser, and the cursor. */
  datatype Outcome = Outcome(result: PResult, machine: Machine, cursor: nat)

  /**
   * The parser on `input` from `pos`: bytes are consumed until a
   * sub-function returns pr_error or pr_finished, just past the byte that
   * decided it, or the input runs out with pr_continue. The buffers keep
   * their sizes and the fill lengths stay within them.
   */
  function Run(m: Machine, input: seq<byte>, pos: nat): (o: Outcome)
    requires Ok(m) && pos <= |input|
    ensures o.result == PrContinue ==> Ok(o.machine)
    ensures Bounded(o.machine) && |o.machine.uri| == |m.uri| && |o.machine.host| == |m.host|
    ensures pos <= o.cursor <= |input|
    ensures o.result == PrContinue ==> o.cursor == |input|
    ensures o.result != PrContinue ==> pos < o.cursor
    decreases |input| - pos, 1
  {
    if pos == |input| then Outcome(PrContinue, m, pos) else RunFrom(m, input, pos)
  }

  function RunFrom(m: Machine, input: seq<byte>, pos: nat): (o: Outcome)
    requires Ok(m) && pos < |input|
    ensures o.result == PrContinue ==> Ok(o.machine)
    ensures Bounded(o.machine) && |o.machine.uri| == |m.uri| && |o.machine.host| == |m.host|
    ensures pos < o.cursor <= |input|
    ensures o.result == PrContinue ==> o.cursor == |input|
    decreases |input| - pos, 0
  {
    match Step(m, input[pos])
    case Next(m') => Run(m', input, pos + 1)
    case Stop(r, m') => Outcome(r, m', pos + 1)
  }

  /** `Run` unfolded by one byte. */
  lemma RunStep(m: Machine, input: seq<byte>, pos: nat)
    requires Ok(m) && pos < |input|
    ensures Run(m, input, pos) == match Step(m, input[pos])
      case Next(m') => Run(m', input, pos + 1)
      case Stop(r, m') => Outcome(r, m', pos + 1)
  {
  }

  /**
   * A sub-function that returned `r` with the parser at `m` and the cursor
   * at `cursor` is on the way to `target`: on pr_continue the rest of the
   * run continues from there, otherwise the run ends there.
   */
  ghost predicate Resumes(r: PResult, target: Outcome, m: Machine, input: seq<byte>, cursor: nat)
  {
    && Bounded(m) && cursor <= |input|
    && (r == PrContinue ==> Ok(m) && target == Run(m, input, cursor))
    && (r != PrContinue ==> target == Outcome(r, m, cursor))
  }

  /** What parser_feed as written computes: a result, or a read at data_end. */
  datatype Verdict = Returns(result: PResult) | ReadsPastEnd

  /**
   * parser_feed as written: its loop condition `read_index < len` never
   * changes, so after the input is consumed with pr_continue the loop
   * calls a sub-function again (or, when `len` is 0, calls it the first
   * time), and that sub-function reads `*data` at data_end. The as-written
   * driver therefore returns only what a sub-function stops with.
   */
  function FeedAsWritten(m: Machine, input: seq<byte>, pos: nat): (v: Verdict)
    requires Ok(m) && pos <= |input|
    ensures v == ReadsPastEnd <==> Run(m, input, pos).result == PrContinue
    ensures v.Returns? ==> v.result == Run(m, input, pos).result && v.result != PrContinue
    decreases |input| - pos
  {
    if pos == |input| then ReadsPastEnd
    else match Step(m, input[pos])
      case Next(m') => FeedAsWritten(m', input, pos + 1)
      case Stop(r, _) => Returns(r)
  }

  /** `struct parser`, with the URI and Host buffers as two distinct arrays. */
  class Parser {
    var state: PState
    var tmp: nat
    var uriLen: nat
    var hostLen: nat
    const uri: array<byte>
    const host: array<byte>

    /** The parser's fields as a value. */
    function Snapshot(): Machine
      reads this, uri, host
    {
      Machine(state, tmp, uri[..], uriLen, host[..], hostLen)
    }

    /** The buffers are distinct and the fill lengths within them, whatever the last result. */
    ghost predicate Sound()
      reads this, uri, host
    {
      uri != host && Bounded(Snapshot())
    }

    /** A parser that may be fed: sound, and in a state a run can pause in. */
    ghost predicate Valid()
      reads this, uri, host
    {
      Sound() && Ok(Snapshot())
    }

    /** A parser over the two buffers, in the state parser_reset leaves. */
    constructor (uri: array<byte>, host: array<byte>)
      requires uri != host
      ensures Valid() && this.uri == uri && this.host == host
      ensures Snapshot() == AfterReset(Machine(PsMethod, 0, uri[..], 0, host[..], 0))
    {
      this.uri := uri;
      this.host := host;
      state := PsMethod;
      tmp := 0;
      uriLen := 0;
      hostLen := 0;
    }

    /** parser_reset. */
    method Reset()
      modifies this
      ensures Snapshot() == AfterReset(old(Snapshot()))
      ensures uri != host ==> Valid()
    {
      state := PsMethod;
      tmp := 0;
      uriLen := 0;
      hostLen := 0;
    }

    /**
     * parser_feed with its loop ending once the input is consumed, so that
     * no sub-function is called at data_end: the result and the parser
     * after it are those of `Run` on the whole input.
     */
    method Feed(input: seq<byte>) returns (r: PResult)
      requires Valid()
      modifies this, uri, host
      ensures Sound() && (r == PrContinue ==> Valid())
      ensures r == Run(old(Snapshot()), input, 0).result
      ensures Snapshot() == Run(old(Snapshot()), input, 0).machine
    {
      ghost var target := Run(Snapshot(), input, 0);
      var cursor := 0;
      while cursor < |input|
        invariant Valid() && cursor <= |input|
        invariant target == Run(Snapshot(), input, cursor)
        decreases |input| - cursor
      {
        var next: nat;
        match state {
          case PsMethod => r, next := DoMethod(input, cursor);
          case PsUri => r, next := DoUri(input, cursor);
          case PsIgnoreLine => r, next := DoIgnoreLine(input, cursor);
          case PsLf => r, next := DoLf(input, cursor);
          case PsHeaderName => r, next := DoHeaderName(input, cursor);
          case PsHost => r, next := DoHost(input, cursor);
        }
        if r != PrContinue {
          return;
        }
        cursor := next;
      }
      r := PrContinue;
    }

    /** parser_do_method: matches "GET " from index `tmp`; the full match enters ps_uri with `tmp` 0. */
    method DoMethod(input: seq<byte>, pos: nat) returns (r: PResult, next: nat)
      requires Valid() && state == PsMethod && pos < |input|
      modifies this
      ensures Sound() && pos < next <= |input|
      ensures Resumes(r, Run(old(Snapshot()), input, pos), Snapshot(), input, next)
    {
      ghost var target := Run(Snapshot(), input, pos);
      next := pos;
      while true
        invariant Valid() && state == PsMethod && pos <= next < |input|
        invariant target == Run(Snapshot(), input, next)
        decreases |input| - next
      {
        RunStep(Snapshot(), input, next);
        var ch := input[next];
        next := next + 1;
        var expected := METHOD_STR[tmp];
        tmp := tmp + 1;
        if ch != expected {
          return PrError, next;
        }
        if tmp == |METHOD_STR| {
          state := PsUri;
          tmp := 0;
          break;
        }
        if next == |input| {
          break;
        }
      }
      r := PrContinue;
    }

    /** parser_do_uri: stores URI bytes up to the space, which is not stored. */
    method DoUri(input: seq<byte>, pos: nat) returns (r: PResult, next: nat)
      requires Valid() && state == PsUri && pos < |input|
      modifies this, uri
      ensures Sound() && pos < next <= |input|
      ensures Resumes(r, Run(old(Snapshot()), input, pos), Snapshot(), input, next)
    {
      ghost var target := Run(Snapshot(), input, pos);
      next := pos;
      while true
        invariant Valid() && state == PsUri && pos <= next < |input|
        invariant target == Run(Snapshot(), input, next)
        decreases |input| - next
      {
        RunStep(Snapshot(), input, next);
        var ch := input[next];
        next := next + 1;
        if ch == SP {
          state := PsIgnoreLine;
          break;
        }
        if uriLen >= uri.Length {
          return PrError, next;
        }
        uri[uriLen] := ch;
        uriLen := uriLen + 1;
        if next == |input| {
          break;
        }
      }
      r := PrContinue;
    }

    /** parser_do_ignore_line: skips bytes up to and including a CR, then expects the LF. */
    method DoIgnoreLine(input: seq<byte>, pos: nat) returns (r: PResult, next: nat)
      requires Valid() && state == PsIgnoreLine && pos < |input|
      modifies this
      ensures Valid() && pos < next <= |input|
      ensures Resumes(r, Run(old(Snapshot()), input, pos), Snapshot(), input, next)
    {
      ghost var target := Run(Snapshot(), input, pos);
      next := pos;
      while true
        invariant Valid() && state == PsIgnoreLine && pos <= next < |input|
        invariant target == Run(Snapshot(), input, next)
        decreases |input| - next
      {
        RunStep(Snapshot(), input, next);
        var ch := input[next];
        next := next + 1;
        if ch == CR {
          state := PsLf;
          break;
        }
        if next == |input| {
          break;
        }
      }
      r := PrContinue;
    }

    /** parser_do_lf: one byte, which must be LF. */
    method DoLf(input: seq<byte>, pos: nat) returns (r: PResult, next: nat)
      requires Valid() && state == PsLf && pos < |input|
      modifies this
      ensures Sound() && next == pos + 1
      ensures Resumes(r, Run(old(Snapshot()), input, pos), Snapshot(), input, next)
    {
      RunStep(Snapshot(), input, pos);
      var ch := input[pos];
      next := pos + 1;
      if ch != LF {
        return PrError, next;
      }
      state := PsHeaderName;
      r := PrContinue;
    }

    /** parser_do_header_name: matches "Host: " from index `tmp`; a mismatch skips the line. */
    method DoHeaderName(input: seq<byte>, pos: nat) returns (r: PResult, next: nat)
      requires Valid() && state == PsHeaderName && pos < |input|
      modifies this
      ensures Valid() && pos < next <= |input| && r == PrContinue
      ensures Resumes(r, Run(old(Snapshot()), input, pos), Snapshot(), input, next)
    {
      ghost var target := Run(Snapshot(), input, pos);
      next := pos;
      while true
        invariant Valid() && state == PsHeaderName && pos <= next < |input|
        invariant target == Run(Snapshot(), input, next)
        decreases |input| - next
      {
        RunStep(Snapshot(), input, next);
        var ch := input[next];
        next := next + 1;
        var expected := HOST_STR[tmp];
        tmp := tmp + 1;
        if ch != expected {
          state := PsIgnoreLine;
          tmp := 0;
          break;
        }
        if tmp == |HOST_STR| {
          state := PsHost;
          tmp := 0;
          break;
        }
        if next == |input| {
          break;
        }
      }
      r := PrContinue;
    }

    /** parser_do_host: stores Host value bytes; the CR finishes the request. */
    method DoHost(input: seq<byte>, pos: nat) returns (r: PResult, next: nat)
      requires Valid() && state == PsHost && pos < |input|
      modifies this, host
      ensures Sound() && pos < next <= |input|
      ensures Resumes(r, Run(old(Snapshot()), input, pos), Snapshot(), input, next)
    {
      ghost var target := Run(Snapshot(), input, pos);
      next := pos;
      while true
        invariant Valid() && state == PsHost && pos <= next < |input|
        invariant target == Run(Snapshot(), input, next)
        decreases |input| - next
      {
        RunStep(Snapshot(), input, next);
        var ch := input[next];
        next := next + 1;
        if ch == CR {
          return PrFinished, next;
        }
        if hostLen >= host.Length {
          return PrError, next;
        }
        host[hostLen] := ch;
        hostLen := hostLen + 1;
        if next == |input| {
          break;
        }
      }
      r := PrContinue;
    }
  }
}
