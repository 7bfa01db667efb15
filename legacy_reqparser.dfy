/**
 * The older incremental request parser of reqparser.c. It packs path and
 * host into `req_fields` exactly like src/reqparser.c, but it matches the
 * method literally against "GET /" (so the stored path has no leading
 * slash), it has no F_ASSERTs, and its scans of `req_fields` and its
 * dispatch on the state are unchecked: running off the buffer, writing
 * past it, or a state no `case` covers is undefined behaviour, modelled as
 * the completion Undefined.
 */
module LegacyReqParser {
  import opened Bytes
  import Util
  import opened ReqFields
  import ReqParser

  type Completion = ReqParser.Completion
  type Sub = ReqParser.Sub
  type Result = ReqParser.Result

  /** enum reqparser_type of reqparser.c. */
  const RT_METHOD_0: int := 0
  const RT_URI: int := 5
  const RT_SKIP_LINE: int := 6
  const RT_LF: int := 7
  const RT_HEADER_NAME_0: int := 8
  const RT_HOST: int := 14

  /** The request-line prefix `reqparser_method` matches, one byte per state. */
  const METHOD_STR: seq<byte> := "GET /"

  /** The header name `reqparser_header_name` matches, one byte per state. */
  const HOST_STR: seq<byte> := "Host: "

  /**
   * Where the parser is. `matched` counts the bytes of "GET /" or "Host: "
   * matched so far; the fill indices are the local `fill_index` of
   * `reqparser_path` and `reqparser_host`, None until the sub-function has
   * scanned `req_fields` for it; `written` counts the host bytes stored.
   */
  datatype Phase =
    | Method(matched: nat)
    | Path(pathFill: Option<nat>)
    | SkipLine
    | Lf
    | HeaderName(matched: nat)
    | Host(hostFill: Option<nat>, written: nat)

  /** The `uint8_t state` the struct holds in each phase. */
  function StateOf(ph: Phase): (s: int)
    ensures 0 <= s < 256
  {
    match ph
    case Method(m) => (RT_METHOD_0 + m) % 256
    case Path(_) => RT_URI
    case SkipLine => RT_SKIP_LINE
    case Lf => RT_LF
    case HeaderName(m) => (RT_HEADER_NAME_0 + m) % 256
    case Host(_, w) => (RT_HOST + w) % 256
  }

  /** The phase the `switch` of `reqparser_feed` dispatches to; None for a state no `case` covers. */
  function Entry(state: int): (r: Option<Phase>)
    ensures r.Some? ==> StateOf(r.value) == state
    ensures r.Some? <==> 0 <= state <= RT_HOST
  {
    if RT_METHOD_0 <= state < RT_METHOD_0 + |METHOD_STR| then Some(Method(state - RT_METHOD_0))
    else if state == RT_URI then Some(Path(None))
    else if state == RT_SKIP_LINE then Some(SkipLine)
    else if state == RT_LF then Some(Lf)
    else if RT_HEADER_NAME_0 <= state < RT_HEADER_NAME_0 + |HOST_STR| then Some(HeaderName(state - RT_HEADER_NAME_0))
    else if state == RT_HOST then Some(Host(None, 0))
    else None
  }

  /** What a phase needs of the buffer for its next byte to be defined. */
  predicate PhaseOk(ph: Phase, buf: seq<byte>)
  {
    match ph
    case Method(m) => m < |METHOD_STR|
    case Path(Some(f)) => f <= |buf|
    case HeaderName(m) => m < |HOST_STR|
    case Host(Some(f), _) => f < |buf| && buf[f] == NUL
    case _ => true
  }

  /** The effect of one input byte: consumed and on to the next phase, or a stop in front of it. */
  datatype StepResult =
    | Next(phase: Phase, fields: seq<byte>)
    | Stop(completion: Completion, phase: Phase, fields: seq<byte>)

  /** One byte of `reqparser_path`, with `fill_index` known. */
  function PathByte(f: nat, buf: seq<byte>, ch: byte): (r: StepResult)
    requires f <= |buf|
    ensures r.Next? ==> PhaseOk(r.phase, r.fields) && |r.fields| == |buf|
  {
    if ch == NUL then Stop(ReqParser.BadData, Path(Some(f)), buf)
    else if ch == SP then
      // the NUL is written at fill_index, which may be one past the buffer
      if f >= |buf| then Stop(ReqParser.Undefined, Path(Some(f)), buf)
      else Next(SkipLine, buf[f := NUL])
    // fill_index == req_fields_len - 2 in size_t arithmetic: false when req_fields_len < 2
    else if f + 2 == |buf| then Stop(ReqParser.BufferTooSmall, Path(Some(f)), buf)
    else if f >= |buf| then Stop(ReqParser.Undefined, Path(Some(f)), buf)
    else Next(Path(Some(f + 1)), buf[f := ch])
  }

  /** One byte of `reqparser_host`, with `fill_index` known. */
  function HostByte(f: nat, w: nat, buf: seq<byte>, ch: byte): (r: StepResult)
    requires f < |buf| && buf[f] == NUL
    ensures r.Next? ==> PhaseOk(r.phase, r.fields) && |r.fields| == |buf|
  {
    // reqparser_fix_req_fields(args, f + 1) runs on the way out: see Observe
    if ch == CR then Stop(ReqParser.Complete, Host(Some(f), w), buf)
    else if f == 0 || buf[f - 1] != NUL then Stop(ReqParser.BufferTooSmall, Host(Some(f), w), buf)
    else Next(Host(Some(f - 1), w + 1), buf[f := ch])
  }

  function Step(ph: Phase, buf: seq<byte>, ch: byte): (r: StepResult)
    requires PhaseOk(ph, buf)
    ensures r.Next? ==> PhaseOk(r.phase, r.fields) && |r.fields| == |buf|
  {
    match ph
    case Method(m) =>
      if ch != METHOD_STR[m] then Stop(ReqParser.BadData, ph, buf)
      else if m + 1 == |METHOD_STR| then Next(Path(None), buf)
      else Next(Method(m + 1), buf)
    case Path(None) =>
      // the unbounded scan for the first NUL
      var f := Strlen(buf);
      if f == |buf| then Stop(ReqParser.Undefined, ph, buf) else PathByte(f, buf, ch)
    case Path(Some(f)) => PathByte(f, buf, ch)
    case SkipLine =>
      if ch == CR then Next(Lf, buf) else Next(SkipLine, buf)
    case Lf =>
      if ch != LF then Stop(ReqParser.BadData, ph, buf) else Next(HeaderName(0), buf)
    case HeaderName(m) =>
      if ch != HOST_STR[m] then Next(SkipLine, buf)
      else if m + 1 == |HOST_STR| then Next(Host(None, 0), buf)
      else Next(HeaderName(m + 1), buf)
    case Host(None, w) =>
      // fill_index starts at req_fields_len - 1 and the scan down is unbounded
      if |buf| == 0 then Stop(ReqParser.Undefined, ph, buf)
      else (match LastNul(buf)
        case None => Stop(ReqParser.Undefined, ph, buf)
        case Some(f) => HostByte(f, w, buf, ch))
    case Host(Some(f), w) => HostByte(f, w, buf, ch)
  }

  /** Where the machine ends: how, in which phase, with which buffer, and at which input index. */
  datatype Outcome = Outcome(completion: Completion, phase: Phase, fields: seq<byte>, cursor: nat)

  /** The machine from input index `pos` on, until it stops or the input runs out. */
  function Run(ph: Phase, buf: seq<byte>, input: seq<byte>, pos: nat): (o: Outcome)
    requires PhaseOk(ph, buf) && pos <= |input|
    ensures pos <= o.cursor <= |input|
    ensures o.completion == ReqParser.NeedsMoreData <==> o.cursor == |input|
    ensures o.completion == ReqParser.NeedsMoreData ==> PhaseOk(o.phase, o.fields)
    decreases |input| - pos, 1
  {
    if pos == |input| then Outcome(ReqParser.NeedsMoreData, ph, buf, pos) else RunFrom(ph, buf, input, pos)
  }

  /** The machine on the byte at `pos`, and on from there. */
  function RunFrom(ph: Phase, buf: seq<byte>, input: seq<byte>, pos: nat): (o: Outcome)
    requires PhaseOk(ph, buf) && pos < |input|
    ensures pos <= o.cursor <= |input|
    ensures o.completion == ReqParser.NeedsMoreData <==> o.cursor == |input|
    ensures o.completion == ReqParser.NeedsMoreData ==> PhaseOk(o.phase, o.fields)
    decreases |input| - pos, 0
  {
    match Step(ph, buf, input[pos])
    case Stop(c, ph', buf') => Outcome(c, ph', buf', pos)
    case Next(ph', buf') => Run(ph', buf', input, pos + 1)
  }

  /** Run, one byte further. */
  lemma RunStep(ph: Phase, buf: seq<byte>, input: seq<byte>, pos: nat)
    requires PhaseOk(ph, buf) && pos < |input|
    ensures var st := Step(ph, buf, input[pos]);
      Run(ph, buf, input, pos) ==
        if st.Stop? then Outcome(st.completion, st.phase, st.fields, pos)
        else Run(st.phase, st.fields, input, pos + 1)
  {
  }

  /** Where the machine goes on after the header-name phase: the phase it hands over to and the input index. */
  datatype Handover = Handover(phase: Phase, cursor: nat)

  /**
   * The header-name phase in the shape of `reqparser_header_name`'s loop:
   * it gives up on the line at the first mismatch, enters the host state
   * after the last byte of "Host: ", or runs out of input.
   */
  function HeaderLeaves(m: nat, input: seq<byte>, pos: nat): (h: Handover)
    requires m < |HOST_STR| && pos < |input|
    decreases |input| - pos
  {
    if input[pos] != HOST_STR[m] then Handover(SkipLine, pos + 1)
    else if m + 1 == |HOST_STR| then Handover(Host(None, 0), pos + 1)
    else if pos + 1 == |input| then Handover(HeaderName(m + 1), pos + 1)
    else HeaderLeaves(m + 1, input, pos + 1)
  }

  /** The machine goes on from the handover exactly as from the header-name phase. */
  lemma {:induction false} HeaderLeavesRun(m: nat, buf: seq<byte>, input: seq<byte>, pos: nat)
    requires m < |HOST_STR| && pos < |input|
    ensures var h := HeaderLeaves(m, input, pos);
      && pos < h.cursor <= |input|
      && Entry(StateOf(h.phase)) == Some(h.phase)
      && Run(HeaderName(m), buf, input, pos) == Run(h.phase, buf, input, h.cursor)
    decreases |input| - pos
  {
    RunStep(HeaderName(m), buf, input, pos);
    if input[pos] == HOST_STR[m] && m + 1 < |HOST_STR| && pos + 1 < |input| {
      HeaderLeavesRun(m + 1, buf, input, pos + 1);
    }
  }

  /**
   * The machine from a host phase whose fill index is known, in the shape of
   * `reqparser_host`'s loop: complete in front of CR, stop when no zeroed
   * slot is left below the fill index, otherwise store the byte and move down.
   */
  function HostTail(f: nat, w: nat, buf: seq<byte>, input: seq<byte>, pos: nat): (o: Outcome)
    requires f < |buf| && buf[f] == NUL && pos <= |input|
    decreases |input| - pos
  {
    if pos == |input| then Outcome(ReqParser.NeedsMoreData, Host(Some(f), w), buf, pos)
    else if input[pos] == CR then Outcome(ReqParser.Complete, Host(Some(f), w), buf, pos)
    else if f == 0 || buf[f - 1] != NUL then Outcome(ReqParser.BufferTooSmall, Host(Some(f), w), buf, pos)
    else HostTail(f - 1, w + 1, buf[f := input[pos]], input, pos + 1)
  }

  /** `HostTail` is the machine itself, started in that host phase. */
  lemma {:induction false} HostTailRuns(f: nat, w: nat, buf: seq<byte>, input: seq<byte>, pos: nat)
    requires f < |buf| && buf[f] == NUL && pos <= |input|
    ensures HostTail(f, w, buf, input, pos) == Run(Host(Some(f), w), buf, input, pos)
    decreases |input| - pos
  {
    if pos < |input| {
      RunStep(Host(Some(f), w), buf, input, pos);
      if input[pos] != CR && f != 0 && buf[f - 1] == NUL {
        HostTailRuns(f - 1, w + 1, buf[f := input[pos]], input, pos + 1);
      }
    }
  }

  /**
   * Entering the host state: the scan down runs off the buffer when it is
   * empty or holds no NUL, and otherwise the host loop runs from the highest NUL.
   */
  lemma HostEntry(buf: seq<byte>, input: seq<byte>, pos: nat)
    requires pos < |input|
    ensures Run(Host(None, 0), buf, input, pos) ==
      if |buf| == 0 || LastNul(buf).None? then Outcome(ReqParser.Undefined, Host(None, 0), buf, pos)
      else HostTail(LastNul(buf).value, 0, buf, input, pos)
  {
    RunStep(Host(None, 0), buf, input, pos);
    if |buf| != 0 && LastNul(buf).Some? {
      HostTailRuns(LastNul(buf).value, 0, buf, input, pos);
    }
  }

  /** The machine stops with Complete in a host phase: the fill index holds the NUL below the host. */
  predicate Packable(ph: Phase, buf: seq<byte>)
  {
    ph.Host? && ph.hostFill.Some? && ph.hostFill.value < |buf| && buf[ph.hostFill.value] == NUL
  }

  /** The result and the struct after the machine stops; on Complete the fields are packed. */
  function Observe(o: Outcome): Result
  {
    var fields := if o.completion == ReqParser.Complete && Packable(o.phase, o.fields)
      then FixedFields(o.fields, o.phase.hostFill.value + 1)
      else o.fields;
    ReqParser.Result(o.completion, StateOf(o.phase), fields, o.cursor)
  }

  /**
   * reqparser_feed on input[cursor..]. With the cursor already at the end
   * the first sub-function reads past the input.
   */
  function FeedResult(state: int, buf: seq<byte>, input: seq<byte>, cursor: nat): (r: Result)
    requires cursor <= |input|
    ensures cursor <= r.cursor <= |input|
  {
    if cursor == |input| then ReqParser.Result(ReqParser.Undefined, state, buf, cursor)
    else match Entry(state)
      case None => ReqParser.Result(ReqParser.Undefined, state, buf, cursor)
      case Some(ph) => Observe(Run(ph, buf, input, cursor))
  }

  /**
   * A sub-function's result agrees with the machine: on RsContinue the
   * machine resumed from the new state ends exactly where it would have, and
   * otherwise the machine stops with that completion, state, buffer and cursor.
   */
  ghost predicate Resumes(r: Sub, target: Outcome, state: int, fields: seq<byte>, input: seq<byte>, cursor: nat)
  {
    match r
    case RsContinue =>
      && cursor < |input|
      && Entry(state).Some?
      && PhaseOk(Entry(state).value, fields)
      && target == Run(Entry(state).value, fields, input, cursor)
    case RsStop(c) =>
      && target.completion == c
      && StateOf(target.phase) == state
      && target.fields == fields
      && target.cursor == cursor
  }

  /** RS_EOF when the handover is at the end of the input, RS_CONTINUE otherwise. */
  function HandedOver(h: Handover, input: seq<byte>): Sub
  {
    if h.cursor == |input| then ReqParser.RsStop(ReqParser.NeedsMoreData) else ReqParser.RsContinue
  }

  /**
   * What `reqparser_header_name` returns at the handover: RS_EOF when the
   * input ran out there and RS_CONTINUE otherwise, which agrees with the machine.
   */
  lemma HeaderResumes(m: nat, buf: seq<byte>, input: seq<byte>, pos: nat)
    requires m < |HOST_STR| && pos < |input|
    ensures var h := HeaderLeaves(m, input, pos);
      Resumes(HandedOver(h, input), Run(HeaderName(m), buf, input, pos), StateOf(h.phase), buf, input, h.cursor)
  {
    HeaderLeavesRun(m, buf, input, pos);
  }

  /** The machine completes, and the buffer holds its fields packed. */
  ghost predicate Completes(target: Outcome, state: int, fields: seq<byte>, cursor: nat)
  {
    && target.completion == ReqParser.Complete
    && StateOf(target.phase) == state
    && target.cursor == cursor
    && Packable(target.phase, target.fields)
    && fields == FixedFields(target.fields, target.phase.hostFill.value + 1)
  }

  /** struct reqparser_args: the state, the input cursor over data..data_end, and req_fields. */
  class Args {
    var state: int
    var data: nat
    const input: seq<byte>
    const reqFields: array<byte>

    ghost predicate Valid()
      reads this
    {
      0 <= state < 256 && data <= |input|
    }

    constructor (state: int, input: seq<byte>, data: nat, reqFields: array<byte>)
      requires 0 <= state < 256 && data <= |input|
      ensures Valid()
      ensures this.state == state && this.input == input && this.data == data
      ensures this.reqFields == reqFields
    {
      this.state := state;
      this.input := input;
      this.data := data;
      this.reqFields := reqFields;
    }
  }

  /** reqparser_feed: runs the sub-functions until one of them does not ask to continue. */
  method Feed(args: Args) returns (c: Completion)
    requires args.Valid()
    modifies args, args.reqFields
    ensures args.Valid()
    ensures ReqParser.Result(c, args.state, args.reqFields[..], args.data)
      == FeedResult(old(args.state), old(args.reqFields[..]), args.input, old(args.data))
  {
    ghost var target := FeedResult(args.state, args.reqFields[..], args.input, args.data);
    while true
      invariant args.Valid()
      invariant target == FeedResult(args.state, args.reqFields[..], args.input, args.data)
      decreases |args.input| - args.data
    {
      if args.data >= |args.input| {
        // the sub-function would read *data at data_end
        return ReqParser.Undefined;
      }
      var r: Sub;
      if RT_METHOD_0 <= args.state < RT_METHOD_0 + |METHOD_STR| {
        r := ParseMethod(args);
      } else if args.state == RT_URI {
        r := ParsePath(args);
      } else if args.state == RT_SKIP_LINE {
        r := ParseSkipLine(args);
      } else if args.state == RT_LF {
        r := ParseLf(args);
      } else if RT_HEADER_NAME_0 <= args.state < RT_HEADER_NAME_0 + |HOST_STR| {
        ghost var m := args.state - RT_HEADER_NAME_0;
        ghost var pos := args.data;
        r := ParseHeaderName(args);
        HeaderResumes(m, args.reqFields[..], args.input, pos);
      } else if args.state == RT_HOST {
        r := ParseHost(args);
      } else {
        // no case matches and `r` is read uninitialised
        return ReqParser.Undefined;
      }
      match r
      case RsContinue =>
      case RsStop(completion) =>
        return completion;
    }
  }

  /** reqparser_method: matches "GET /" one byte per state; the state becomes RT_URI. */
  method ParseMethod(args: Args) returns (r: Sub)
    requires args.Valid() && args.data < |args.input|
    requires RT_METHOD_0 <= args.state < RT_METHOD_0 + |METHOD_STR|
    modifies args
    ensures r == ReqParser.RsContinue ==> args.data > old(args.data)
    ensures args.Valid()
    ensures r != ReqParser.RsStop(ReqParser.Complete)
    ensures Resumes(r, Run(Method(old(args.state) - RT_METHOD_0), args.reqFields[..], args.input, old(args.data)),
                    args.state, args.reqFields[..], args.input, args.data)
  {
    ghost var target := Run(Method(args.state - RT_METHOD_0), args.reqFields[..], args.input, args.data);
    ghost var start := args.data;
    while true
      invariant args.Valid() && start <= args.data < |args.input|
      invariant RT_METHOD_0 <= args.state < RT_METHOD_0 + |METHOD_STR|
      invariant target == Run(Method(args.state - RT_METHOD_0), args.reqFields[..], args.input, args.data)
      decreases |args.input| - args.data
    {
      RunStep(Method(args.state - RT_METHOD_0), args.reqFields[..], args.input, args.data);
      if args.input[args.data] != METHOD_STR[args.state - RT_METHOD_0] {
        return ReqParser.RsStop(ReqParser.BadData);
      }
      args.data := args.data + 1;
      args.state := args.state + 1;
      if args.data == |args.input| {
        return ReqParser.RsStop(ReqParser.NeedsMoreData);
      }
      if args.state == RT_URI {
        return ReqParser.RsContinue;
      }
    }
  }

  /** reqparser_path: appends the path to req_fields up to the space that ends it. */
  method ParsePath(args: Args) returns (r: Sub)
    requires args.Valid() && args.state == RT_URI && args.data < |args.input|
    modifies args, args.reqFields
    ensures r == ReqParser.RsContinue ==> args.data > old(args.data)
    ensures args.Valid()
    ensures r != ReqParser.RsStop(ReqParser.Complete)
    ensures Resumes(r, Run(Path(None), old(args.reqFields[..]), args.input, old(args.data)),
                    args.state, args.reqFields[..], args.input, args.data)
  {
    ghost var target := Run(Path(None), args.reqFields[..], args.input, args.data);
    var fill := 0;
    while fill < args.reqFields.Length && args.reqFields[fill] != NUL
      invariant 0 <= fill <= args.reqFields.Length
      invariant forall i :: 0 <= i < fill ==> args.reqFields[i] != NUL
    {
      fill := fill + 1;
    }
    StrlenIs(args.reqFields[..], fill);
    if fill == args.reqFields.Length {
      // the scan runs off the end of req_fields
      return ReqParser.RsStop(ReqParser.Undefined);
    }
    RunStep(Path(None), args.reqFields[..], args.input, args.data);
    RunStep(Path(Some(fill)), args.reqFields[..], args.input, args.data);
    assert target == Run(Path(Some(fill)), args.reqFields[..], args.input, args.data);
    r := PathBytes(args, fill);
  }

  /** The loop of reqparser_path from a known fill index. */
  method PathBytes(args: Args, fill0: nat) returns (r: Sub)
    requires args.Valid() && args.state == RT_URI && args.data < |args.input|
    requires fill0 <= args.reqFields.Length
    modifies args, args.reqFields
    ensures r == ReqParser.RsContinue ==> args.data > old(args.data)
    ensures args.Valid()
    ensures r != ReqParser.RsStop(ReqParser.Complete)
    ensures Resumes(r, Run(Path(Some(fill0)), old(args.reqFields[..]), args.input, old(args.data)),
                    args.state, args.reqFields[..], args.input, args.data)
  {
    ghost var target := Run(Path(Some(fill0)), args.reqFields[..], args.input, args.data);
    ghost var start := args.data;
    var fill: nat := fill0;
    while true
      invariant args.Valid() && args.state == RT_URI && start <= args.data < |args.input|
      invariant fill <= args.reqFields.Length
      invariant target == Run(Path(Some(fill)), args.reqFields[..], args.input, args.data)
      decreases |args.input| - args.data
    {
      var ch := args.input[args.data];
      ghost var buf := args.reqFields[..];
      RunStep(Path(Some(fill)), buf, args.input, args.data);
      if ch == NUL {
        return ReqParser.RsStop(ReqParser.BadData);
      } else if ch == SP {
        if fill >= args.reqFields.Length {
          // req_fields[fill_index] is one past the buffer
          return ReqParser.RsStop(ReqParser.Undefined);
        }
        args.reqFields[fill] := NUL;
        assert args.reqFields[..] == buf[fill := NUL];
        args.state := RT_SKIP_LINE;
        args.data := args.data + 1;
        if args.data == |args.input| {
          return ReqParser.RsStop(ReqParser.NeedsMoreData);
        }
        return ReqParser.RsContinue;
      } else {
        if fill + 2 == args.reqFields.Length {
          return ReqParser.RsStop(ReqParser.BufferTooSmall);
        }
        if fill >= args.reqFields.Length {
          return ReqParser.RsStop(ReqParser.Undefined);
        }
        args.reqFields[fill] := ch;
        assert args.reqFields[..] == buf[fill := ch];
        fill := fill + 1;
      }
      args.data := args.data + 1;
      if args.data == |args.input| {
        return ReqParser.RsStop(ReqParser.NeedsMoreData);
      }
    }
  }

  /** reqparser_skip_line: skips to the next CR; the state becomes RT_LF. */
  method ParseSkipLine(args: Args) returns (r: Sub)
    requires args.Valid() && args.state == RT_SKIP_LINE && args.data < |args.input|
    modifies args
    ensures r == ReqParser.RsContinue ==> args.data > old(args.data)
    ensures args.Valid()
    ensures r != ReqParser.RsStop(ReqParser.Complete)
    ensures Resumes(r, Run(SkipLine, args.reqFields[..], args.input, old(args.data)),
                    args.state, args.reqFields[..], args.input, args.data)
  {
    ghost var target := Run(SkipLine, args.reqFields[..], args.input, args.data);
    ghost var start := args.data;
    while true
      invariant args.Valid() && args.state == RT_SKIP_LINE && start <= args.data < |args.input|
      invariant target == Run(SkipLine, args.reqFields[..], args.input, args.data)
      decreases |args.input| - args.data
    {
      RunStep(SkipLine, args.reqFields[..], args.input, args.data);
      if args.input[args.data] == CR {
        args.state := RT_LF;
        args.data := args.data + 1;
        if args.data == |args.input| {
          return ReqParser.RsStop(ReqParser.NeedsMoreData);
        }
        return ReqParser.RsContinue;
      }
      args.data := args.data + 1;
      if args.data == |args.input| {
        return ReqParser.RsStop(ReqParser.NeedsMoreData);
      }
    }
  }

  /** reqparser_lf: the byte after a CR must be LF; the state becomes RT_HEADER_NAME_0. */
  method ParseLf(args: Args) returns (r: Sub)
    requires args.Valid() && args.state == RT_LF && args.data < |args.input|
    modifies args
    ensures r == ReqParser.RsContinue ==> args.data > old(args.data)
    ensures args.Valid()
    ensures r != ReqParser.RsStop(ReqParser.Complete)
    ensures Resumes(r, Run(Lf, args.reqFields[..], args.input, old(args.data)),
                    args.state, args.reqFields[..], args.input, args.data)
  {
    RunStep(Lf, args.reqFields[..], args.input, args.data);
    if args.input[args.data] != LF {
      return ReqParser.RsStop(ReqParser.BadData);
    }
    args.state := RT_HEADER_NAME_0;
    args.data := args.data + 1;
    if args.data == |args.input| {
      return ReqParser.RsStop(ReqParser.NeedsMoreData);
    }
    return ReqParser.RsContinue;
  }

  /** reqparser_header_name: matches "Host: " one byte per state, or gives up on the line. */
  method ParseHeaderName(args: Args) returns (r: Sub)
    requires args.Valid() && args.data < |args.input|
    requires RT_HEADER_NAME_0 <= args.state < RT_HEADER_NAME_0 + |HOST_STR|
    modifies args
    ensures r == ReqParser.RsContinue ==> args.data > old(args.data)
    ensures args.Valid()
    ensures r != ReqParser.RsStop(ReqParser.Complete)
    ensures var h := HeaderLeaves(old(args.state) - RT_HEADER_NAME_0, args.input, old(args.data));
      args.state == StateOf(h.phase) && args.data == h.cursor && r == HandedOver(h, args.input)
  {
    ghost var leave := HeaderLeaves(args.state - RT_HEADER_NAME_0, args.input, args.data);
    while true
      invariant args.Valid() && args.data < |args.input|
      invariant RT_HEADER_NAME_0 <= args.state < RT_HEADER_NAME_0 + |HOST_STR|
      invariant leave == HeaderLeaves(args.state - RT_HEADER_NAME_0, args.input, args.data)
      decreases |args.input| - args.data
    {
      if args.input[args.data] != HOST_STR[args.state - RT_HEADER_NAME_0] {
        args.state := RT_SKIP_LINE;
        args.data := args.data + 1;
        break;
      }
      args.data := args.data + 1;
      args.state := args.state + 1;
      if args.data == |args.input| || args.state == RT_HOST {
        break;
      }
    }
    if args.data == |args.input| {
      return ReqParser.RsStop(ReqParser.NeedsMoreData);
    }
    return ReqParser.RsContinue;
  }

  /**
   * reqparser_host: writes the host backwards from the highest NUL of
   * req_fields, one state increment per byte, and packs the fields on CR.
   */
  method ParseHost(args: Args) returns (r: Sub)
    requires args.Valid() && args.state == RT_HOST && args.data < |args.input|
    modifies args, args.reqFields
    ensures r == ReqParser.RsContinue ==> args.data > old(args.data)
    ensures args.Valid()
    ensures r != ReqParser.RsStop(ReqParser.Complete) ==>
      Resumes(r, Run(Host(None, 0), old(args.reqFields[..]), args.input, old(args.data)),
              args.state, args.reqFields[..], args.input, args.data)
    ensures r == ReqParser.RsStop(ReqParser.Complete) ==>
      Completes(Run(Host(None, 0), old(args.reqFields[..]), args.input, old(args.data)),
                args.state, args.reqFields[..], args.data)
  {
    HostEntry(args.reqFields[..], args.input, args.data);
    if args.reqFields.Length < 1 {
      // fill_index = req_fields_len - 1 wraps around
      return ReqParser.RsStop(ReqParser.Undefined);
    }
    var found := ReqParser.LastNulOf(args.reqFields);
    if found.None? {
      // the scan down runs past index 0
      return ReqParser.RsStop(ReqParser.Undefined);
    }
    var fill;
    r, fill := HostBytes(args, found.value);
    if r == ReqParser.RsStop(ReqParser.Complete) {
      FixReqFields(args, fill + 1);
    }
  }

  /**
   * The loop of reqparser_host from a known fill index. On CR it stops with
   * Complete in front of the CR and leaves the packing
   * (reqparser_fix_req_fields) to `ParseHost`.
   */
  method HostBytes(args: Args, fill0: nat) returns (r: Sub, fill: nat)
    requires args.Valid() && args.data < |args.input|
    requires fill0 < args.reqFields.Length && args.reqFields[fill0] == NUL
    requires args.state == StateOf(Host(Some(fill0), 0))
    modifies args, args.reqFields
    ensures args.Valid() && r != ReqParser.RsContinue
    ensures Resumes(r, HostTail(fill0, 0, old(args.reqFields[..]), args.input, old(args.data)),
                    args.state, args.reqFields[..], args.input, args.data)
    ensures r == ReqParser.RsStop(ReqParser.Complete) ==>
      var t := HostTail(fill0, 0, old(args.reqFields[..]), args.input, old(args.data));
      Packable(t.phase, t.fields) && t.phase.hostFill.value == fill
  {
    ghost var target := HostTail(fill0, 0, args.reqFields[..], args.input, args.data);
    ghost var start := args.data;
    fill := fill0;
    ghost var w: nat := 0;
    while true
      invariant args.Valid() && start <= args.data < |args.input|
      invariant 0 <= fill < args.reqFields.Length && args.reqFields[fill] == NUL
      invariant args.state == StateOf(Host(Some(fill), w))
      invariant target == HostTail(fill, w, args.reqFields[..], args.input, args.data)
      decreases |args.input| - args.data
    {
      var ch := args.input[args.data];
      ghost var buf := args.reqFields[..];
      if ch == CR {
        return ReqParser.RsStop(ReqParser.Complete), fill;
      }
      if fill == 0 || args.reqFields[fill - 1] != NUL {
        return ReqParser.RsStop(ReqParser.BufferTooSmall), fill;
      }
      args.reqFields[fill] := ch;
      assert args.reqFields[..] == buf[fill := ch];
      fill := fill - 1;
      args.data := args.data + 1;
      args.state := (args.state + 1) % 256;
      ReqParser.IncWraps(RT_HOST + w);
      w := w + 1;
      if args.data == |args.input| {
        return ReqParser.RsStop(ReqParser.NeedsMoreData), fill;
      }
    }
  }

  /**
   * reqparser_fix_req_fields: reverses the host and moves it against the
   * path's NUL; with old_host_index == req_fields_len the host is empty.
   */
  method FixReqFields(args: Args, oldHostIndex: nat)
    requires 1 <= oldHostIndex <= args.reqFields.Length
    requires args.reqFields[oldHostIndex - 1] == NUL
    modifies args.reqFields
    ensures args.reqFields[..] == FixedFields(old(args.reqFields[..]), oldHostIndex)
  {
    var L := args.reqFields.Length;
    ghost var buf := args.reqFields[..];
    Util.Reverse(args.reqFields, oldHostIndex, L - 1);
    ghost var rev := args.reqFields[..];
    Util.SwappedAt(buf, oldHostIndex, L - 1, oldHostIndex - 1);
    var nullIndex := ReqParser.StrlenOf(args.reqFields);
    assert nullIndex == Strlen(rev);
    assert FixedFields(buf, oldHostIndex) == PackHost(rev, nullIndex, oldHostIndex);
    ReqParser.PackHostAfter(args.reqFields, nullIndex, oldHostIndex);
  }
}
