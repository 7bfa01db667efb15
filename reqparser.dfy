/**
 * The incremental HTTP request parser of src/reqparser.c.
 *
 * The parser is specified by a byte-at-a-time machine (`Step`, `Run`,
 * `FeedResult`) over the phases the C code passes through, and the C
 * functions `reqparser_feed` and its `reqparser_*` sub-functions are modelled
 * as methods on `Args` (the C `struct reqparser_args`) whose contracts tie
 * the new state to that machine.
 */
module ReqParser {
  import opened Bytes
  import Util
  import opened ReqFields

  /** enum reqparser_type. */
  const RT_METHOD: int := 0
  const RT_URI: int := 1
  const RT_SKIP_LINE: int := 2
  const RT_LF: int := 3
  const RT_HEADER_NAME_0: int := 4
  const RT_HOST: int := 10

  /** The header name that `reqparser_header_name` matches, byte by byte. */
  const HOST_STR: seq<byte> := "Host: "

  /**
   * enum reqparser_completion, plus the two ways the C code does not return
   * at all: a failed F_ASSERT aborts the process, and a read past the end of
   * `req_fields` is undefined behaviour.
   */
  datatype Completion =
    | Complete
    | NeedsMoreData
    | BadData
    | BufferTooSmall
    | AssertionFailure
    | Undefined

  predicate Terminal(c: Completion)
  {
    c != NeedsMoreData
  }

  /**
   * Where the parser is. The fill indices are the local `fill_index` of
   * `reqparser_path` and `reqparser_host`: None until the sub-function has
   * scanned `req_fields` for it on entry. `written` counts the host bytes
   * taken since the state became RT_HOST.
   */
  datatype Phase =
    | Method
    | Path(pathFill: Option<nat>)
    | SkipLine
    | Lf
    | HeaderName(matched: nat)
    | Host(hostFill: Option<nat>, written: nat)

  /** The `uint8_t state` the C struct holds in each phase. */
  function StateOf(ph: Phase): (s: int)
    ensures 0 <= s < 256
  {
    match ph
    case Method => RT_METHOD
    case Path(_) => RT_URI
    case SkipLine => RT_SKIP_LINE
    case Lf => RT_LF
    case HeaderName(m) => (RT_HEADER_NAME_0 + m) % 256
    case Host(_, w) => (RT_HOST + w) % 256
  }

  /** The phase `reqparser_feed` dispatches to for a state; None where it hits F_ASSERT_UNREACHABLE. */
  function Entry(state: int): (r: Option<Phase>)
    ensures r.Some? ==> StateOf(r.value) == state
    ensures r.Some? <==> 0 <= state <= RT_HOST
  {
    if state == RT_METHOD then Some(Method)
    else if state == RT_URI then Some(Path(None))
    else if state == RT_SKIP_LINE then Some(SkipLine)
    else if state == RT_LF then Some(Lf)
    else if RT_HEADER_NAME_0 <= state < RT_HEADER_NAME_0 + |HOST_STR| then Some(HeaderName(state - RT_HEADER_NAME_0))
    else if state == RT_HOST then Some(Host(None, 0))
    else None
  }

  /** What a phase needs of the buffer for its next byte to be defined. */
  predicate PhaseOk(ph: Phase, buf: seq<byte>)
  {
    match ph
    case Path(Some(f)) => f <= |buf|
    case HeaderName(m) => m < |HOST_STR|
    case Host(Some(f), _) => f < |buf| && buf[f] == NUL
    case _ => true
  }

  /**
   * The effect of one input byte: either it is consumed and the machine
   * moves on, or the parser stops in front of it.
   */
  datatype StepResult =
    | Next(phase: Phase, fields: seq<byte>)
    | Stop(completion: Completion, phase: Phase, fields: seq<byte>)

  /** One byte of `reqparser_path`, with `fill_index` known. */
  function PathByte(f: nat, buf: seq<byte>, ch: byte): (r: StepResult)
    requires f <= |buf|
    ensures r.Next? ==> PhaseOk(r.phase, r.fields) && |r.fields| == |buf|
  {
    if ch == NUL then Stop(BadData, Path(Some(f)), buf)
    else if ch == SP then
      if f == 0 then Stop(BadData, Path(Some(f)), buf)
      else if f >= |buf| then Stop(AssertionFailure, Path(Some(f)), buf)
      else Next(SkipLine, buf[f := NUL])
    else if f == 0 && ch != SLASH then Stop(BadData, Path(Some(f)), buf)
    // fill_index == req_fields_len - 2 in size_t arithmetic
    else if f + 2 == |buf| then Stop(BufferTooSmall, Path(Some(f)), buf)
    else if f >= |buf| then Stop(AssertionFailure, Path(Some(f)), buf)
    else Next(Path(Some(f + 1)), buf[f := ch])
  }

  /** One byte of `reqparser_host`, with `fill_index` known. */
  function HostByte(f: nat, w: nat, buf: seq<byte>, ch: byte): (r: StepResult)
    requires f < |buf| && buf[f] == NUL
    ensures r.Next? ==> PhaseOk(r.phase, r.fields) && |r.fields| == |buf|
  {
    if ch == CR then
      if f == |buf| - 1 then Stop(BadData, Host(Some(f), w), buf)
      // reqparser_fix_req_fields(args, f + 1) runs on the way out: see Observe
      else Stop(Complete, Host(Some(f), w), buf)
    else if f == 0 || buf[f - 1] != NUL then Stop(BufferTooSmall, Host(Some(f), w), buf)
    else Next(Host(Some(f - 1), w + 1), buf[f := ch])
  }

  function Step(ph: Phase, buf: seq<byte>, ch: byte): (r: StepResult)
    requires PhaseOk(ph, buf)
    ensures r.Next? ==> PhaseOk(r.phase, r.fields) && |r.fields| == |buf|
  {
    match ph
    case Method =>
      if ch == SP then Next(Path(None), buf) else Next(Method, buf)
    case Path(None) =>
      // the unbounded scan for the first NUL
      var f := Strlen(buf);
      if f == |buf| then Stop(Undefined, ph, buf) else PathByte(f, buf, ch)
    case Path(Some(f)) => PathByte(f, buf, ch)
    case SkipLine =>
      if ch == CR then Next(Lf, buf) else Next(SkipLine, buf)
    case Lf =>
      if ch != LF then Stop(BadData, ph, buf) else Next(HeaderName(0), buf)
    case HeaderName(m) =>
      if ch != HOST_STR[m] then Next(SkipLine, buf)
      else if m + 1 == |HOST_STR| then Next(Host(None, 0), buf)
      else Next(HeaderName(m + 1), buf)
    case Host(None, w) =>
      // F_ASSERT(req_fields_len >= 1), then the downward scan with F_ASSERT(fill_index > 0)
      if |buf| == 0 then Stop(AssertionFailure, ph, buf)
      else (match LastNul(buf)
        case None => Stop(AssertionFailure, ph, buf)
        case Some(f) => HostByte(f, w, buf, ch))
    case Host(Some(f), w) => HostByte(f, w, buf, ch)
  }

  /** Where the machine ends: how, in which phase, with which buffer, and at which input index. */
  datatype Outcome = Outcome(completion: Completion, phase: Phase, fields: seq<byte>, cursor: nat)

  /** The machine from input index `pos` on, until it stops or the input runs out. */
  function Run(ph: Phase, buf: seq<byte>, input: seq<byte>, pos: nat): (o: Outcome)
    requires PhaseOk(ph, buf) && pos <= |input|
    ensures pos <= o.cursor <= |input|
    ensures o.completion == NeedsMoreData <==> o.cursor == |input|
    ensures o.completion == NeedsMoreData ==> PhaseOk(o.phase, o.fields)
    decreases |input| - pos, 1
  {
    if pos == |input| then Outcome(NeedsMoreData, ph, buf, pos) else RunFrom(ph, buf, input, pos)
  }

  /** The machine on the byte at `pos`, and on from there. */
  function RunFrom(ph: Phase, buf: seq<byte>, input: seq<byte>, pos: nat): (o: Outcome)
    requires PhaseOk(ph, buf) && pos < |input|
    ensures pos <= o.cursor <= |input|
    ensures o.completion == NeedsMoreData <==> o.cursor == |input|
    ensures o.completion == NeedsMoreData ==> PhaseOk(o.phase, o.fields)
    decreases |input| - pos, 0
  {
    match Step(ph, buf, input[pos])
    case Stop(c, ph', buf') => Outcome(c, ph', buf', pos)
    case Next(ph', buf') => Run(ph', buf', input, pos + 1)
  }

  /** Run, one byte further. */
  lemma RunStep(ph: Phase, buf: seq<byte>, input: seq<byte>, pos: nat)
    requires PhaseOk(ph, buf) && pos < |input|
    ensures var st := Step(ph, buf, input[pos]);
      Run(ph, buf, input, pos) ==
        if st.Stop? then Outcome(st.completion, st.phase, st.fields, pos)
        else Run(st.phase, st.fields, input, pos + 1)
  {
  }

  /** A path byte that is appended: the fill index moves up by one. */
  lemma PathPush(f: nat, buf: seq<byte>, input: seq<byte>, pos: nat)
    requires f < |buf| && f + 2 != |buf| && pos < |input|
    requires input[pos] != NUL && input[pos] != SP && (f == 0 ==> input[pos] == SLASH)
    ensures Run(Path(Some(f)), buf, input, pos) == Run(Path(Some(f + 1)), buf[f := input[pos]], input, pos + 1)
  {
    RunStep(Path(Some(f)), buf, input, pos);
  }

  /** Where a sub-function hands the input over: the phase it leaves and the cursor. */
  datatype Handover = Handover(phase: Phase, cursor: nat)

  /**
   * The bytes `reqparser_header_name` consumes from `pos` on, having matched
   * `m` bytes of "Host: ": it gives up on the line after the first mismatch,
   * enters the host state after the last byte, or runs out of input.
   */
  function HeaderLeaves(m: nat, input: seq<byte>, pos: nat): (h: Handover)
    requires m < |HOST_STR| && pos < |input|
    decreases |input| - pos
  {
    if input[pos] != HOST_STR[m] then Handover(SkipLine, pos + 1)
    else if m + 1 == |HOST_STR| then Handover(Host(None, 0), pos + 1)
    else if pos + 1 == |input| then Handover(HeaderName(m + 1), pos + 1)
    else HeaderLeaves(m + 1, input, pos + 1)
  }

  /** The machine goes on from the handover exactly as from the header-name phase. */
  lemma {:induction false} HeaderLeavesRun(m: nat, buf: seq<byte>, input: seq<byte>, pos: nat)
    requires m < |HOST_STR| && pos < |input|
    ensures var h := HeaderLeaves(m, input, pos);
      && pos < h.cursor <= |input|
      && Entry(StateOf(h.phase)) == Some(h.phase)
      && Run(HeaderName(m), buf, input, pos) == Run(h.phase, buf, input, h.cursor)
    decreases |input| - pos
  {
    RunStep(HeaderName(m), buf, input, pos);
    if input[pos] == HOST_STR[m] && m + 1 < |HOST_STR| && pos + 1 < |input| {
      HeaderLeavesRun(m + 1, buf, input, pos + 1);
    }
  }

  /**
   * The machine from a host phase whose fill index is known, in the shape of
   * `reqparser_host`'s loop: stop in front of CR, stop when no zeroed slot is
   * left below the fill index, otherwise store the byte and move down.
   */
  function HostTail(f: nat, w: nat, buf: seq<byte>, input: seq<byte>, pos: nat): (o: Outcome)
    requires f < |buf| && buf[f] == NUL && pos <= |input|
    decreases |input| - pos
  {
    if pos == |input| then Outcome(NeedsMoreData, Host(Some(f), w), buf, pos)
    else if input[pos] == CR then
      Outcome(if f == |buf| - 1 then BadData else Complete, Host(Some(f), w), buf, pos)
    else if f == 0 || buf[f - 1] != NUL then Outcome(BufferTooSmall, Host(Some(f), w), buf, pos)
    else HostTail(f - 1, w + 1, buf[f := input[pos]], input, pos + 1)
  }

  /** `HostTail` is the machine itself, started in that host phase. */
  lemma {:induction false} HostTailRuns(f: nat, w: nat, buf: seq<byte>, input: seq<byte>, pos: nat)
    requires f < |buf| && buf[f] == NUL && pos <= |input|
    ensures HostTail(f, w, buf, input, pos) == Run(Host(Some(f), w), buf, input, pos)
    decreases |input| - pos
  {
    if pos < |input| {
      RunStep(Host(Some(f), w), buf, input, pos);
      if input[pos] != CR && f != 0 && buf[f - 1] == NUL {
        HostTailRuns(f - 1, w + 1, buf[f := input[pos]], input, pos + 1);
      }
    }
  }

  /**
   * Entering the host state: the machine stops on a failed F_ASSERT when
   * `req_fields` is empty or holds no NUL, and otherwise runs the host loop
   * from the highest NUL.
   */
  lemma HostEntry(buf: seq<byte>, input: seq<byte>, pos: nat)
    requires pos < |input|
    ensures Run(Host(None, 0), buf, input, pos) ==
      if |buf| == 0 || LastNul(buf).None? then Outcome(AssertionFailure, Host(None, 0), buf, pos)
      else HostTail(LastNul(buf).value, 0, buf, input, pos)
  {
    RunStep(Host(None, 0), buf, input, pos);
    if |buf| != 0 && LastNul(buf).Some? {
      HostTailRuns(LastNul(buf).value, 0, buf, input, pos);
    }
  }

  /** What the caller of `reqparser_feed` sees: its result and the struct's fields. */
  datatype Result = Result(completion: Completion, state: int, fields: seq<byte>, cursor: nat)

  /** The machine stops with Complete in a host phase whose fill index has a byte of host after it. */
  predicate Packable(ph: Phase, buf: seq<byte>)
  {
    ph.Host? && ph.hostFill.Some? && ph.hostFill.value + 1 < |buf| && buf[ph.hostFill.value] == NUL
  }

  /**
   * The result and the struct after the machine stops; on Complete the
   * fields are packed by reqparser_fix_req_fields.
   */
  function Observe(o: Outcome): Result
  {
    var fields := if o.completion == Complete && Packable(o.phase, o.fields)
      then FixedFields(o.fields, o.phase.hostFill.value + 1)
      else o.fields;
    Result(o.completion, StateOf(o.phase), fields, o.cursor)
  }

  /** reqparser_feed on input[cursor..]: the specification the methods below meet. */
  function FeedResult(state: int, buf: seq<byte>, input: seq<byte>, cursor: nat): (r: Result)
    requires cursor <= |input|
    ensures cursor <= r.cursor <= |input|
  {
    if cursor == |input| then Result(AssertionFailure, state, buf, cursor)
    else match Entry(state)
      case None => Result(AssertionFailure, state, buf, cursor)
      case Some(ph) => Observe(Run(ph, buf, input, cursor))
  }

  /**
   * enum reqparser_sub. RS_COMPLETE, RS_EOF, RS_ERROR and RS_BUFFER_TOO_SMALL
   * are RsStop(Complete), RsStop(NeedsMoreData), RsStop(BadData) and
   * RsStop(BufferTooSmall), which is exactly how the switch at the end of
   * `reqparser_feed` translates them; RsStop(AssertionFailure) and
   * RsStop(Undefined) stand for a sub-function that never returns.
   */
  datatype Sub = RsContinue | RsStop(completion: Completion)

  /**
   * A sub-function's result agrees with the machine: on RsContinue the
   * machine resumed from the new state ends exactly where it would have, and
   * otherwise the machine stops with that completion, state, buffer and
   * cursor. (The packing on Complete is stated by `Completes`.)
   */
  ghost predicate Resumes(r: Sub, target: Outcome, state: int, fields: seq<byte>, input: seq<byte>, cursor: nat)
  {
    match r
    case RsContinue =>
      && cursor < |input|
      && Entry(state).Some?
      && PhaseOk(Entry(state).value, fields)
      && target == Run(Entry(state).value, fields, input, cursor)
    case RsStop(c) =>
      && target.completion == c
      && StateOf(target.phase) == state
      && target.fields == fields
      && target.cursor == cursor
  }

  /** RS_EOF when the handover is at the end of the input, RS_CONTINUE otherwise. */
  function HandedOver(h: Handover, input: seq<byte>): Sub
  {
    if h.cursor == |input| then RsStop(NeedsMoreData) else RsContinue
  }

  /**
   * What `reqparser_header_name` returns at the handover: RS_EOF when the
   * input ran out there and RS_CONTINUE otherwise, which agrees with the machine.
   */
  lemma HeaderResumes(m: nat, buf: seq<byte>, input: seq<byte>, pos: nat)
    requires m < |HOST_STR| && pos < |input|
    ensures var h := HeaderLeaves(m, input, pos);
      Resumes(HandedOver(h, input), Run(HeaderName(m), buf, input, pos), StateOf(h.phase), buf, input, h.cursor)
  {
    HeaderLeavesRun(m, buf, input, pos);
  }

  /** The machine completes, and the buffer holds its fields packed. */
  ghost predicate Completes(target: Outcome, state: int, fields: seq<byte>, cursor: nat)
  {
    && target.completion == Complete
    && StateOf(target.phase) == state
    && target.cursor == cursor
    && Packable(target.phase, target.fields)
    && fields == FixedFields(target.fields, target.phase.hostFill.value + 1)
  }

  /** struct reqparser_args: the state, the input cursor over data..data_end, and req_fields. */
  class Args {
    var state: int
    var data: nat
    const input: seq<byte>
    const reqFields: array<byte>

    ghost predicate Valid()
      reads this
    {
      0 <= state < 256 && data <= |input|
    }

    constructor (state: int, input: seq<byte>, data: nat, reqFields: array<byte>)
      requires 0 <= state < 256 && data <= |input|
      ensures Valid()
      ensures this.state == state && this.input == input && this.data == data
      ensures this.reqFields == reqFields
    {
      this.state := state;
      this.input := input;
      this.data := data;
      this.reqFields := reqFields;
    }
  }

  /** reqparser_feed: runs the sub-functions until one of them does not ask to continue. */
  method Feed(args: Args) returns (c: Completion)
    requires args.Valid()
    modifies args, args.reqFields
    ensures args.Valid()
    ensures Result(c, args.state, args.reqFields[..], args.data)
      == FeedResult(old(args.state), old(args.reqFields[..]), args.input, old(args.data))
  {
    ghost var target := FeedResult(args.state, args.reqFields[..], args.input, args.data);
    while true
      invariant args.Valid()
      invariant target == FeedResult(args.state, args.reqFields[..], args.input, args.data)
      decreases |args.input| - args.data
    {
      if args.data >= |args.input| {
        return AssertionFailure;
      }
      ghost var before := args.data;
      var r: Sub;
      if args.state == RT_METHOD {
        r := ParseMethod(args);
      } else if args.state == RT_URI {
        r := ParsePath(args);
      } else if args.state == RT_SKIP_LINE {
        r := ParseSkipLine(args);
      } else if args.state == RT_LF {
        r := ParseLf(args);
      } else if RT_HEADER_NAME_0 <= args.state < RT_HEADER_NAME_0 + |HOST_STR| {
        ghost var m := args.state - RT_HEADER_NAME_0;
        ghost var pos := args.data;
        r := ParseHeaderName(args);
        HeaderResumes(m, args.reqFields[..], args.input, pos);
      } else if args.state == RT_HOST {
        r := ParseHost(args);
      } else {
        return AssertionFailure;
      }
      match r
      case RsContinue =>
      case RsStop(completion) =>
        return completion;
    }
  }

  /** reqparser_method: skips to the space after the method; the state becomes RT_URI. */
  method ParseMethod(args: Args) returns (r: Sub)
    requires args.Valid() && args.state == RT_METHOD && args.data < |args.input|
    modifies args
    ensures r == RsContinue ==> args.data > old(args.data)
    ensures args.Valid()
    ensures r != RsStop(Complete)
    ensures Resumes(r, Run(Method, args.reqFields[..], args.input, old(args.data)),
                    args.state, args.reqFields[..], args.input, args.data)
  {
    ghost var target := Run(Method, args.reqFields[..], args.input, args.data);
    ghost var start := args.data;
    while true
      invariant args.Valid() && args.state == RT_METHOD && start <= args.data < |args.input|
      invariant target == Run(Method, args.reqFields[..], args.input, args.data)
      decreases |args.input| - args.data
    {
      RunStep(Method, args.reqFields[..], args.input, args.data);
      if args.input[args.data] == SP {
        args.state := RT_URI;
        args.data := args.data + 1;
        if args.data == |args.input| {
          return RsStop(NeedsMoreData);
        }
        return RsContinue;
      }
      args.data := args.data + 1;
      if args.data == |args.input| {
        return RsStop(NeedsMoreData);
      }
    }
  }

  /** reqparser_path: appends the path to req_fields up to the space that ends it. */
  method ParsePath(args: Args) returns (r: Sub)
    requires args.Valid() && args.state == RT_URI && args.data < |args.input|
    modifies args, args.reqFields
    ensures r == RsContinue ==> args.data > old(args.data)
    ensures args.Valid()
    ensures r != RsStop(Complete)
    ensures Resumes(r, Run(Path(None), old(args.reqFields[..]), args.input, old(args.data)),
                    args.state, args.reqFields[..], args.input, args.data)
  {
    ghost var target := Run(Path(None), args.reqFields[..], args.input, args.data);
    ghost var start := args.data;
    var fill := 0;
    while fill < args.reqFields.Length && args.reqFields[fill] != NUL
      invariant 0 <= fill <= args.reqFields.Length
      invariant forall i :: 0 <= i < fill ==> args.reqFields[i] != NUL
    {
      fill := fill + 1;
    }
    StrlenIs(args.reqFields[..], fill);
    if fill == args.reqFields.Length {
      // the scan runs off the end of req_fields
      return RsStop(Undefined);
    }
    RunStep(Path(None), args.reqFields[..], args.input, args.data);
    RunStep(Path(Some(fill)), args.reqFields[..], args.input, args.data);
    assert target == Run(Path(Some(fill)), args.reqFields[..], args.input, args.data);
    r := PathBytes(args, fill);
  }

  /** The loop of reqparser_path from a known fill index. */
  method PathBytes(args: Args, fill0: nat) returns (r: Sub)
    requires args.Valid() && args.state == RT_URI && args.data < |args.input|
    requires fill0 <= args.reqFields.Length
    modifies args, args.reqFields
    ensures r == RsContinue ==> args.data > old(args.data)
    ensures args.Valid()
    ensures r != RsStop(Complete)
    ensures Resumes(r, Run(Path(Some(fill0)), old(args.reqFields[..]), args.input, old(args.data)),
                    args.state, args.reqFields[..], args.input, args.data)
  {
    ghost var target := Run(Path(Some(fill0)), args.reqFields[..], args.input, args.data);
    ghost var start := args.data;
    var fill: nat := fill0;
    while true
      invariant args.Valid() && args.state == RT_URI && start <= args.data < |args.input|
      invariant fill <= args.reqFields.Length
      invariant target == Run(Path(Some(fill)), args.reqFields[..], args.input, args.data)
      decreases |args.input| - args.data
    {
      var ch := args.input[args.data];
      ghost var buf := args.reqFields[..];
      RunStep(Path(Some(fill)), buf, args.input, args.data);
      if ch == NUL {
        return RsStop(BadData);
      } else if ch == SP {
        if fill == 0 {
          return RsStop(BadData);
        }
        if fill >= args.reqFields.Length {
          return RsStop(AssertionFailure);
        }
        args.reqFields[fill] := NUL;
        assert args.reqFields[..] == buf[fill := NUL];
        args.state := RT_SKIP_LINE;
        args.data := args.data + 1;
        if args.data == |args.input| {
          return RsStop(NeedsMoreData);
        }
        return RsContinue;
      } else {
        if fill == 0 && ch != SLASH {
          return RsStop(BadData);
        }
        if fill + 2 == args.reqFields.Length {
          return RsStop(BufferTooSmall);
        }
        if fill >= args.reqFields.Length {
          return RsStop(AssertionFailure);
        }
        PathPush(fill, buf, args.input, args.data);
        args.reqFields[fill] := ch;
        assert args.reqFields[..] == buf[fill := ch];
        fill := fill + 1;
      }
      args.data := args.data + 1;
      if args.data == |args.input| {
        return RsStop(NeedsMoreData);
      }
    }
  }

  /** reqparser_skip_line: skips to the next CR; the state becomes RT_LF. */
  method ParseSkipLine(args: Args) returns (r: Sub)
    requires args.Valid() && args.state == RT_SKIP_LINE && args.data < |args.input|
    modifies args
    ensures r == RsContinue ==> args.data > old(args.data)
    ensures args.Valid()
    ensures r != RsStop(Complete)
    ensures Resumes(r, Run(SkipLine, args.reqFields[..], args.input, old(args.data)),
                    args.state, args.reqFields[..], args.input, args.data)
  {
    ghost var target := Run(SkipLine, args.reqFields[..], args.input, args.data);
    ghost var start := args.data;
    while true
      invariant args.Valid() && args.state == RT_SKIP_LINE && start <= args.data < |args.input|
      invariant target == Run(SkipLine, args.reqFields[..], args.input, args.data)
      decreases |args.input| - args.data
    {
      RunStep(SkipLine, args.reqFields[..], args.input, args.data);
      if args.input[args.data] == CR {
        args.state := RT_LF;
        args.data := args.data + 1;
        if args.data == |args.input| {
          return RsStop(NeedsMoreData);
        }
        return RsContinue;
      }
      args.data := args.data + 1;
      if args.data == |args.input| {
        return RsStop(NeedsMoreData);
      }
    }
  }

  /** reqparser_lf: the byte after a CR must be LF; the state becomes RT_HEADER_NAME_0. */
  method ParseLf(args: Args) returns (r: Sub)
    requires args.Valid() && args.state == RT_LF && args.data < |args.input|
    modifies args
    ensures r == RsContinue ==> args.data > old(args.data)
    ensures args.Valid()
    ensures r != RsStop(Complete)
    ensures Resumes(r, Run(Lf, args.reqFields[..], args.input, old(args.data)),
                    args.state, args.reqFields[..], args.input, args.data)
  {
    RunStep(Lf, args.reqFields[..], args.input, args.data);
    if args.input[args.data] != LF {
      return RsStop(BadData);
    }
    args.state := RT_HEADER_NAME_0;
    args.data := args.data + 1;
    if args.data == |args.input| {
      return RsStop(NeedsMoreData);
    }
    return RsContinue;
  }

  /** reqparser_header_name: matches "Host: " one byte per state, or gives up on the line. */
  method ParseHeaderName(args: Args) returns (r: Sub)
    requires args.Valid() && args.data < |args.input|
    requires RT_HEADER_NAME_0 <= args.state < RT_HEADER_NAME_0 + |HOST_STR|
    modifies args
    ensures r == RsContinue ==> args.data > old(args.data)
    ensures args.Valid()
    ensures r != RsStop(Complete)
    ensures var h := HeaderLeaves(old(args.state) - RT_HEADER_NAME_0, args.input, old(args.data));
      args.state == StateOf(h.phase) && args.data == h.cursor && r == HandedOver(h, args.input)
  {
    ghost var leave := HeaderLeaves(args.state - RT_HEADER_NAME_0, args.input, args.data);
    while true
      invariant args.Valid() && args.data < |args.input|
      invariant RT_HEADER_NAME_0 <= args.state < RT_HEADER_NAME_0 + |HOST_STR|
      invariant leave == HeaderLeaves(args.state - RT_HEADER_NAME_0, args.input, args.data)
      decreases |args.input| - args.data
    {
      if args.input[args.data] != HOST_STR[args.state - RT_HEADER_NAME_0] {
        args.state := RT_SKIP_LINE;
        args.data := args.data + 1;
        if args.data == |args.input| {
          return RsStop(NeedsMoreData);
        }
        return RsContinue;
      }
      args.data := args.data + 1;
      args.state := args.state + 1;
      if args.data == |args.input| {
        return RsStop(NeedsMoreData);
      }
      if args.state == RT_HOST {
        return RsContinue;
      }
    }
  }

  /**
   * reqparser_host: writes the host backwards from the highest NUL of
   * req_fields, one state increment per byte, and packs the fields on CR.
   */
  method ParseHost(args: Args) returns (r: Sub)
    requires args.Valid() && args.state == RT_HOST && args.data < |args.input|
    modifies args, args.reqFields
    ensures r == RsContinue ==> args.data > old(args.data)
    ensures args.Valid()
    ensures r != RsStop(Complete) ==>
      Resumes(r, Run(Host(None, 0), old(args.reqFields[..]), args.input, old(args.data)),
              args.state, args.reqFields[..], args.input, args.data)
    ensures r == RsStop(Complete) ==>
      Completes(Run(Host(None, 0), old(args.reqFields[..]), args.input, old(args.data)),
                args.state, args.reqFields[..], args.data)
  {
    HostEntry(args.reqFields[..], args.input, args.data);
    if args.reqFields.Length < 1 {
      return RsStop(AssertionFailure);
    }
    var found := LastNulOf(args.reqFields);
    if found.None? {
      // F_ASSERT(fill_index > 0) fails once the scan reaches index 0
      return RsStop(AssertionFailure);
    }
    var fill;
    r, fill := HostBytes(args, found.value);
    if r == RsStop(Complete) {
      FixReqFields(args, fill + 1);
    }
  }

  /**
   * The loop of reqparser_host from a known fill index. On CR with a
   * non-empty host it stops with Complete in front of the CR and leaves the
   * packing (reqparser_fix_req_fields) to `ParseHost`.
   */
  method HostBytes(args: Args, fill0: nat) returns (r: Sub, fill: nat)
    requires args.Valid() && args.data < |args.input|
    requires fill0 < args.reqFields.Length && args.reqFields[fill0] == NUL
    requires args.state == StateOf(Host(Some(fill0), 0))
    modifies args, args.reqFields
    ensures args.Valid() && r != RsContinue
    ensures Resumes(r, HostTail(fill0, 0, old(args.reqFields[..]), args.input, old(args.data)),
                    args.state, args.reqFields[..], args.input, args.data)
    ensures r == RsStop(Complete) ==>
      var t := HostTail(fill0, 0, old(args.reqFields[..]), args.input, old(args.data));
      Packable(t.phase, t.fields) && t.phase.hostFill.value == fill
  {
    ghost var target := HostTail(fill0, 0, args.reqFields[..], args.input, args.data);
    ghost var start := args.data;
    fill := fill0;
    ghost var w: nat := 0;
    while true
      invariant args.Valid() && start <= args.data < |args.input|
      invariant 0 <= fill < args.reqFields.Length && args.reqFields[fill] == NUL
      invariant args.state == StateOf(Host(Some(fill), w))
      invariant target == HostTail(fill, w, args.reqFields[..], args.input, args.data)
      decreases |args.input| - args.data
    {
      var ch := args.input[args.data];
      ghost var buf := args.reqFields[..];
      if ch == CR {
        if fill == args.reqFields.Length - 1 {
          return RsStop(BadData), fill;
        }
        return RsStop(Complete), fill;
      }
      if fill == 0 || args.reqFields[fill - 1] != NUL {
        return RsStop(BufferTooSmall), fill;
      }
      args.reqFields[fill] := ch;
      assert args.reqFields[..] == buf[fill := ch];
      fill := fill - 1;
      args.data := args.data + 1;
      args.state := (args.state + 1) % 256;
      IncWraps(RT_HOST + w);
      w := w + 1;
      if args.data == |args.input| {
        return RsStop(NeedsMoreData), fill;
      }
    }
  }

  /** Incrementing a `uint8_t` that holds n % 256 leaves (n + 1) % 256. */
  lemma IncWraps(n: nat)
    ensures (n % 256 + 1) % 256 == (n + 1) % 256
  {
  }

  /** reqparser_fix_req_fields: reverses the host and moves it against the path's NUL. */
  method FixReqFields(args: Args, oldHostIndex: nat)
    requires 1 <= oldHostIndex < args.reqFields.Length
    requires args.reqFields[oldHostIndex - 1] == NUL
    modifies args.reqFields
    ensures args.reqFields[..] == FixedFields(old(args.reqFields[..]), oldHostIndex)
  {
    var L := args.reqFields.Length;
    ghost var buf := args.reqFields[..];
    Util.Reverse(args.reqFields, oldHostIndex, L - 1);
    ghost var rev := args.reqFields[..];
    Util.SwappedAt(buf, oldHostIndex, L - 1, oldHostIndex - 1);
    var sepIndex := StrlenOf(args.reqFields);
    // F_ASSERT(sep_index <= req_fields_len - 1)
    assert sepIndex <= L - 1;
    assert sepIndex == Strlen(rev);
    assert FixedFields(buf, oldHostIndex) == PackHost(rev, sepIndex, oldHostIndex);
    PackHostAfter(args.reqFields, sepIndex, oldHostIndex);
  }

  /** The memmove and the terminating NUL of reqparser_fix_req_fields. */
  method PackHostAfter(a: array<byte>, sepIndex: nat, oldHostIndex: nat)
    requires oldHostIndex <= a.Length && sepIndex < oldHostIndex
    modifies a
    ensures a[..] == PackHost(old(a[..]), sepIndex, oldHostIndex)
  {
    var hostLen := a.Length - oldHostIndex;
    if hostLen != 0 {
      Util.MemMoveDown(a, sepIndex + 1, oldHostIndex, hostLen);
    }
    if sepIndex + 1 + hostLen != a.Length {
      a[sepIndex + 1 + hostLen] := NUL;
    }
  }

  /** The downward scan of reqparser_host for the highest NUL of a non-empty buffer. */
  method LastNulOf(a: array<byte>) returns (r: Option<nat>)
    requires a.Length >= 1
    ensures r == LastNul(a[..])
  {
    var fill := a.Length - 1;
    while a[fill] != NUL
      invariant 0 <= fill < a.Length
      invariant forall i :: fill < i < a.Length ==> a[i] != NUL
      decreases fill
    {
      if fill == 0 {
        return None;
      }
      fill := fill - 1;
    }
    LastNulIs(a[..], fill);
    return Some(fill);
  }

  /** strlen on a buffer that holds a NUL. */
  method StrlenOf(a: array<byte>) returns (n: nat)
    requires exists i :: 0 <= i < a.Length && a[i] == NUL
    ensures n == Strlen(a[..])
  {
    n := 0;
    while a[n] != NUL
      invariant 0 <= n < a.Length
      invariant forall i :: 0 <= i < n ==> a[i] != NUL
      invariant exists i :: n <= i < a.Length && a[i] == NUL
      decreases a.Length - n
    {
      n := n + 1;
    }
    StrlenIs(a[..], n);
  }
}
