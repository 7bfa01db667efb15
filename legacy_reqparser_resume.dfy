/**
 * Resuming the reqparser.c machine across reads: the caller keeps `state`
 * and `req_fields` between calls of reqparser_feed, and a request split
 * into two chunks parses as if it had arrived at once, also in the middle
 * of "GET /", unless the split falls after the first host byte, where the
 * stored state is past RT_HOST and no `case` of the next call matches it.
 */
module LegacyReqParserResume {
  import opened Bytes
  import ReqParser
  import opened LegacyReqParser

  /** The machine on a prefix of the input agrees with the machine on the whole input, up to the prefix's end. */
  lemma {:induction false} RunPrefix(ph: Phase, buf: seq<byte>, input: seq<byte>, pos: nat, k: nat)
    requires PhaseOk(ph, buf) && pos <= k <= |input|
    ensures var o := Run(ph, buf, input[..k], pos);
      Run(ph, buf, input, pos) == if o.completion == ReqParser.NeedsMoreData then Run(o.phase, o.fields, input, k) else o
    decreases k - pos
  {
    if pos < k {
      RunStep(ph, buf, input, pos);
      RunStep(ph, buf, input[..k], pos);
      assert input[..k][pos] == input[pos];
      match Step(ph, buf, input[pos])
      case Stop(_, _, _) =>
      case Next(ph', buf') => RunPrefix(ph', buf', input, pos + 1, k);
    }
  }

  /** The machine never changes the length of req_fields. */
  lemma {:induction false} RunKeepsLength(ph: Phase, buf: seq<byte>, input: seq<byte>, pos: nat)
    requires PhaseOk(ph, buf) && pos <= |input|
    ensures |Run(ph, buf, input, pos).fields| == |buf|
    decreases |input| - pos
  {
    if pos < |input| {
      RunStep(ph, buf, input, pos);
      match Step(ph, buf, input[pos])
      case Stop(_, _, _) =>
      case Next(ph', buf') => RunKeepsLength(ph', buf', input, pos + 1);
    }
  }

  /** The outcome with its cursor moved `j` bytes back. */
  function Shifted(o: Outcome, j: nat): (r: Outcome)
    requires j <= o.cursor
    ensures r.cursor + j == o.cursor
  {
    o.(cursor := o.cursor - j)
  }

  /** The machine does not depend on the bytes before its cursor. */
  lemma {:induction false} RunDrop(ph: Phase, buf: seq<byte>, input: seq<byte>, j: nat, pos: nat)
    requires PhaseOk(ph, buf) && j <= pos <= |input|
    ensures Run(ph, buf, input[j..], pos - j) == Shifted(Run(ph, buf, input, pos), j)
    decreases |input| - pos
  {
    if pos < |input| {
      RunStep(ph, buf, input, pos);
      RunStep(ph, buf, input[j..], pos - j);
      assert input[j..][pos - j] == input[pos];
      match Step(ph, buf, input[pos])
      case Stop(_, _, _) =>
      case Next(ph', buf') => RunDrop(ph', buf', input, j, pos + 1);
    }
  }

  /**
   * req_fields as the path state needs it to re-find its fill index
   * `f` by strlen: the path so far below `f`, zeros from `f` on, and room
   * for one more byte and the NUL.
   */
  predicate PathFilled(f: nat, buf: seq<byte>)
  {
    && f + 2 <= |buf|
    && (forall i :: 0 <= i < f ==> buf[i] != NUL)
    && (forall i :: f <= i < |buf| ==> buf[i] == NUL)
  }

  /**
   * What holds of every phase a run starting on a zeroed req_fields of at
   * least two bytes can pause in: the path is re-found by strlen, and the
   * host phase has written at least one byte and no more than the buffer has.
   */
  predicate Good(ph: Phase, buf: seq<byte>)
  {
    match ph
    case Method(_) => PathFilled(Strlen(buf), buf)
    case Path(None) => PathFilled(Strlen(buf), buf)
    case Path(Some(f)) => PathFilled(f, buf)
    case Host(None, w) => w == 0
    case Host(Some(f), w) => 1 <= w && f + w < |buf|
    case _ => true
  }

  /** A zeroed req_fields of at least two bytes is good for the method states. */
  lemma ZeroedGood(m: nat, buf: seq<byte>)
    requires 2 <= |buf| && AllZero(buf)
    ensures Good(Method(m), buf)
  {
    StrlenIs(buf, 0);
  }

  /** One consumed byte keeps a phase good. */
  lemma GoodStep(ph: Phase, buf: seq<byte>, ch: byte)
    requires PhaseOk(ph, buf) && Good(ph, buf)
    ensures var st := Step(ph, buf, ch); st.Next? ==> Good(st.phase, st.fields)
  {
    match ph
    case Path(None) =>
      var f := Strlen(buf);
      if f < |buf| {
        GoodPathByte(f, buf, ch);
      }
    case Path(Some(f)) => GoodPathByte(f, buf, ch);
    case Host(None, _) =>
      if |buf| != 0 && LastNul(buf).Some? {
        GoodHostByte(LastNul(buf).value, 0, buf, ch);
      }
    case Host(Some(f), w) => GoodHostByte(f, w, buf, ch);
    case _ =>
  }

  lemma GoodPathByte(f: nat, buf: seq<byte>, ch: byte)
    requires PathFilled(f, buf)
    ensures var st := PathByte(f, buf, ch); st.Next? ==> Good(st.phase, st.fields)
  {
  }

  lemma GoodHostByte(f: nat, w: nat, buf: seq<byte>, ch: byte)
    requires f < |buf| && buf[f] == NUL && f + w < |buf|
    ensures var st := HostByte(f, w, buf, ch); st.Next? ==> Good(st.phase, st.fields)
  {
  }

  /** Wherever a run from a good phase pauses, the phase is good. */
  lemma {:induction false} GoodRun(ph: Phase, buf: seq<byte>, input: seq<byte>, pos: nat)
    requires PhaseOk(ph, buf) && Good(ph, buf) && pos <= |input|
    ensures var o := Run(ph, buf, input, pos); o.completion == ReqParser.NeedsMoreData ==> Good(o.phase, o.fields)
    decreases |input| - pos
  {
    if pos < |input| {
      RunStep(ph, buf, input, pos);
      GoodStep(ph, buf, input[pos]);
      match Step(ph, buf, input[pos])
      case Stop(_, _, _) =>
      case Next(ph', buf') => GoodRun(ph', buf', input, pos + 1);
    }
  }

  /**
   * A good phase other than the host value is re-entered exactly by the
   * state it stores: the sub-function rescans to the same fill index.
   */
  lemma Reentry(ph: Phase, buf: seq<byte>, input: seq<byte>, k: nat)
    requires PhaseOk(ph, buf) && Good(ph, buf) && k < |input|
    requires !(ph.Host? && ph.hostFill.Some?)
    ensures Entry(StateOf(ph)).Some? && PhaseOk(Entry(StateOf(ph)).value, buf)
    ensures Good(Entry(StateOf(ph)).value, buf)
    ensures Run(Entry(StateOf(ph)).value, buf, input, k) == Run(ph, buf, input, k)
  {
    if ph.Path? && ph.pathFill.Some? {
      PathReentry(ph.pathFill.value, buf, input, k);
    } else {
      assert Entry(StateOf(ph)) == Some(ph);
    }
  }

  /** The path state re-entered from RT_URI rescans to the fill index it paused at. */
  lemma PathReentry(f: nat, buf: seq<byte>, input: seq<byte>, k: nat)
    requires PathFilled(f, buf) && k < |input|
    ensures Good(Path(None), buf)
    ensures Run(Path(None), buf, input, k) == Run(Path(Some(f)), buf, input, k)
  {
    StrlenIs(buf, f);
    RunStep(Path(None), buf, input, k);
    RunStep(Path(Some(f)), buf, input, k);
  }

  /**
   * Pausing in the host value stores RT_HOST plus the number of host bytes,
   * past RT_HOST and, while req_fields has at most 242 bytes, below 256.
   */
  lemma HostPauseState(f: nat, w: nat, buf: seq<byte>)
    requires Good(Host(Some(f), w), buf) && |buf| <= 242
    ensures StateOf(Host(Some(f), w)) == RT_HOST + w
    ensures RT_HOST < StateOf(Host(Some(f), w)) && Entry(StateOf(Host(Some(f), w))).None?
  {
  }

  /**
   * Two reads of one request: reqparser_feed on the first chunk, then, from
   * the state and req_fields it leaves, on the second. Starting from a good
   * state (a zeroed req_fields at RT_METHOD_0 is one, by `ZeroedGood`) in a
   * req_fields of at most 242 bytes:
   * - if the first call stops, it stops as the whole request would;
   * - if it asks for more data in a state up to RT_HOST, the second call
   *   ends as the whole request would, its cursor counted from the second
   *   chunk, and the state it resumes from is good again;
   * - if it asks for more data past RT_HOST (the split came after a host
   *   byte), the second call is undefined.
   */
  lemma FeedSplit(s: int, buf: seq<byte>, a: seq<byte>, b: seq<byte>)
    requires Entry(s).Some? && Good(Entry(s).value, buf) && |buf| <= 242
    requires a != [] && b != []
    ensures var r1 := FeedResult(s, buf, a, 0);
      var r := FeedResult(s, buf, a + b, 0);
      && (r1.completion != ReqParser.NeedsMoreData ==> r == r1)
      && (r1.completion == ReqParser.NeedsMoreData && r1.state <= RT_HOST ==>
            && Entry(r1.state).Some? && Good(Entry(r1.state).value, r1.fields)
            && |a| <= r.cursor
            && FeedResult(r1.state, r1.fields, b, 0) == r.(cursor := r.cursor - |a|))
      && (r1.completion == ReqParser.NeedsMoreData && RT_HOST < r1.state ==>
            FeedResult(r1.state, r1.fields, b, 0).completion == ReqParser.Undefined)
  {
    var ph := Entry(s).value;
    var o1 := Run(ph, buf, a, 0);
    ChunkPrefix(ph, buf, a, b);
    if o1.completion == ReqParser.NeedsMoreData {
      GoodRun(ph, buf, a, 0);
      RunKeepsLength(ph, buf, a, 0);
      var q := o1.phase;
      if q.Host? && q.hostFill.Some? {
        HostPauseState(q.hostFill.value, q.written, o1.fields);
      } else {
        SecondChunk(q, o1.fields, a, b);
      }
    }
  }

  /** The machine on the first chunk agrees with the machine on both, up to the first chunk's end. */
  lemma ChunkPrefix(ph: Phase, buf: seq<byte>, a: seq<byte>, b: seq<byte>)
    requires PhaseOk(ph, buf)
    ensures var o := Run(ph, buf, a, 0);
      Run(ph, buf, a + b, 0) == if o.completion == ReqParser.NeedsMoreData then Run(o.phase, o.fields, a + b, |a|) else o
  {
    assert (a + b)[..|a|] == a;
    RunPrefix(ph, buf, a + b, 0, |a|);
  }

  /**
   * The second call, from the state a good pause outside the host value
   * stores, is the rest of the machine on both chunks, its cursor counted
   * from the second chunk.
   */
  lemma SecondChunk(q: Phase, fields: seq<byte>, a: seq<byte>, b: seq<byte>)
    requires PhaseOk(q, fields) && Good(q, fields) && b != []
    requires !(q.Host? && q.hostFill.Some?)
    ensures Entry(StateOf(q)).Some? && Good(Entry(StateOf(q)).value, fields)
    ensures var o := Run(q, fields, a + b, |a|);
      |a| <= o.cursor && FeedResult(StateOf(q), fields, b, 0) == Observe(o).(cursor := o.cursor - |a|)
  {
    var input := a + b;
    assert input[|a|..] == b;
    Reentry(q, fields, input, |a|);
    var e := Entry(StateOf(q)).value;
    var o := Run(q, fields, input, |a|);
    RunDrop(e, fields, input, |a|, |a|);
    var o2 := Run(e, fields, b, 0);
    assert o2 == Shifted(o, |a|);
    assert FeedResult(StateOf(q), fields, b, 0) == Observe(o2);
    ObserveShifted(o, |a|);
  }

  /** Observing commutes with moving the cursor. */
  lemma ObserveShifted(o: Outcome, j: nat)
    requires j <= o.cursor
    ensures Observe(Shifted(o, j)) == Observe(o).(cursor := o.cursor - j)
  {
  }
}
