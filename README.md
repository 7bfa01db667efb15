# httpsd — a verified model of the request parsers, connection pools and epoll loops

httpsd is a tiny Linux HTTP server whose only job is to redirect every
request to `https://<Host><path>`. A request is read from a non-blocking
socket chunk by chunk, fed to an incremental parser that keeps only the
path and the `Host` header value in a small per-connection buffer
(`req_fields`), and answered with a `301 Moved Permanently` (or a `414 URI
Too Long` when the two do not fit). The response is rebuilt on every
writable notification and sent from where the previous `write` stopped. An
epoll loop accepts sockets, routes readiness events to the connections and
drops connections whose 2-second timeout has passed.

The repository holds two revisions of this core, and both are modelled:

* the current one, under `src/`: `reqparser.c` (the parser),
  `conn.c` (the pool of 28 connections with its response writers),
  `epoll.c` (the event loop) and `util.c` (`util_reverse`);
* the older one, at the top level:
  * `reqparser.c`, `conn.c` (16 connections), `epoll.c` and `util.c`;
  * the first-generation `parser.c` and `client.c` (16 clients), which the
    later files replaced.

## How the model is organised

| Dafny module (file) | models |
|---|---|
| `Bytes` (bytes.dfy) | octets, `strlen`, NUL-terminated runs |
| `Bitmap` (bitmap.dfy) | the occupancy bitmaps of the three pools |
| `Util` (util.dfy) | `util_reverse`, `memmove`, `memset` on arrays |
| `ReqFields` (req_fields.dfy) | the `path NUL host [NUL]` layout and `reqparser_fix_req_fields` |
| `ReqParser`, `ReqParserFacts`, `ReqParserResume` | src/reqparser.c |
| `LegacyReqParser`, `LegacyReqParserFacts`, `LegacyReqParserResume` | reqparser.c |
| `SimpleParser`, `SimpleParserFacts` | parser.c |
| `Response` (response.dfy) | the redirect and 414 writers and the write loop |
| `Conn`, `ConnFacts` | src/conn.c |
| `LegacyConn` | conn.c |
| `Client` | client.c |
| `Reactor` (reactor.dfy) | the system calls and the world both loops act on |
| `Epoll`, `LegacyEpoll`, `EpollFacts` | src/epoll.c and epoll.c |

Each parser is specified twice:

* as a pure byte-at-a-time machine (`Step`, `Run`, `FeedResult`);
* by the C functions, written as imperative methods on a class `Args`
  (`struct reqparser_args`) whose contracts tie the new state to that
  machine.

The lemmas then state what the machine does with whole requests, and with
requests split over two reads. Each pool is a class holding an array of
connection slots and a bitmap, and each method's contract gives the new
state as a function of the old one.

The event loops are classes over a `Kernel` object that replays scripted
system-call results. Each handler is proved to leave the loop in the state
a pure function of the whole world (`Reactor.World`) gives. The lemmas in
`EpollFacts` say what those functions promise:

* the timeout sweep closes exactly the expired connections and computes the
  least pending timeout;
* every accepted socket is registered;
* each way a read, a send or an event can end drops, keeps or fails the
  connection as the source says.

The `assert` and `F_ASSERT` checks of the C code are modelled in two forms.
In the parsers (`ReqParser`, `LegacyReqParser`) a failed check is the
outcome `AssertionFailure`, and a read outside `req_fields` is `Undefined`.
In the connection pool of src/conn.c and in the event loops (`Conn`,
`Reactor`, `Epoll`, `LegacyEpoll`) a failed `assert` is a `None` result: for
example `Conn.Receive` on a slot not in use, or `Epoll.HandleEvent` and
`LegacyEpoll.HandleEvent` on an event whose flags the source asserts against.
The response writers' capacity asserts are a `None` length. Neither is an assumption. The one out-of-bounds read of the
response writers is the exception: they are modelled with the bounded host
scan, and the read as written is stated separately (see Left out and
Findings).

## Model

| member | source | states |
|---|---|---|
| Bitmap.Empty | src/conn.c:64 | a zero-initialised bitmap has the word's width and no id in use |
| Bitmap.Members | src/conn.c:60-64 | the set of ids the bitmap marks as in use, between conn_new and conn_free: the ids below the pool size whose bits are set (the set conn_for_each enumerates, by AscendingMembers) |
| Bitmap.LowestFree | src/conn.c:71-82 | conn_new's first-fit scan: -1 exactly when every slot is taken, otherwise a clear bit with every lower bit set |
| Bitmap.LowestFreeFrom | src/conn.c:73-80 | the same scan resumed from `from`: the lowest clear id in [from, n), or -1 when none is clear |
| Bitmap.Ascending | src/conn.c:95-101 | the ids conn_for_each visits are in use, below the pool size and strictly ascending |
| Bitmap.AscendingComplete | src/conn.c:95-101 | conn_for_each visits every id in use |
| Bitmap.AscendingMembers | src/conn.c:95-101 | conn_for_each visits exactly the members, each once, in ascending order |
| Bitmap.AllocateAdds | src/conn.c:77 | setting the bit of the lowest free id adds exactly that id to the ids in use |
| Bitmap.FreeRemoves | src/conn.c:86 | clearing a bit removes exactly that id from the ids in use |
| Bytes.Zeros | src/conn.c:92 | `memset(req_fields, 0, n)` leaves n NUL bytes |
| Bytes.Strlen | src/conn.c:192 | strlen is the index of the first NUL: no NUL before it, a NUL at it unless the buffer holds none |
| Bytes.RunLength | src/conn.c:194-199 | the host scan's length: every byte of the run is non-NUL and a NUL or the end of the buffer follows |
| Bytes.LastNul | src/reqparser.c:269-275 | reqparser_host's downward scan finds the highest NUL, and None exactly when the buffer holds no NUL |
| Bytes.StrlenOfPrefix | src/conn.c:192 | strlen of a NUL-free prefix followed by a NUL is the prefix's length |
| Bytes.RunLengthOf | src/conn.c:194-199 | a NUL-free run followed by NUL or the buffer's end is what the host scan measures |
| Bytes.StrlenIs | src/conn.c:192 | strlen is determined by the first NUL |
| Bytes.LastNulIs | src/reqparser.c:272-275 | the downward scan stops at the highest NUL |
| Util.Reversed | src/util.c:5-16 | the reference reversal keeps the length |
| Util.ReversedAt | src/util.c:5-16 | byte k of the reversal is byte n-1-k of an input of n bytes |
| Util.ReversedTwice | src/util.c:5-16 | reversing twice gives back the input |
| Util.ReverseRange | src/util.c:5-16 | reversing an inclusive range keeps the length of the buffer |
| Util.ReverseRangeAt | src/util.c:5-16 | inside [start, end] byte k becomes byte start+end-k; outside the range nothing changes |
| Util.ReverseRangeTwice | src/util.c:5-16 | reversing the same range twice restores the buffer |
| Util.Swapped | src/util.c:7-15 | the swap loop keeps the length |
| Util.SwappedAt | src/util.c:7-15 | the swap loop mirrors the range and leaves the rest alone |
| Util.SwappedReverses | src/util.c:7-15 | the swap loop computes the range reversal (its independent reference) |
| Util.Reverse | src/util.c:5-16 | util_reverse leaves the inclusive range [start, end] reversed and the rest unchanged; start >= end changes nothing |
| Util.Moved | src/reqparser.c:321-322 | memmove keeps the buffer's length |
| Util.MovedAt | src/reqparser.c:321-322 | after memmove the destination holds the source's old bytes and nothing else changed |
| Util.CopiedDown | src/reqparser.c:321-322 | a front-to-back byte copy keeps the length |
| Util.CopiedDownAt | src/reqparser.c:321-322 | a front-to-back copy to a lower address reads each byte before overwriting it |
| Util.CopiedDownMoves | src/reqparser.c:321-322 | the front-to-back copy to a lower address is memmove |
| Util.CopiedUp | src/reqparser.c:321-322 | a back-to-front byte copy keeps the length |
| Util.CopiedUpAt | src/reqparser.c:321-322 | a back-to-front copy to a higher address reads each byte before overwriting it |
| Util.CopiedUpMoves | src/reqparser.c:321-322 | the back-to-front copy to a higher address is memmove |
| Util.MemMove | src/reqparser.c:321-322 | the array after memmove is the memmove reference on its old contents, for overlaps in either direction |
| Util.MemMoveDown | src/reqparser.c:321-322 | the front-to-back loop leaves the front-to-back copy |
| Util.MemMoveUp | src/reqparser.c:321-322 | the back-to-front loop leaves the back-to-front copy |
| Util.MemZero | src/conn.c:92 | memset to zero leaves every byte NUL |
| ReqFields.FixedFields | src/reqparser.c:304-328 | fixing the fields keeps req_fields' length |
| ReqFields.PackHost | src/reqparser.c:316-327 | the memmove and the final NUL keep req_fields' length |
| ReqFields.HostPending | src/reqparser.c:290-294 | the buffer the host state leaves before CR: path, NUL, zeros, host last byte first |
| ReqFields.PendingReversed | src/reqparser.c:313-314 | reversing the host span of the pending layout restores the host's received order |
| ReqFields.PackHostAt | src/reqparser.c:316-327 | after packing, the bytes up to the path's NUL are kept, the host follows the NUL and a NUL follows the host |
| ReqFields.MovedLayout | src/reqparser.c:319-327 | moving the host next to the path's NUL and terminating it gives `path NUL host [NUL]` |
| ReqFields.FixedFieldsLayout | src/reqparser.c:304-328 | reqparser_fix_req_fields turns the pending layout into `path NUL host [NUL]`, with the host in received order |
| ReqFields.PackedLayoutDecodes | src/conn.c:192-199 | the response writer's strlen and host scan give back exactly the path and the host that were packed |
| ReqParser.StateOf | src/reqparser.c:25-57 | the uint8_t state each phase stores fits a byte |
| ReqParser.Entry | src/reqparser.c:84-110 | reqparser_feed dispatches exactly the states RT_METHOD..RT_HOST, to a phase storing that state; any other state hits F_ASSERT_UNREACHABLE |
| ReqParser.PathByte | src/reqparser.c:156-199 | one path byte keeps req_fields' length and leaves a phase whose next byte is defined |
| ReqParser.HostByte | src/reqparser.c:277-301 | one host byte keeps req_fields' length and leaves a phase whose next byte is defined |
| ReqParser.Step | src/reqparser.c:77-128 | one input byte in any phase keeps req_fields' length and leaves a phase whose next byte is defined |
| ReqParser.Run | src/reqparser.c:77-128 | the machine never moves past data_end, and it asks for more data exactly when it consumed the whole input |
| ReqParser.RunFrom | src/reqparser.c:77-128 | the same, from a byte that is present |
| ReqParser.RunStep | src/reqparser.c:77-128 | running from a byte is the step on that byte, then the run from the next byte unless the step stopped |
| ReqParser.PathPush | src/reqparser.c:179-198 | a path byte below the length bound is stored at the fill index and the fill index moves up by one |
| ReqParser.HeaderLeavesRun | src/reqparser.c:236-265 | reqparser_header_name hands over to a state reqparser_feed dispatches, after consuming at least one byte, and the machine goes on from there unchanged |
| ReqParser.HostTailRuns | src/reqparser.c:277-301 | the shape of reqparser_host's loop is the machine itself from that host phase |
| ReqParser.HostEntry | src/reqparser.c:267-276 | entering the host state fails its F_ASSERT on an empty or NUL-free req_fields, and otherwise runs from the highest NUL |
| ReqParser.FeedResult | src/reqparser.c:77-128 | reqparser_feed never moves the cursor back or past data_end |
| ReqParser.HeaderResumes | src/reqparser.c:236-265 | reqparser_header_name's RS_EOF/RS_CONTINUE agree with the machine at the handover |
| ReqParser.Args.constructor | src/reqparser.c:117-122 | struct reqparser_args as conn_recv fills it in: the stored state, the input and req_fields |
| ReqParser.Feed | src/reqparser.c:77-128 | reqparser_feed's completion, new state, req_fields and cursor are exactly FeedResult on the old state and req_fields |
| ReqParser.ParseMethod | src/reqparser.c:130-148 | reqparser_method moves the cursor on RS_CONTINUE, never completes, and stops or hands over where the machine does |
| ReqParser.ParsePath | src/reqparser.c:150-200 | reqparser_path finds the fill index with strlen and then agrees with the machine from the path phase |
| ReqParser.PathBytes | src/reqparser.c:156-199 | the path loop from a known fill index agrees with the machine |
| ReqParser.ParseSkipLine | src/reqparser.c:202-219 | reqparser_skip_line agrees with the machine in the skip-line phase |
| ReqParser.ParseLf | src/reqparser.c:221-234 | reqparser_lf agrees with the machine in the LF phase |
| ReqParser.ParseHeaderName | src/reqparser.c:236-265 | reqparser_header_name leaves the state and cursor of the handover and returns RS_EOF or RS_CONTINUE accordingly |
| ReqParser.ParseHost | src/reqparser.c:267-302 | reqparser_host agrees with the machine; on RS_COMPLETE req_fields is the fixed, packed layout |
| ReqParser.HostBytes | src/reqparser.c:277-301 | the host loop from a known fill index stops where the machine does, with the fill index the packing needs |
| ReqParser.FixReqFields | src/reqparser.c:304-328 | reqparser_fix_req_fields leaves exactly FixedFields of the old req_fields |
| ReqParser.PackHostAfter | src/reqparser.c:316-327 | the memmove and the terminating NUL leave exactly PackHost of the old contents |
| ReqParser.LastNulOf | src/reqparser.c:269-275 | the downward scan returns the highest NUL of req_fields |
| ReqParser.StrlenOf | src/reqparser.c:316 | the strlen call returns the index of the first NUL |
| ReqParserFacts.FeedCursor | src/reqparser.c:77-128 | the cursor stays within the input, reaches data_end exactly on PC_NEEDS_MORE_DATA, and an empty input fails F_ASSERT |
| ReqParserFacts.MethodToSpace | src/reqparser.c:130-148 | the method state consumes everything up to and including the first space, then enters the path state |
| ReqParserFacts.MethodNoSpace | src/reqparser.c:130-148 | without a space the method state consumes the whole input and asks for more |
| ReqParserFacts.SkipToCr | src/reqparser.c:202-219 | the skip-line state consumes everything up to and including the first CR, then expects LF |
| ReqParserFacts.LfRejects | src/reqparser.c:224-225 | any byte other than LF after the CR is bad data, with state and req_fields untouched |
| ReqParserFacts.LfStep | src/reqparser.c:224-233 | LF after the CR starts a header name |
| ReqParserFacts.HeaderMatches | src/reqparser.c:240-264 | bytes that spell the rest of "Host: " lead to the host state |
| ReqParserFacts.HeaderMismatch | src/reqparser.c:246-254 | the first byte that differs from "Host: ", case included, is consumed and the line is skipped |
| ReqParserFacts.PathRejects | src/reqparser.c:150-194 | a NUL, an empty path or a first byte other than '/' is bad data; a req_fields with no NUL makes the fill-index scan read past it |
| ReqParserFacts.PathWritten | src/reqparser.c:192-193 | the path writes keep req_fields' length |
| ReqParserFacts.PathWrittenAt | src/reqparser.c:192-193 | path bytes are stored upwards from the fill index in input order, nothing else is written |
| ReqParserFacts.PathRun | src/reqparser.c:179-198 | path bytes are appended at the fill index while it stays at most req_fields_len - 2 |
| ReqParserFacts.PathSpace | src/reqparser.c:164-178 | the delimiting space writes a NUL at the fill index and moves to skipping the line |
| ReqParserFacts.PathFillBound | src/reqparser.c:186-189 | the fill index never passes req_fields_len - 2, and one more path byte there is PC_BUFFER_TOO_SMALL |
| ReqParserFacts.PastPathStays | src/reqparser.c:202-302 | after the request line the machine never returns to the path state |
| ReqParserFacts.SkipLineNeverPath | src/reqparser.c:202-302 | from the skip-line state the path state is never reached |
| ReqParserFacts.HostWritten | src/reqparser.c:293-294 | the host writes keep req_fields' length and do not touch the slot below the last write |
| ReqParserFacts.HostRun | src/reqparser.c:277-301 | host bytes other than CR are written backwards from the fill index while each lands on a NUL with a NUL below it |
| ReqParserFacts.HostWrittenAt | src/reqparser.c:293-294 | host bytes are stored downwards from the fill index, last byte lowest, nothing else is written |
| ReqParserFacts.HostStep | src/reqparser.c:278-291 | CR with an empty host is bad data; CR otherwise completes with the fields fixed; a missing NUL below the fill index is PC_BUFFER_TOO_SMALL |
| ReqParserFacts.KeptBelowStep | src/reqparser.c:290-293 | writing a host byte into a NUL that follows a NUL keeps every protected byte |
| ReqParserFacts.HostKeepsPath | src/reqparser.c:290-293 | the host state never overwrites a non-NUL byte nor the NUL that ends the path |
| ReqParserFacts.PathEntry | src/reqparser.c:152-154 | entering the path state, the fill index is strlen of req_fields |
| ReqParserFacts.Request | src/reqparser.c:130-302 | the minimal request the parser accepts: request line, then `Host: host` and CR; its length |
| ReqParserFacts.RequestHead | src/reqparser.c:130-234 | the request line `verb SP path SP rest CR LF`; its length |
| ReqParserFacts.HostLine | src/reqparser.c:236-302 | the header line `Host: host CR`; its length |
| ReqParserFacts.HeadBytes | src/reqparser.c:130-234 | each part of the request line sits where the parser expects it |
| ReqParserFacts.LineAtPrefix | src/reqparser.c:130-234 | bytes after a request line leave it in place |
| ReqParserFacts.HostLineBytes | src/reqparser.c:236-302 | each part of the Host line sits where the parser expects it |
| ReqParserFacts.RequestFramed | src/reqparser.c:130-302 | `Request` builds an input framed as a request line and a Host line |
| ReqParserFacts.MethodLine | src/reqparser.c:130-154 | the method and its space lead to the path state with fill index 0 on a zeroed req_fields |
| ReqParserFacts.PathLine | src/reqparser.c:156-199 | the path and its space leave the path at index 0 followed by NUL and zeros |
| ReqParserFacts.PathBytesAt | src/reqparser.c:156-199 | a path segment of the input starts with '/' and holds no NUL and no space |
| ReqParserFacts.PathOverZeros | src/reqparser.c:171-193 | writing the path over zeros and terminating it leaves the path followed by zeros |
| ReqParserFacts.LineEnd | src/reqparser.c:202-234 | the rest of the request line, its CR and LF lead to the first header name |
| ReqParserFacts.NoCrAt | src/reqparser.c:205 | a CR-free segment of the input holds no CR at any of its indices |
| ReqParserFacts.RequestLine | src/reqparser.c:130-234 | the whole request line on a zeroed req_fields stores the path at index 0 and reaches the header line |
| ReqParserFacts.HostName | src/reqparser.c:236-276 | "Host: " leads to the host loop from the last index of req_fields |
| ReqParserFacts.HostValue | src/reqparser.c:277-301 | the host bytes are written backwards from the last index and the final CR completes, with the pending layout |
| ReqParserFacts.HostPendingWritten | src/reqparser.c:293-294 | the host bytes written backwards above the zeros give the pending layout |
| ReqParserFacts.FeedFromMethod | src/reqparser.c:77-128 | a feed in RT_METHOD is the machine from the method phase, as the caller sees it |
| ReqParserFacts.ObserveCompleted | src/reqparser.c:113-114 | a completion in the host phase is seen as PC_COMPLETE with state RT_HOST plus the host length, mod 256 |
| ReqParserFacts.ObservedLayout | src/reqparser.c:284-285 | on completion the caller sees req_fields packed as `path NUL host [NUL]` |
| ReqParserFacts.ObservePacked | src/reqparser.c:284-285 | on completion below the last index the caller sees the fixed fields |
| ReqParserFacts.RequestRun | src/reqparser.c:77-302 | a whole request completes on the Host line's CR, in the host phase, with the host pending above the zeros |
| ReqParserFacts.FramedRun | src/reqparser.c:77-302 | the same for any input framed as a request |
| ReqParserFacts.FramedLine | src/reqparser.c:130-234 | a framed request line stores the path and reaches the header line |
| ReqParserFacts.FramedHost | src/reqparser.c:236-302 | a framed Host line completes on its CR with the host pending |
| ReqParserFacts.RequestEnds | src/reqparser.c:77-302 | the machine stops with PC_COMPLETE on the Host line's CR |
| ReqParserFacts.RequestObserved | src/reqparser.c:77-328 | what the caller sees of a whole request is req_fields packed as `path NUL host [NUL]` |
| ReqParserFacts.WholeRequestCompletes | src/reqparser.c:77-128 | a request fed at once into a big enough zeroed req_fields returns PC_COMPLETE on the Host line's CR, with the host length counted into the state |
| ReqParserFacts.WholeRequestPacked | src/reqparser.c:304-328 | the same feed leaves req_fields as `path NUL host [NUL]`, which the response writers decode back to the path and host |
| ReqParserResume.RunPrefix | src/reqparser.c:77-128 | the machine on a prefix of the input agrees with the machine on the whole input up to the prefix's end |
| ReqParserResume.RunKeepsLength | src/reqparser.c:77-128 | the machine never changes req_fields' length |
| ReqParserResume.Shifted | src/reqparser.c:77-128 | moving an outcome's cursor j bytes back |
| ReqParserResume.RunDrop | src/reqparser.c:77-128 | the machine does not depend on the bytes before its cursor |
| ReqParserResume.ZeroedGood | src/conn.c:88-92 | a zeroed req_fields of at least two bytes is a good starting point for RT_METHOD |
| ReqParserResume.GoodStep | src/reqparser.c:77-302 | one consumed byte keeps a phase in which the parser can be resumed |
| ReqParserResume.GoodPathByte | src/reqparser.c:156-199 | one consumed path byte keeps the path re-findable by strlen |
| ReqParserResume.GoodHostByte | src/reqparser.c:277-301 | one consumed host byte keeps the host phase resumable |
| ReqParserResume.GoodRun | src/reqparser.c:77-302 | wherever a run from a good phase pauses for more data, the phase is good |
| ReqParserResume.Reentry | src/reqparser.c:84-110 | outside the host value, the stored state is re-entered at exactly the paused phase, with the same fill index |
| ReqParserResume.PathReentry | src/reqparser.c:152-154 | re-entering RT_URI rescans to the fill index the path paused at |
| ReqParserResume.HostPauseState | src/reqparser.c:297 | pausing in the host value stores RT_HOST plus the host bytes so far, past RT_HOST, which reqparser_feed does not dispatch |
| ReqParserResume.FeedSplit | src/reqparser.c:77-128 | a request split into two reads parses as if it arrived at once, except a split after a host byte, where the second call fails F_ASSERT_UNREACHABLE |
| ReqParserResume.ChunkPrefix | src/reqparser.c:77-128 | the machine on the first chunk agrees with the machine on both chunks up to the first chunk's end |
| ReqParserResume.SecondChunk | src/reqparser.c:77-128 | the second call, from a good paused state, is the rest of the machine on both chunks |
| ReqParserResume.ObserveShifted | src/reqparser.c:112-126 | what the caller sees commutes with moving the cursor |
| LegacyReqParser.StateOf | reqparser.c:6-38 | the uint8_t state each phase stores fits a byte |
| LegacyReqParser.Entry | reqparser.c:62-90 | the `switch` covers exactly the states RT_METHOD_0..RT_HOST, each dispatched to a phase storing it; any other state matches no `case` |
| LegacyReqParser.PathByte | reqparser.c:134-164 | one path byte keeps req_fields' length and leaves a phase whose next byte is defined |
| LegacyReqParser.HostByte | reqparser.c:235-255 | one host byte keeps req_fields' length and leaves a phase whose next byte is defined |
| LegacyReqParser.Step | reqparser.c:57-106 | one input byte in any phase keeps req_fields' length and leaves a phase whose next byte is defined |
| LegacyReqParser.Run | reqparser.c:57-106 | the machine never moves past data_end, and it asks for more data exactly when it consumed the whole input |
| LegacyReqParser.RunFrom | reqparser.c:57-106 | the same, from a byte that is present |
| LegacyReqParser.RunStep | reqparser.c:57-106 | running from a byte is the step on that byte, then the run from the next byte unless the step stopped |
| LegacyReqParser.HeaderLeavesRun | reqparser.c:201-227 | reqparser_header_name hands over to a state the `switch` dispatches, after consuming at least one byte, and the machine goes on from there unchanged |
| LegacyReqParser.HostTailRuns | reqparser.c:235-255 | the shape of reqparser_host's loop is the machine itself from that host phase |
| LegacyReqParser.HostEntry | reqparser.c:229-233 | entering the host state runs off an empty or NUL-free req_fields (undefined), and otherwise runs from the highest NUL |
| LegacyReqParser.FeedResult | reqparser.c:57-106 | reqparser_feed never moves the cursor back or past data_end |
| LegacyReqParser.HeaderResumes | reqparser.c:201-227 | reqparser_header_name's RS_EOF/RS_CONTINUE agree with the machine at the handover |
| LegacyReqParser.Args.constructor | reqparser.h:7-17 | struct reqparser_args: the stored uint8_t state, the input cursor and its end, and req_fields with its length |
| LegacyReqParser.Feed | reqparser.c:57-106 | reqparser_feed's completion, new state, req_fields and cursor are exactly FeedResult on the old state and req_fields |
| LegacyReqParser.ParseMethod | reqparser.c:108-126 | reqparser_method matches "GET /" one byte per state and agrees with the machine from the stored sub-index |
| LegacyReqParser.ParsePath | reqparser.c:128-165 | reqparser_path finds the fill index by scanning for a NUL and then agrees with the machine |
| LegacyReqParser.PathBytes | reqparser.c:134-164 | the path loop from a known fill index agrees with the machine |
| LegacyReqParser.ParseSkipLine | reqparser.c:167-184 | reqparser_skip_line agrees with the machine in the skip-line phase |
| LegacyReqParser.ParseLf | reqparser.c:186-199 | reqparser_lf agrees with the machine in the LF phase |
| LegacyReqParser.ParseHeaderName | reqparser.c:201-227 | reqparser_header_name leaves the state and cursor of the handover and returns RS_EOF or RS_CONTINUE accordingly |
| LegacyReqParser.ParseHost | reqparser.c:229-256 | reqparser_host agrees with the machine; on RS_COMPLETE req_fields is the fixed, packed layout |
| LegacyReqParser.HostBytes | reqparser.c:235-255 | the host loop from a known fill index stops where the machine does, with the fill index the packing needs |
| LegacyReqParser.FixReqFields | reqparser.c:258-280 | reqparser_fix_req_fields leaves exactly FixedFields of the old req_fields, also for an empty host |
| LegacyReqParserFacts.FeedCursor | reqparser.c:57-106 | the cursor stays within the input and reaches data_end exactly on PC_NEEDS_MORE_DATA; an empty input or an uncovered state is undefined |
| LegacyReqParserFacts.RunNeverAsserts | reqparser.c:57-280 | no run of the machine ends in an assertion failure |
| LegacyReqParserFacts.FeedNeverAsserts | reqparser.c:57-106 | reqparser_feed never ends in an assertion failure |
| LegacyReqParserFacts.MethodMatches | reqparser.c:108-126 | bytes that spell the rest of "GET /" lead to the path state |
| LegacyReqParserFacts.MethodMismatch | reqparser.c:114-115 | the first byte that differs from "GET /" is bad data, reported in front of it |
| LegacyReqParserFacts.MethodResumes | reqparser.c:62-69 | each "GET /" sub-state is stored as RT_METHOD_0 plus the bytes matched and dispatched back to the same phase |
| LegacyReqParserFacts.PathEntry | reqparser.c:130-141 | the fill-index scan runs off a NUL-free req_fields; otherwise it stops at strlen, and a NUL is bad data |
| LegacyReqParserFacts.EmptyPath | reqparser.c:142-150 | an immediate space is an empty path: no error, a NUL at index 0, then the rest of the line |
| LegacyReqParserFacts.PathSpace | reqparser.c:142-150 | the delimiting space writes a NUL at the fill index and moves to skipping the line |
| LegacyReqParserFacts.PathRun | reqparser.c:151-163 | path bytes are appended at the fill index while it stays at most req_fields_len - 2 |
| LegacyReqParserFacts.PathStops | reqparser.c:137-155 | a NUL is bad data; one more path byte at req_fields_len - 2 is PC_BUFFER_TOO_SMALL |
| LegacyReqParserFacts.PathFillBound | reqparser.c:152-155 | the fill index never passes req_fields_len - 2 |
| LegacyReqParserFacts.PastPathStays | reqparser.c:167-256 | after the request line the machine never returns to the method or path states |
| LegacyReqParserFacts.SkipToCr | reqparser.c:167-184 | the skip-line state consumes everything up to and including the first CR, then expects LF |
| LegacyReqParserFacts.LfStep | reqparser.c:186-199 | any byte other than LF after the CR is bad data, and LF starts a header name |
| LegacyReqParserFacts.HeaderMatches | reqparser.c:205-226 | bytes that spell the rest of "Host: " lead to the host state |
| LegacyReqParserFacts.HeaderMismatch | reqparser.c:208-216 | the first byte that differs from "Host: ", case included, is consumed and the line is skipped |
| LegacyReqParserFacts.HostRun | reqparser.c:235-255 | host bytes other than CR are written backwards from the fill index while each lands on a NUL with a NUL below it |
| LegacyReqParserFacts.HostStep | reqparser.c:236-245 | CR completes at any fill index, even with no host byte; a missing NUL below the fill index is PC_BUFFER_TOO_SMALL |
| LegacyReqParserFacts.EmptyHost | reqparser.c:229-240 | a CR right after "Host: " completes with nothing written, the pending layout of an empty host |
| LegacyReqParserFacts.HostName | reqparser.c:201-233 | "Host: " leads to the host loop from the last index of req_fields |
| LegacyReqParserFacts.HostValue | reqparser.c:235-255 | the host bytes are written backwards from the last index and the final CR completes, with the pending layout |
| LegacyReqParserFacts.GetRequest | reqparser.c:108-256 | the GET request the legacy parser accepts; its length |
| LegacyReqParserFacts.GetRequestAt | reqparser.c:108-256 | each part of the request sits where the parser expects it |
| LegacyReqParserFacts.MethodLine | reqparser.c:108-132 | "GET /" leads to the path state with fill index 0 on a zeroed req_fields |
| LegacyReqParserFacts.PathLine | reqparser.c:134-164 | the path and its space leave the path at index 0 followed by NUL and zeros |
| LegacyReqParserFacts.LineEnd | reqparser.c:167-199 | the rest of the request line, its CR and LF lead to the first header name |
| LegacyReqParserFacts.RequestLine | reqparser.c:108-199 | the request line on a zeroed req_fields stores the path, without its slash, at index 0 and reaches the header line |
| LegacyReqParserFacts.HostLine | reqparser.c:201-256 | the Host line over the stored path writes the host backwards and completes on its CR |
| LegacyReqParserFacts.RequestRun | reqparser.c:57-256 | a whole GET request completes on the Host line's CR with the host pending above the zeros |
| LegacyReqParserFacts.ObservedLayout | reqparser.c:237-239 | the caller sees PC_COMPLETE, the state RT_HOST plus the host length mod 256, and req_fields packed as `path NUL host [NUL]` |
| LegacyReqParserFacts.WholeRequest | reqparser.c:57-280 | a GET request fed at once into a big enough zeroed req_fields completes on the Host line's CR and leaves `path NUL host [NUL]`, even for an empty host |
| LegacyReqParserResume.RunPrefix | reqparser.c:57-106 | the machine on a prefix of the input agrees with the machine on the whole input up to the prefix's end |
| LegacyReqParserResume.RunKeepsLength | reqparser.c:57-106 | the machine never changes req_fields' length |
| LegacyReqParserResume.Shifted | reqparser.c:57-106 | moving an outcome's cursor j bytes back |
| LegacyReqParserResume.RunDrop | reqparser.c:57-106 | the machine does not depend on the bytes before its cursor |
| LegacyReqParserResume.ZeroedGood | conn.c:75-84 | a zeroed req_fields of at least two bytes is a good starting point for every "GET /" sub-state |
| LegacyReqParserResume.GoodStep | reqparser.c:57-256 | one consumed byte keeps a phase in which the parser can be resumed |
| LegacyReqParserResume.GoodPathByte | reqparser.c:134-164 | one consumed path byte keeps the path re-findable by the NUL scan |
| LegacyReqParserResume.GoodHostByte | reqparser.c:235-255 | one consumed host byte keeps the host phase resumable |
| LegacyReqParserResume.GoodRun | reqparser.c:57-256 | wherever a run from a good phase pauses for more data, the phase is good |
| LegacyReqParserResume.Reentry | reqparser.c:62-90 | outside the host value, the stored state is re-entered at exactly the paused phase, with the same fill index |
| LegacyReqParserResume.PathReentry | reqparser.c:130-132 | re-entering RT_URI rescans to the fill index the path paused at |
| LegacyReqParserResume.HostPauseState | reqparser.c:251 | pausing in the host value stores RT_HOST plus the host bytes so far, a state no `case` covers |
| LegacyReqParserResume.FeedSplit | reqparser.c:57-106 | a request split into two reads parses as if it arrived at once, also inside "GET /", except a split after a host byte, where the second call is undefined |
| LegacyReqParserResume.ChunkPrefix | reqparser.c:57-106 | the machine on the first chunk agrees with the machine on both chunks up to the first chunk's end |
| LegacyReqParserResume.SecondChunk | reqparser.c:57-106 | the second call, from a good paused state, is the rest of the machine on both chunks |
| LegacyReqParserResume.ObserveShifted | reqparser.c:92-104 | what the caller sees commutes with moving the cursor |
| SimpleParser.AfterReset | parser.c:3-8 | parser_reset returns to ps_method with tmp 0 and nothing stored, and leaves the buffers' bytes as they were |
| SimpleParser.Step | parser.c:54-152 | one consumed byte keeps both buffers' sizes and the fill lengths within them; a stop is pr_error or pr_finished |
| SimpleParser.Run | parser.c:17-52 | the run keeps the buffers' sizes and fill bounds, ends with pr_continue only at the input's end, and otherwise just past the byte that decided the result |
| SimpleParser.RunFrom | parser.c:17-52 | the same, from a byte that is present |
| SimpleParser.RunStep | parser.c:17-52 | the run from a byte is the step on it, then the rest of the run unless the step stopped |
| SimpleParser.FeedAsWritten | parser.c:17-52 | parser_feed as written reads at data_end exactly when the input is consumed with pr_continue, and otherwise returns the stopping result |
| SimpleParser.Parser.constructor | parser.c:3-8 | a parser over two distinct buffers, in the state parser_reset leaves |
| SimpleParser.Parser.Reset | parser.c:3-8 | parser_reset leaves exactly AfterReset of the old fields |
| SimpleParser.Parser.Feed | parser.c:17-52 | parser_feed, its loop ending at data_end, returns the run's result and leaves the run's fields |
| SimpleParser.Parser.DoMethod | parser.c:54-71 | parser_do_method consumes at least one byte and stops or continues where the run does |
| SimpleParser.Parser.DoUri | parser.c:73-91 | parser_do_uri consumes at least one byte and stops or continues where the run does |
| SimpleParser.Parser.DoIgnoreLine | parser.c:93-103 | parser_do_ignore_line consumes at least one byte and continues where the run does |
| SimpleParser.Parser.DoLf | parser.c:105-114 | parser_do_lf consumes exactly one byte and stops or continues where the run does |
| SimpleParser.Parser.DoHeaderName | parser.c:116-134 | parser_do_header_name always returns pr_continue and continues where the run does |
| SimpleParser.Parser.DoHost | parser.c:136-152 | parser_do_host consumes at least one byte and stops or continues where the run does |
| SimpleParserFacts.MethodPrefix | parser.c:57-68 | bytes that match "GET " short of the whole string only advance tmp |
| SimpleParserFacts.MethodMatches | parser.c:63-67 | the rest of "GET " enters ps_uri with tmp back at 0 |
| SimpleParserFacts.MethodRejects | parser.c:58-61 | the first byte that differs from "GET " is pr_error just past it, with tmp already moved |
| SimpleParserFacts.StoredAfter | parser.c:86-87 | the bytes stored so far, followed by the newly stored input bytes |
| SimpleParserFacts.UriRun | parser.c:74-88 | URI bytes other than a space are stored one after another while they fit |
| SimpleParserFacts.UriSpace | parser.c:76-79 | the space after the URI is not stored and leads to ps_ignore_line |
| SimpleParserFacts.UriTooLong | parser.c:81-84 | a URI longer than its buffer stores what fits and then yields pr_error |
| SimpleParserFacts.SkipToCr | parser.c:93-103 | ps_ignore_line skips everything up to and including the CR, then expects LF |
| SimpleParserFacts.LfStep | parser.c:105-114 | after the CR, LF leads to ps_header_name and any other byte is pr_error |
| SimpleParserFacts.HeaderPrefix | parser.c:119-131 | bytes that match "Host: " short of the whole string only advance tmp |
| SimpleParserFacts.HeaderMatches | parser.c:126-130 | the rest of "Host: " enters ps_host with tmp back at 0 |
| SimpleParserFacts.HeaderMismatch | parser.c:120-124 | a mismatching header byte is consumed and the line is skipped, with tmp back at 0 |
| SimpleParserFacts.HostRun | parser.c:137-149 | Host bytes other than CR are stored one after another while they fit |
| SimpleParserFacts.HostCr | parser.c:139-140 | the CR ending the Host value is pr_finished, whatever is stored |
| SimpleParserFacts.HostTooLong | parser.c:142-145 | a Host value longer than its buffer stores what fits and then yields pr_error |
| SimpleParserFacts.GetRequest | parser.c:54-152 | the request `GET uri SP rest CR LF Host: host CR`; its length |
| SimpleParserFacts.GetRequestAt | parser.c:54-152 | each part of the request sits where the parser expects it |
| SimpleParserFacts.UriLine | parser.c:73-91 | the URI and its space store the URI from index 0 and move to skipping the line |
| SimpleParserFacts.LineEnd | parser.c:93-114 | the rest of the request line, its CR and LF lead to ps_header_name |
| SimpleParserFacts.RequestLine | parser.c:54-114 | the request line from a reset parser stores the URI and reaches ps_header_name |
| SimpleParserFacts.RequestLineAt | parser.c:54-114 | the same for any input that starts with the request line |
| SimpleParserFacts.HostLine | parser.c:116-152 | the Host line stores the host and finishes on its CR with the whole input consumed |
| SimpleParserFacts.HostLineAt | parser.c:116-152 | the same for any input that ends with the Host line |
| SimpleParserFacts.WholeRequest | parser.c:17-152 | a whole request fed to a reset parser with room for URI and host finishes on the final CR, with the URI and the host stored |
| SimpleParserFacts.RunPrefix | parser.c:17-52 | the parser on a prefix agrees with the parser on the whole input up to the prefix's end |
| SimpleParserFacts.RunDrop | parser.c:17-52 | the parser does not depend on the bytes before its cursor |
| SimpleParserFacts.FeedSplit | parser.c:17-52 | a request split over two feeds ends as if it arrived at once, wherever the split falls |
| SimpleParserFacts.AsWrittenReadsPastEnd | parser.c:22-48 | as written, parser_feed on "GET " calls parser_do_uri at data_end and reads past the input |
| SimpleParserFacts.AsWrittenEmpty | parser.c:22-48 | as written, parser_feed on an empty input reads at data_end |
| SimpleParserFacts.CorrectedFeedContinues | parser.c:17-52 | the loop that stops at data_end returns pr_continue on "GET ", in ps_uri with nothing stored |
| Response.Decimal | src/conn.c:228-231 | the decimal digits written for a Content-Length: at least one, each '0'..'9' |
| Response.Digit | src/conn.c:228-231 | one decimal digit character and its value |
| Response.DecimalRoundTrip | src/conn.c:228-231 | reading the written digits back gives the number |
| Response.Framed | src/conn.c:228-231 | a response framed with a Content-Length ends with its body |
| Response.TooLongFramed | src/conn.c:226-236 | the 414 literal is its 45-byte body framed with Content-Length 45, and it fits the 512-byte util_tmp_buf, so the capacity assert holds |
| Response.HostEndAsWritten | src/conn.c:194-198 | the as-written host scan stops at the first NUL from the host's start, and reads past req_fields (None) exactly when no NUL follows |
| Response.HostEndAgrees | src/conn.c:194-199 | the as-written scan and the bounded run agree exactly when a NUL ends the host |
| Response.HostFillsEnd | src/conn.c:196-198 | when path, NUL and host fill req_fields, the as-written scan reads past its end |
| Response.Redirect | src/conn.c:177-224 | the redirect starts with the 301 header and ends with the footer, its length within bounds; there is none exactly when req_fields holds no NUL |
| Response.RedirectParts | src/conn.c:183-221 | the redirect is header, host run, `/`, path up to strlen, footer |
| Response.RedirectOfLayout | src/conn.c:177-224 | on the parser's packed layout the Location is `https://` host `/` path, exactly the parsed fields |
| Response.RedirectFits | src/conn.c:186-219 | a redirect from a 242-byte req_fields with either footer fits the 512-byte buffer, so no capacity assert fails |
| Response.DrainFrom | src/conn.c:154-169 | the write loop's counter only grows up to the total, the loop ends drained exactly when it reaches the total, and it consumes a prefix of the write results |
| Response.Deliver | src/conn.c:139-170 | one send call: nothing happens without a response; otherwise the socket gets exactly the bytes from the old counter to the new one, drained exactly at the end, and a first blocked write keeps the counter |
| Response.WriteLoop | src/conn.c:154-169 | the loop over util_tmp_buf ends as DrainFrom says, with that counter and write results left, and the socket got buf[sent..sent'] |
| Response.DrainStep | src/conn.c:159-168 | a write that takes n of the remaining bytes moves the drain on by n |
| Response.DeliverFrom | src/conn.c:147-169 | rebuilding into the buffer then looping is exactly Deliver on the response |
| Response.AddSent | src/conn.c:46 | the 12-bit res_bytes_sent wraps below 4096 and keeps a sum it can hold |
| Response.CopyInto | src/conn.c:187 | memcpy at an offset keeps the prefix, appends the source and leaves the rest |
| Response.WriteWhole | src/conn.c:232-235 | the literal is copied when it fits the capacity, and its length is returned |
| Response.RunEnd | src/conn.c:192-198 | the bounded scan returns the end of the NUL-free run |
| Response.StrlenRun | src/conn.c:192 | strlen is the NUL-free run from index 0 |
| Response.RedirectWithin | src/conn.c:186-219 | the redirect within a capacity: when present it fits and is the redirect; absent only for a NUL-free req_fields or an overflow |
| Response.WriteRedirect | src/conn.c:177-224 | the buffer holds exactly the redirect, and its length is returned, exactly when it exists and fits |
| Response.WriteParts | src/conn.c:183-223 | the five copies leave header, host, `/`, path, footer in the buffer exactly when they fit |
| Response.Put | src/conn.c:208 | `*cursor = ch` appends one byte and leaves the rest |
| Conn.Freed | src/conn.c:84-93 | conn_free resets the counter, sets the parser state to RT_METHOD and zeroes all 242 bytes of req_fields, keeping the timeout and socket_fd |
| Conn.Receive | src/conn.c:112-137 | conn_recv on a slot not in use fails its assert and changes nothing; otherwise only the parser state and req_fields change, and the stored state fits the 4-bit field or is the old one |
| Conn.Sending | src/conn.c:139-170 | conn_send changes nothing in the slot but its counter |
| Conn.Wants | src/conn.c:154-169 | CWM_NO exactly when the response is all out, CWM_YES exactly when write would block, CWM_ERROR exactly when write fails |
| Conn.Conn.constructor | src/conn.c:58 | a slot of the zero-initialised static array |
| Conn.Connections.constructor | src/conn.c:58-64 | the zero-initialised statics: no slot in use and every slot zeroed |
| Conn.Connections.IsValid | src/conn.c:172-175 | conn_is_valid reads bit id, and only the 28 pool ids can be set |
| Conn.Connections.IsFull | src/epoll.c:144 | conn_is_full holds exactly when all 28 slots are in use |
| Conn.Connections.New | src/conn.c:71-82 | conn_new takes the lowest free id, sets its bit and socket_fd and changes nothing else; -1 with the pool unchanged when all 28 are taken |
| Conn.Connections.Free | src/conn.c:84-93 | conn_free clears the bit, leaves the slot as Freed says and changes no other slot |
| Conn.Connections.ForEach | src/conn.c:95-101 | conn_for_each calls back every id in use, once each, in ascending order |
| Conn.Connections.GetSocketFd | src/conn.c:103 | the slot's socket_fd |
| Conn.Connections.SetTimeout | src/conn.c:105-108 | only the slot's timeout changes |
| Conn.Connections.GetTimeout | src/conn.c:110 | the slot's timeout |
| Conn.Connections.Recv | src/conn.c:112-137 | conn_recv leaves the slot and result Receive gives, and no other slot changes |
| Conn.Connections.WriteRedirectResponse | src/conn.c:177-224 | the buffer holds the redirect for the slot's req_fields exactly when the id is in use and the redirect fits |
| Conn.Connections.WriteTooLongResponse | src/conn.c:226-236 | the buffer holds the 414 literal exactly when it fits the capacity |
| Conn.Connections.BuildResponse | src/conn.c:147-152 | util_tmp_buf holds the 414 when the state is REQPARSER_CUSTOM_ERR and the redirect otherwise, and no slot changes |
| Conn.Connections.Send | src/conn.c:139-170 | conn_send leaves the slot, result, socket output and remaining write results Sending gives, and no other slot changes |
| Conn.Connections.SetSent | src/conn.c:168 | only the slot's res_bytes_sent changes |
| ConnFacts.FreedStartsClean | src/conn.c:84-93 | a freed slot resumes in RT_METHOD over a zeroed req_fields, a state the parser can resume from |
| ConnFacts.WholeRequestReceived | src/conn.c:112-137 | a whole request received at once by a freed slot answers CWM_NO and leaves `path NUL host [NUL]` |
| ConnFacts.WholeRequestRedirects | src/conn.c:139-224 | conn_send then builds the redirect to `https://` host `/` path, which has `//` after the host since the path starts with `/` |
| ConnFacts.DoubleSlash | src/conn.c:207-213 | a path starting with `/` written after `/` gives `//` |
| ConnFacts.FullFieldsScanAsWritten | src/conn.c:194-198 | when path, NUL and host fill req_fields, conn_recv completes but the as-written host scan reads past req_fields; the bounded scan gives the intended redirect |
| ConnFacts.TooSmallSendsTooLong | src/conn.c:133-135 | PC_BUFFER_TOO_SMALL answers CWM_NO, and conn_send then builds the 414 |
| ConnFacts.StateKeptUnlessMore | src/conn.c:125-136 | conn_recv stores the parser state (4 bits) only on PC_NEEDS_MORE_DATA, REQPARSER_CUSTOM_ERR on PC_BUFFER_TOO_SMALL, and keeps the old state otherwise |
| ConnFacts.HostPauseStored | src/conn.c:48 | a pause after w host bytes stores RT_HOST + w cut to 4 bits; after 6 bytes that is RT_METHOD |
| ConnFacts.SendCompletes | src/conn.c:139-170 | CWM_NO exactly when the counter reaches the response length; the socket took the response from the old counter on; a first blocked write keeps the slot |
| ConnFacts.SendResumes | src/conn.c:154-169 | a blocked send followed by a later send sends the same bytes as one send with all the write results |
| LegacyConn.Receive | conn.c:109-124 | conn_recv changes only the state and req_fields; CWM_YES/CWM_ERROR/CWM_NO exactly for pr_continue/pr_error/pr_finished, storing parser_go's state, 4 bits, only on CWM_YES |
| LegacyConn.Sending | conn.c:126-151 | conn_send changes nothing in the slot but its counter |
| LegacyConn.Connections.constructor | conn.c:51-57 | the zero-initialised statics: no slot in use and every slot zeroed |
| LegacyConn.Connections.New | conn.c:61-73 | conn_new takes the lowest free id, sets its bit and socket_fd and changes nothing else; -1 with the pool unchanged when all 16 are taken |
| LegacyConn.Connections.Free | conn.c:75-84 | conn_free clears the bit, resets counter, state and req_fields and changes no other slot |
| LegacyConn.Connections.ForEach | conn.c:86-92 | conn_for_each calls back every id in use, once each, in ascending order |
| LegacyConn.Connections.GetSocketFd | conn.c:94-97 | the slot's socket_fd |
| LegacyConn.Connections.SetTimeout | conn.c:99-102 | only the slot's timeout changes |
| LegacyConn.Connections.GetTimeout | conn.c:104-107 | the slot's timeout |
| LegacyConn.Connections.Recv | conn.c:109-124 | conn_recv leaves the slot and result Receive gives, and no other slot changes |
| LegacyConn.Connections.WriteRedirectResponse | conn.c:153-197 | the buffer holds the redirect with the bare footer exactly when it exists and fits |
| LegacyConn.Connections.Send | conn.c:126-151 | conn_send leaves the slot, result, socket output and remaining write results Sending gives, and no other slot changes |
| LegacyConn.RedirectOfPacked | conn.c:153-197 | on `path NUL host [NUL]` the response is the redirect to `https://` host `/` path with `\r\n\r\n` |
| LegacyConn.SendCompletes | conn.c:126-151 | CWM_NO exactly when the counter reaches the response length; the socket took the response from the old counter on; a first blocked write keeps the slot |
| Client.Responds | client.c:93-108 | cr_finished exactly when the response is all out, cr_continue exactly when write would block, cr_error exactly when it fails |
| Client.Sending | client.c:89-109 | client_continue_sending_response changes nothing in the slot but its counter |
| Client.WriteResponse | client.c:53-87 | the buffer holds the redirect with the bare footer exactly when it exists and fits |
| Client.Clients.constructor | client.c:14-17 | the zero-initialised statics: no slot in use and every slot zeroed |
| Client.Clients.Allocate | client.c:19-30 | client_allocate takes the lowest free index and sets its bit, touching no slot; -1 with the bitmap unchanged when all 16 are taken |
| Client.Clients.Free | client.c:32-41 | client_free clears the bit, resets counter, state and req_fields and changes no other slot |
| Client.Clients.Get | client.c:43-47 | client_get returns the slot exactly when its bit is set, NULL otherwise |
| Client.Clients.GetMaxIndex | client.c:49-51 | client_get_max_index is the number of slots |
| Client.Clients.ContinueSending | client.c:89-109 | client_continue_sending_response leaves the slot, result and socket output Sending gives |
| Client.RedirectOfPacked | client.c:53-87 | on `path NUL host [NUL]` the response is the redirect to `https://` host `/` path with `\r\n\r\n` |
| Client.SendCompletes | client.c:89-109 | cr_finished exactly when the counter reaches the response length; the socket took the response from the old counter on; a first blocked write keeps the slot |
| Reactor.Deadline | src/epoll.c:167-168 | the timeout of a new connection is the clock reading in milliseconds plus 2000, exactly so whenever the sum fits a uint64_t |
| Reactor.ReadClock | src/epoll.c:69-73 | clock_gettime reports the next scripted reading and consumes it; with none left it fails and nothing changes |
| Reactor.Accept | src/epoll.c:145-152 | accept4 reports the next scripted result and consumes it; with none left it would block and nothing changes |
| Reactor.Read | src/epoll.c:194-204 | read reports the next scripted result and consumes it; with none left it would block and nothing changes |
| Reactor.Wait | src/epoll.c:77-80 | epoll_wait logs the `epoll_max_sleep` it is given and reports the next scripted result, a timeout with no events when none is left; nothing else changes |
| Reactor.Register | src/epoll.c:179-183 | epoll_ctl succeeds exactly when the script says so or is used up; on success the interest list maps the socket to the new events and data, otherwise it is unchanged |
| Reactor.Close | src/epoll.c:280 | close logs the socket as closed and takes it off the interest list; nothing else changes |
| Reactor.FreeSlot | src/conn.c:84-93 | conn_free clears exactly the slot's bit and resets exactly that slot |
| Reactor.Drop | src/epoll.c:119-120 | dropping a connection clears its bit, resets its slot and closes its socket, and changes no script, write log, sleep log, `epoll_now` or `epoll_max_sleep` |
| Reactor.RecvAt | src/conn.c:112-137 | conn_recv changes only the slot it is given, and never that slot's socket_fd |
| Reactor.SendAt | src/conn.c:139-170 | conn_send changes only the slot's byte counter and the write script, leaving the bitmap, interest list, closed sockets and clock state alone |
| Reactor.Admit | src/epoll.c:161-183 | admitting an accepted socket uses no epoll_wait result, accept result or sleep, and leaves `epoll_now` and `epoll_max_sleep` alone |
| Reactor.TimeoutHelper | src/epoll.c:275-295 | epoll_timeout_helper writes nothing, waits for nothing and consumes no script |
| Reactor.SweepAt | src/conn.c:95-101 | one step of conn_for_each(epoll_timeout_helper) leaves `epoll_now`, the scripts and the logs alone |
| Reactor.SweepFrom | src/conn.c:95-101 | the sweep from any id keeps the pool's shape and consumes no script |
| Reactor.SweepFromUnfolds | src/conn.c:95-101 | conn_for_each visits the ids in ascending order: the sweep from `id` is the step at `id` then the sweep from `id + 1` |
| Reactor.Sweep | src/epoll.c:75 | conn_for_each(epoll_timeout_helper) consumes no script and writes nothing |
| Reactor.Tick | src/epoll.c:68-75 | the start of an iteration uses no epoll_wait result and, when it succeeds, has used up one clock reading |
| Reactor.ReadPass | src/epoll.c:194-254 | a pass of the read loop that goes on has consumed a read result, so the loop ends; no pass touches the sweep's state |
| Reactor.ConnIn | src/epoll.c:189-258 | epoll_on_conn_in ends on every script and keeps the pool's shape, consuming no epoll_wait result or sleep |
| Reactor.Answer | src/epoll.c:223-247 | the send after a complete request keeps the pool's shape and leaves the sweep's state alone |
| Reactor.ConnOut | src/epoll.c:260-273 | epoll_on_conn_out keeps the pool's shape and leaves the sweep's state alone |
| Reactor.OnConnEvent | src/epoll.c:110-135 | the connection part of epoll_on_event keeps the pool's shape and leaves the sweep's state alone |
| Reactor.Kernel.constructor | src/epoll.c:41-64 | a fresh kernel has an empty interest list and nothing closed, written or slept, and reports what its scripts say |
| Reactor.Kernel.ClockGettime | src/epoll.c:69-73 | the clock_gettime call does what ReadClock says |
| Reactor.Kernel.Accept4 | src/epoll.c:145-147 | the accept4 call does what Accept says |
| Reactor.Kernel.ReadSocket | src/epoll.c:194-195 | the read call does what Read says |
| Reactor.Kernel.EpollWait | src/epoll.c:77-80 | the epoll_wait call, given `epoll_max_sleep`, does what Wait says |
| Reactor.Kernel.EpollCtl | src/epoll.c:179-180 | the epoll_ctl call does what Register says |
| Reactor.Kernel.CloseSocket | src/epoll.c:280 | the close call does what Close says |
| Reactor.Kernel.RecordWrite | src/conn.c:154-169 | the bytes a conn_send call wrote are appended to the write log and the write script is replaced by what is left of it |
| Epoll.ServerIn | src/epoll.c:140-187 | epoll_on_server_in always returns a value (no assertion can fail, because the loop guard leaves conn_new a free slot), keeps the pool's shape and leaves the sweep's state alone |
| Epoll.AcceptPass | src/epoll.c:145-183 | a pass of the accept loop that goes on has consumed an accept result, so the loop ends |
| Epoll.HandleEvent | src/epoll.c:100-138 | epoll_on_event keeps the pool's shape and consumes no epoll_wait result |
| Epoll.HandleEvents | src/epoll.c:92-95 | the batch loop keeps the pool's shape and consumes no epoll_wait result |
| Epoll.Iteration | src/epoll.c:66-98 | epoll_wait_and_dispatch keeps the pool's shape |
| Epoll.Dispatch | src/epoll.c:77-97 | the wait and the handling of its events use no clock reading of their own beyond the handlers' |
| Epoll.EventLoop.constructor | src/epoll.c:41-64 | a loop over the given pool and kernel, with `epoll_now` and `epoll_max_sleep` zero as statics start |
| Epoll.EventLoop.Drop | src/epoll.c:119-120 | close then conn_free leave the loop in the world Reactor.Drop describes |
| Epoll.EventLoop.TimeoutHelper | src/epoll.c:275-295 | epoll_timeout_helper leaves the loop in the world Reactor.TimeoutHelper describes |
| Epoll.EventLoop.Tick | src/epoll.c:68-75 | the clock read, reset of `epoll_max_sleep` and sweep leave the loop in the world Reactor.Tick describes, with its result |
| Epoll.EventLoop.SweepTimeouts | src/conn.c:95-101 | the loop of conn_for_each over the bitmap leaves the loop in the world Reactor.Sweep describes |
| Epoll.EventLoop.SweepOne | src/conn.c:97-100 | one id of conn_for_each does what Reactor.SweepAt says |
| Epoll.EventLoop.Recv | src/conn.c:112-137 | conn_recv on the pool does what Reactor.RecvAt says, with its result |
| Epoll.EventLoop.Send | src/conn.c:139-170 | conn_send on the pool and kernel does what Reactor.SendAt says, with its result |
| Epoll.EventLoop.PoolSend | src/conn.c:139-170 | the pool's side of conn_send leaves the pool holding the slot Conn.Sending computes, and returns its result, bytes and unused writes |
| Epoll.EventLoop.OnServerIn | src/epoll.c:140-187 | epoll_on_server_in leaves the loop in the world Epoll.ServerIn describes, with its result |
| Epoll.EventLoop.AcceptOne | src/epoll.c:145-183 | one pass of the accept loop does what Epoll.AcceptPass says |
| Epoll.EventLoop.New | src/conn.c:71-82 | conn_new on a pool that is not full takes the lowest free id and stores the socket there |
| Epoll.EventLoop.Admit | src/epoll.c:161-183 | the clock read, conn_set_timeout and epoll_ctl do what Reactor.Admit says |
| Epoll.EventLoop.OnConnIn | src/epoll.c:189-258 | epoll_on_conn_in leaves the loop in the world Reactor.ConnIn describes, with its result |
| Epoll.EventLoop.ReadOnce | src/epoll.c:194-254 | one pass of the read loop does what Reactor.ReadPass says |
| Epoll.EventLoop.Answer | src/epoll.c:223-247 | the send after a complete request does what Reactor.Answer says |
| Epoll.EventLoop.OnConnOut | src/epoll.c:260-273 | epoll_on_conn_out does what Reactor.ConnOut says |
| Epoll.EventLoop.OnEvent | src/epoll.c:100-138 | epoll_on_event does what Epoll.HandleEvent says |
| Epoll.EventLoop.WaitAndDispatch | src/epoll.c:66-98 | epoll_wait_and_dispatch leaves the loop in the world Epoll.Iteration describes, with its result |
| Epoll.EventLoop.WaitThenHandle | src/epoll.c:77-97 | the wait and the batch loop do what Epoll.Dispatch says |
| Epoll.EventLoop.OnEvents | src/epoll.c:92-95 | the loop over the returned events does what Epoll.HandleEvents says |
| LegacyEpoll.ServerIn | epoll.c:69-117 | epoll_on_server_in always returns a value, keeps the pool's shape and leaves the sweep's state alone |
| LegacyEpoll.AcceptPass | epoll.c:74-113 | a pass of the accept loop that goes on has consumed an accept result, and one that ends returns a value |
| LegacyEpoll.HandleEvent | epoll.c:202-244 | epoll_on_event keeps the pool's shape and consumes no epoll_wait result |
| LegacyEpoll.HandleEvents | epoll.c:62-65 | the batch loop keeps the pool's shape and consumes no epoll_wait result |
| LegacyEpoll.Iteration | epoll.c:36-66 | a round of epoll_run that goes round again has used up a clock reading |
| LegacyEpoll.Dispatch | epoll.c:48-65 | the wait and the handling of its events use no clock reading of their own beyond the handlers' |
| LegacyEpoll.RunLoop | epoll.c:35-67 | epoll_run never returns true |
| LegacyEpoll.EventLoop.constructor | epoll.c:21-22 | a loop over the given pool and kernel, with `epoll_now` and `epoll_max_sleep` zero as statics start |
| LegacyEpoll.EventLoop.Drop | epoll.c:224-225 | close then conn_free leave the loop in the world Reactor.Drop describes |
| LegacyEpoll.EventLoop.TimeoutHelper | epoll.c:246-265 | epoll_timeout_helper leaves the loop in the world Reactor.TimeoutHelper describes |
| LegacyEpoll.EventLoop.Tick | epoll.c:39-46 | the clock read, reset of `epoll_max_sleep` and sweep do what Reactor.Tick says |
| LegacyEpoll.EventLoop.SweepTimeouts | conn.c:86-92 | the loop of conn_for_each over the bitmap leaves the loop in the world Reactor.Sweep describes |
| LegacyEpoll.EventLoop.SweepOne | conn.c:86-92 | one id of conn_for_each does what Reactor.SweepAt says |
| LegacyEpoll.EventLoop.Recv | conn.c:109-124 | conn_recv on the pool does what Reactor.RecvAt says, with its result |
| LegacyEpoll.EventLoop.Send | conn.c:126-151 | conn_send on the pool and kernel does what Reactor.SendAt says, with its result |
| LegacyEpoll.EventLoop.PoolSend | conn.c:126-151 | the pool's side of conn_send leaves the pool holding the slot LegacyConn.Sending computes, and returns its result, bytes and unused writes |
| LegacyEpoll.EventLoop.OnServerIn | epoll.c:69-117 | epoll_on_server_in leaves the loop in the world LegacyEpoll.ServerIn describes, with its result |
| LegacyEpoll.EventLoop.AcceptOne | epoll.c:74-113 | one pass of the accept loop does what LegacyEpoll.AcceptPass says |
| LegacyEpoll.EventLoop.New | conn.c:61-73 | conn_new takes the lowest free id, or returns -1 and changes nothing when the pool is full |
| LegacyEpoll.EventLoop.Admit | epoll.c:93-113 | the clock read, conn_set_timeout and epoll_ctl do what Reactor.Admit says |
| LegacyEpoll.EventLoop.OnConnIn | epoll.c:119-185 | epoll_on_conn_in does what Reactor.ConnIn says |
| LegacyEpoll.EventLoop.ReadOnce | epoll.c:124-181 | one pass of the read loop does what Reactor.ReadPass says |
| LegacyEpoll.EventLoop.Answer | epoll.c:151-174 | the send after a complete request does what Reactor.Answer says |
| LegacyEpoll.EventLoop.OnConnOut | epoll.c:187-200 | epoll_on_conn_out does what Reactor.ConnOut says |
| LegacyEpoll.EventLoop.OnEvent | epoll.c:202-244 | epoll_on_event does what LegacyEpoll.HandleEvent says |
| LegacyEpoll.EventLoop.OnEvents | epoll.c:62-65 | the loop over the returned events does what LegacyEpoll.HandleEvents says |
| LegacyEpoll.EventLoop.RunOnce | epoll.c:36-66 | one round of the `for (;;)` does what LegacyEpoll.Iteration says |
| LegacyEpoll.EventLoop.WaitThenHandle | epoll.c:48-65 | the wait and the batch loop do what LegacyEpoll.Dispatch says |
| LegacyEpoll.EventLoop.Run | epoll.c:35-67 | epoll_run leaves the loop in the world LegacyEpoll.RunLoop describes, with its result, so it never returns true |
| EpollFacts.ExpiredFdsAgree | src/epoll.c:279-282 | which sockets the sweep closes depends only on `epoll_now` and the slots it visits |
| EpollFacts.SweepStepLocal | src/conn.c:97-100 | one step of the sweep touches no slot but its own |
| EpollFacts.SweepStepAt | src/epoll.c:279-283 | a slot whose timeout has come is freed and its socket closed; any other slot stays and nothing is closed |
| EpollFacts.SweepStepSleep | src/epoll.c:285-294 | a pending slot lowers `epoll_max_sleep` to its remaining time when that is smaller or the bound is -1; other slots leave it alone |
| EpollFacts.SweepStepSlot | src/epoll.c:279-283 | one step seen from any slot: only the visited slot, and only if it has expired, is freed |
| EpollFacts.SweepFromSlot | src/conn.c:95-101 | the sweep from `from` frees exactly the expired slots at or above `from` and leaves every other slot as it was |
| EpollFacts.SweepStepCloses | src/epoll.c:280 | one step closes the visited slot's socket exactly when it expired and does not change which later sockets are expired |
| EpollFacts.SweepFromCloses | src/conn.c:95-101 | the sweep from `from` closes exactly the expired sockets from `from` on, in ascending id order |
| EpollFacts.SweepFreesExpired | src/epoll.c:75 | conn_for_each(epoll_timeout_helper) frees every expired slot, leaves every other slot untouched and closes exactly the expired sockets in ascending id order |
| EpollFacts.SweepFromUnbounded | src/epoll.c:285-294 | the bound stays -1 if and only if it starts at -1 and no slot from `from` on is pending |
| EpollFacts.SweepFromBounded | src/epoll.c:285-294 | the bound ends -1 or positive, no larger than where it started, and no larger than any pending slot's remaining time |
| EpollFacts.SweepFromAttained | src/epoll.c:293-294 | the bound is either its start value or the remaining time of some pending slot |
| EpollFacts.SweepSleepIsLeastPending | src/epoll.c:74-75 | after the sweep from -1, `epoll_max_sleep` is -1 exactly when no slot is pending, and otherwise the least remaining time of the pending slots, at least 1 |
| EpollFacts.SweepBeforeWait | src/epoll.c:66-86 | epoll_wait_and_dispatch passes epoll_wait the bound the sweep computed from that iteration's clock reading, and a wait with no events succeeds |
| EpollFacts.LegacySweepBeforeWait | epoll.c:39-56 | a round of epoll_run passes epoll_wait the bound its sweep computed, and a wait with no events sends the loop round again |
| EpollFacts.AcceptAdmits | src/epoll.c:145-183 | an accepted socket gets the lowest free slot, a timeout 2000 ms after the clock reading and an EPOLLIN registration with data id + 1, and no other slot changes |
| EpollFacts.AcceptPassKeeps | src/epoll.c:145-183 | a pass of the accept loop leaves every connection in use as it was |
| EpollFacts.ServerInKeeps | src/epoll.c:144 | epoll_on_server_in leaves every connection in use alone, and on a full pool returns true without calling accept |
| EpollFacts.LegacyAcceptAdmits | epoll.c:86-113 | an accepted socket gets the lowest free slot, a timeout 2000 ms after the clock reading and an EPOLLIN registration with data id + 1, and no other slot changes |
| EpollFacts.LegacyFullCloses | epoll.c:86-91 | on a full pool conn_new returns -1, the accepted socket is closed and never registered, the pool is unchanged and accepting goes on |
| EpollFacts.LegacyAcceptPassKeeps | epoll.c:74-113 | a pass of the accept loop leaves every connection in use as it was, and the whole pool when it is full |
| EpollFacts.LegacyServerInKeeps | epoll.c:69-117 | epoll_on_server_in leaves every connection in use alone, and the whole pool when it is full |
| EpollFacts.LegacyServerEventSucceeds | epoll.c:209-214 | an event on the listening socket fails an assertion unless it is a plain EPOLLIN, and then succeeds whatever accepting did |
| EpollFacts.HangupDrops | src/epoll.c:113-123 | a hangup or error on a connection closes its socket and frees its slot, whatever else is set |
| EpollFacts.BothOrNeitherFails | src/epoll.c:129-134 | without hangup or error, both or neither of EPOLLIN and EPOLLOUT fails the assertion; exactly one runs its handler |
| EpollFacts.EndOfStreamDrops | src/epoll.c:205-212 | end of stream closes the socket, frees the slot and returns true |
| EpollFacts.WouldBlockKeeps | src/epoll.c:196-200 | a read that would block returns true and leaves the pool, closed sockets and interest list alone |
| EpollFacts.RejectedDrops | src/epoll.c:248-253 | a request conn_recv rejects closes the socket, frees the slot and returns true |
| EpollFacts.WantsMoreReadsOn | src/epoll.c:217-218 | when conn_recv wants more, the handler reads again on what the slot has become |
| EpollFacts.PartialSendWaitsForWrite | src/epoll.c:224-238 | a response not sent in full re-registers the socket for EPOLLOUT with data id + 1 and keeps the connection |
| EpollFacts.SentDrops | src/epoll.c:240-244 | a response sent in full closes the socket and frees the slot, from the read handler and from the write handler alike |
| EpollFacts.SendErrorFails | src/epoll.c:245-246 | a write error fails both the read handler and the write handler |
| EpollFacts.StillSendingWaits | src/epoll.c:263-264 | on write readiness, a response still not out keeps the connection and its registration |

## Left out

- System calls (`clock_gettime`, `accept4`, `read`, `write`, `epoll_wait`, `epoll_ctl`, `close`) are not performed. Their results come from the scripts of `Reactor.Env`, which a `Kernel` object replays. A used-up script means: accept, read and write would block, epoll_wait times out with no events, clock_gettime fails and epoll_ctl succeeds.
- `epoll_init` (src/epoll.c:41-64) and `epoll_setup` (epoll.c:26-33) create the epoll instance and register the listening socket; the model starts from a loop whose kernel already has one.
- The 32-entry `epoll_event` buffer: epoll_wait results are scripted, so a batch is any sequence of events.
- The flags `EPOLLET` and `EPOLLWAKEUP` are not modelled; a registration records only EPOLLIN or EPOLLOUT and `data.u64`.
- Read chunks are not limited to the 512 bytes of `util_tmp_buf`/`tmp_buf`; the parsers and pools accept chunks of any length.
- `perror` and `FPUTS_A` diagnostics are left out: they only write to standard error.
- The process entry points and the rest of the program (src/main.c, main.c, src/cli.c, src/sys.c, server.c) are not part of this model.
- There is no kernel behind the scripts, so epoll semantics (which events arrive after a registration) are not modelled; each wait reports what its script says.
- `parser_go` (called by conn.c:114) is defined in none of the modelled files. The legacy pool takes it as a function parameter. The model assumes nothing about its results: when one leaves a state that does not fit its `uint8_t` or a req_fields of another length, `LegacyConn.Receive` reports undefined behaviour.
- `conn_is_full` is called by src/epoll.c:144 but defined nowhere; it is given by its specification, every slot in use.
- LegacyEpoll.RunLoop: epoll_run's `for (;;)` runs without bound; the model stops it when the clock script is used up, where clock_gettime reports a failure, so every run ends.
- SimpleParser.Parser.Feed: parser_feed's `do … while (read_index < len)` never changes `read_index`; the method loops until the cursor reaches `data_end` instead. The loop as written is `SimpleParser.FeedAsWritten` (see Findings).
- Buffer sizes are array lengths in the model: req_fields is 242 bytes in src/conn.c, conn.c and client.c, and `struct parser`, which parser.c uses, is defined in none of the modelled files (parser.h declares only `enum parser_state`, `enum parser_result` and `parser_go`), so the capacities of its `uri` and `host` buffers are the lengths of the machine's `uri` and `host` sequences.
- parser.c dispatches on `ps_method` and `ps_header_name`, while parser.h names those states `ps_method_0` and `ps_header_name_0`; the enum parser.c was written against is not part of this model, so `SimpleParser.PState` names the six states parser.c uses and gives them no numeric values.
- The stored state of src/conn.c is a 4-bit bit-field; a pause inside the host value stores `RT_HOST + w` cut to 4 bits (src/conn.c:48 and 129), which `ConnFacts.HostPauseStored` states. This is the source's behaviour, kept as written, and the split lemmas exclude such pauses.
- The Location header of src/conn.c:207-214 inserts `/` before a path that the src/reqparser.c parser already requires to start with `/`, so the redirect carries `//`; the model keeps this as written.
- Conn.Connections.WriteRedirectResponse: like `Conn.ResponseOf`, it scans the host bounds-first (`Response.RunEnd`). When the path, its NUL and the host fill all 242 bytes of req_fields, it returns the redirect, while src/conn.c:196-198 reads the byte after the array. That read is stated by `Response.HostEndAsWritten` and `ConnFacts.FullFieldsScanAsWritten` (see Findings); the computed length is the same.
- LegacyConn.Connections.WriteRedirectResponse: like `LegacyConn.ResponseOf`, it scans the host bounds-first, so on a req_fields filled to its last byte it returns the redirect where conn.c:171-172 reads the byte after the array (the read of Findings).
- Client.WriteResponse: like `Client.ResponseOf`, it scans the host bounds-first, so on a req_fields filled to its last byte it returns the redirect where client.c:66-67 reads the byte after the array (the read of Findings).
- No modelled file of the older revision calls the older reqparser.c: its conn.c calls `parser_go`. The `LegacyReqParser.Args` object therefore stands for a `struct reqparser_args` (reqparser.h:7-17) that some caller fills in, not for one conn.c builds.
- The older reqparser.h declares only PC_COMPLETE, PC_NEEDS_MORE_DATA and PC_ERROR, while the older reqparser.c returns PC_BAD_DATA and PC_BUFFER_TOO_SMALL. The model follows reqparser.c: its completions are those of src/reqparser.h (Complete, NeedsMoreData, BadData, BufferTooSmall), shared by both parsers.

## Findings

| source | as written | input that shows it | evidently intended | confidence | as-written member | corrected member |
|---|---|---|---|---|---|---|
| parser.c:22-48 | the `do … while (read_index < len)` loop never changes `read_index`, so after a sub-function has consumed the whole input and returned pr_continue the loop calls the next sub-function with the cursor at `data_end`, which dereferences it | "GET " fed to a reset parser (parser_do_uri then reads at data_end); also an empty input | loop until the cursor reaches `data_end`, then return pr_continue | not executed | SimpleParserFacts.AsWrittenReadsPastEnd | SimpleParserFacts.CorrectedFeedContinues |
| src/conn.c:196-198 | the host scan tests `*host_end != '\0'` before `host_end != end`, so when the host runs to the last byte of req_fields it reads the byte after the array (the same loop is at conn.c:171-172 and client.c:66-67) | a request whose path, its NUL and a host fill all 242 bytes of req_fields, which the parser accepts with no trailing NUL | test the bound first and stop at the end of req_fields | not executed | ConnFacts.FullFieldsScanAsWritten | Response.RedirectOfLayout |
