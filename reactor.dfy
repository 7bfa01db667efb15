/**
 * What the two event loops (src/epoll.c and the older epoll.c) share,
 * stated on values: the world a loop sees (the pool's bitmap and slots, the
 * epoll interest list, the sockets it closed, the bytes it wrote, the
 * timeouts it passed to epoll_wait, the `epoll_now` and `epoll_max_sleep`
 * statics) and the results the system calls report, which the model takes
 * from scripts instead of the kernel. The handlers that are the same in
 * both files (the timeout sweep, the read and write handlers) are defined
 * here once; the pool they drive is the src/conn.c one (`Current`) or the
 * conn.c one (`Legacy`, with its parser_go).
 */
module Reactor {
  import opened Bytes
  import opened Bitmap
  import opened Response
  import Conn
  import LegacyConn

  const INT_MAX: nat := 0x7fff_ffff
  const UINT64_RANGE: nat := 0x1_0000_0000_0000_0000

  /** The grace period of a new connection, in milliseconds. */
  const GRACE_MS: nat := 2000

  /** What clock_gettime(CLOCK_MONOTONIC) reports. */
  datatype ClockResult = Clock(sec: nat, nsec: nat) | ClockFailed

  /** What accept4 reports. */
  datatype AcceptResult = Accepted(fd: int) | AcceptAgain | AcceptFailed

  /** What read reports: the bytes it read (none at end of stream), EAGAIN, or another error. */
  datatype ReadResult = Chunk(bytes: seq<byte>) | ReadAgain | ReadFailed

  /**
   * The events a connection socket is registered for:
   * EPOLLIN | EPOLLET | EPOLLWAKEUP, or EPOLLOUT | EPOLLET | EPOLLWAKEUP.
   */
  datatype Interest = ForRead | ForWrite

  /** An entry of the epoll interest list: the events and `data.u64`. */
  datatype Registration = Registration(interest: Interest, data: nat)

  /** One `struct epoll_event` epoll_wait returns: EPOLLIN, EPOLLOUT, EPOLLRDHUP, EPOLLERR and `data.u64`. */
  datatype Event = Event(readable: bool, writable: bool, hangup: bool, error: bool, data: nat)

  /** What epoll_wait reports: the ready events (none when the timeout expired), or a failure. */
  datatype WaitResult = Ready(events: seq<Event>) | WaitFailed

  /**
   * The results the successive system calls of each kind report. When a
   * script is used up, accept, read and write would block, epoll_ctl
   * succeeds, epoll_wait times out and clock_gettime fails.
   */
  datatype Env = Env(
    clock: seq<ClockResult>,
    waits: seq<WaitResult>,
    accepts: seq<AcceptResult>,
    incoming: seq<ReadResult>,
    writes: seq<WriteResult>,
    ctls: seq<bool>)

  /** The bytes one conn_send call handed to a socket. */
  datatype Written = Written(fd: int, bytes: seq<byte>)

  /**
   * Everything an event loop reads and changes: the pool's bitmap and
   * slots, the interest list by socket, the sockets closed in order, the
   * bytes written, the timeouts passed to epoll_wait in order, `epoll_now`,
   * `epoll_max_sleep` and the system call scripts.
   */
  datatype World = World(
    bits: Bits,
    slots: seq<Conn.Slot>,
    interest: map<int, Registration>,
    closed: seq<int>,
    written: seq<Written>,
    sleeps: seq<int>,
    now: Conn.uint64,
    maxSleep: int,
    env: Env)

  /** Which pool the loop drives. */
  datatype PoolKind = Current | Legacy(go: LegacyConn.ParserGo)

  /**
   * A handler's outcome: Some(b) when it returns `b`, None when the process
   * does not go on (a failed assertion or undefined behaviour), and the
   * world it leaves.
   */
  datatype Step = Step(result: Option<bool>, w: World)

  /** How one pass of a handler's loop ends: the loop goes on, or the handler returns `result`. */
  datatype Pass = GoOn | Finish(result: Option<bool>)

  /** A value a system call or pool call returns, and the world after it. */
  datatype Reply<T> = Reply(value: T, w: World)

  function Capacity(k: PoolKind): (n: nat)
    ensures n == if k.Current? then Conn.MAX_CONN_COUNT else LegacyConn.MAX_CONN_COUNT
  {
    if k.Current? then Conn.MAX_CONN_COUNT else LegacyConn.MAX_CONN_COUNT
  }

  function Width(k: PoolKind): (n: nat)
    ensures Capacity(k) <= n
  {
    if k.Current? then Conn.BITMAP_WIDTH else LegacyConn.BITMAP_WIDTH
  }

  /** The world has the pool's shape; parser states fit the byte conn_recv hands the parser. */
  predicate Shaped(k: PoolKind, w: World)
  {
    && |w.bits| == Width(k) && |w.slots| == Capacity(k)
    && forall i :: 0 <= i < |w.slots| ==> w.slots[i].reqparserState < 256
  }

  /** Every slot is in use: the specification of conn_is_full. */
  predicate Full(k: PoolKind, w: World)
    requires Shaped(k, w)
  {
    forall i :: 0 <= i < Capacity(k) ==> w.bits[i]
  }

  /**
   * `w'` follows `w` inside one handler: no epoll_wait has been consumed,
   * no clock reading given back, and the sweep's `epoll_now` and
   * `epoll_max_sleep` are as they were.
   */
  predicate Within(w: World, w': World)
  {
    && w'.env.waits == w.env.waits && |w'.env.clock| <= |w.env.clock|
    && w'.sleeps == w.sleeps && w'.now == w.now && w'.maxSleep == w.maxSleep
  }

  /** `tv_sec * 1000 + tv_nsec / 1000000`, stored in a uint64_t. */
  function Millis(c: ClockResult): (ms: Conn.uint64)
    requires c.Clock?
  {
    (c.sec * 1000 + c.nsec / 1000000) % UINT64_RANGE
  }

  /** The timeout of a connection accepted at `c`: 2000 ms later, in a uint64_t. */
  function Deadline(c: ClockResult): (ms: Conn.uint64)
    requires c.Clock?
    ensures c.sec * 1000 + c.nsec / 1000000 + GRACE_MS < UINT64_RANGE ==> ms == Millis(c) + GRACE_MS
  {
    (c.sec * 1000 + c.nsec / 1000000 + GRACE_MS) % UINT64_RANGE
  }

  // ---- system calls, on the scripts ----

  /** clock_gettime: the next reading, or a failure when there is none. */
  function ReadClock(w: World): (r: Reply<ClockResult>)
    ensures r.w == w.(env := r.w.env) && r.w.env == w.env.(clock := r.w.env.clock)
    ensures w.env.clock == [] ==> r.value == ClockFailed && r.w == w
    ensures w.env.clock != [] ==> r.value == w.env.clock[0] && r.w.env.clock == w.env.clock[1..]
  {
    if w.env.clock == [] then Reply(ClockFailed, w)
    else Reply(w.env.clock[0], w.(env := w.env.(clock := w.env.clock[1..])))
  }

  /** accept4: the next result, EAGAIN when there is none. */
  function Accept(w: World): (r: Reply<AcceptResult>)
    ensures r.w == w.(env := w.env.(accepts := r.w.env.accepts))
    ensures w.env.accepts == [] ==> r.value == AcceptAgain && r.w == w
    ensures w.env.accepts != [] ==> r.value == w.env.accepts[0] && r.w.env.accepts == w.env.accepts[1..]
  {
    if w.env.accepts == [] then Reply(AcceptAgain, w)
    else Reply(w.env.accepts[0], w.(env := w.env.(accepts := w.env.accepts[1..])))
  }

  /** read: the next result, EAGAIN when there is none. */
  function Read(w: World): (r: Reply<ReadResult>)
    ensures r.w == w.(env := w.env.(incoming := r.w.env.incoming))
    ensures w.env.incoming == [] ==> r.value == ReadAgain && r.w == w
    ensures w.env.incoming != [] ==> r.value == w.env.incoming[0] && r.w.env.incoming == w.env.incoming[1..]
  {
    if w.env.incoming == [] then Reply(ReadAgain, w)
    else Reply(w.env.incoming[0], w.(env := w.env.(incoming := w.env.incoming[1..])))
  }

  /**
   * epoll_wait with the timeout `epoll_max_sleep`: the timeout is logged,
   * and the next result is taken (a timeout when there is none).
   */
  function Wait(w: World): (r: Reply<WaitResult>)
    ensures r.w == w.(sleeps := w.sleeps + [w.maxSleep], env := w.env.(waits := r.w.env.waits))
    ensures w.env.waits == [] ==> r.value == Ready([]) && r.w.env.waits == []
    ensures w.env.waits != [] ==> r.value == w.env.waits[0] && r.w.env.waits == w.env.waits[1..]
  {
    var w' := w.(sleeps := w.sleeps + [w.maxSleep]);
    if w.env.waits == [] then Reply(Ready([]), w')
    else Reply(w.env.waits[0], w'.(env := w.env.(waits := w.env.waits[1..])))
  }

  /**
   * epoll_ctl adding or changing the entry of `fd`: when it succeeds, the
   * interest list maps `fd` to `reg`; otherwise nothing is registered.
   */
  function Register(w: World, fd: int, reg: Registration): (r: Reply<bool>)
    ensures r.value == (w.env.ctls == [] || w.env.ctls[0])
    ensures r.w.interest == if r.value then w.interest[fd := reg] else w.interest
    ensures r.w == w.(interest := r.w.interest, env := w.env.(ctls := r.w.env.ctls))
    ensures r.w.env.ctls == if w.env.ctls == [] then [] else w.env.ctls[1..]
  {
    var ok := w.env.ctls == [] || w.env.ctls[0];
    Reply(ok, w.(interest := if ok then w.interest[fd := reg] else w.interest,
                 env := w.env.(ctls := if w.env.ctls == [] then [] else w.env.ctls[1..])))
  }

  /** close: the socket is logged as closed and leaves the interest list. */
  function Close(w: World, fd: int): (w': World)
    ensures w'.closed == w.closed + [fd] && w'.interest == w.interest - {fd}
    ensures w' == w.(closed := w'.closed, interest := w'.interest)
  {
    w.(closed := w.closed + [fd], interest := w.interest - {fd})
  }

  // ---- the pool, on values ----

  /** conn_new with the lowest free id `id`: its bit is set, its socket_fd stored. */
  function Occupy(k: PoolKind, w: World, id: nat, fd: int): (w': World)
    requires Shaped(k, w) && id < Capacity(k)
    ensures Shaped(k, w')
  {
    w.(bits := w.bits[id := true], slots := w.slots[id := w.slots[id].(socketFd := fd)])
  }

  /** conn_set_timeout. */
  function SetTimeout(k: PoolKind, w: World, id: nat, timeout: Conn.uint64): (w': World)
    requires Shaped(k, w) && id < Capacity(k)
    ensures Shaped(k, w')
  {
    w.(slots := w.slots[id := w.slots[id].(timeout := timeout)])
  }

  /** conn_free: bit `id` cleared and the slot reset. */
  function FreeSlot(k: PoolKind, w: World, id: nat): (w': World)
    requires Shaped(k, w) && id < Capacity(k)
    ensures Shaped(k, w')
    ensures w'.bits == w.bits[id := false] && w'.slots == w.slots[id := Conn.Freed(w.slots[id])]
    ensures w' == w.(bits := w'.bits, slots := w'.slots)
  {
    w.(bits := w.bits[id := false], slots := w.slots[id := Conn.Freed(w.slots[id])])
  }

  /** `close(fd); conn_free(id);`, the way every handler drops a connection. */
  function Drop(k: PoolKind, w: World, id: nat, fd: int): (w': World)
    requires Shaped(k, w) && id < Capacity(k)
    ensures Shaped(k, w')
    ensures w'.bits == w.bits[id := false] && w'.slots == w.slots[id := Conn.Freed(w.slots[id])]
    ensures w'.closed == w.closed + [fd] && w'.interest == w.interest - {fd}
    ensures w'.env == w.env && w'.written == w.written && w'.sleeps == w.sleeps
    ensures w'.now == w.now && w'.maxSleep == w.maxSleep
  {
    FreeSlot(k, Close(w, fd), id)
  }

  /** conn_recv on slot `id`, with the pool's own driver. */
  function RecvAt(k: PoolKind, w: World, id: nat, data: seq<byte>): (r: Reply<Option<Conn.WantsMore>>)
    requires Shaped(k, w) && id < Capacity(k)
    ensures Shaped(k, r.w)
    ensures r.w == w.(slots := r.w.slots) && r.w.slots == w.slots[id := r.w.slots[id]]
    ensures r.w.slots[id].socketFd == w.slots[id].socketFd
  {
    var got := if k.Current? then Conn.Receive(w.bits[id], w.slots[id], data)
               else LegacyConn.Receive(k.go, w.slots[id], data);
    Reply(got.result, w.(slots := w.slots[id := got.slot]))
  }

  /**
   * conn_send on slot `id`, with the pool's own response: the counter is
   * updated, the write results used are taken off the script and the bytes
   * the socket took are logged.
   */
  function SendAt(k: PoolKind, w: World, id: nat): (r: Reply<Option<Conn.WantsMore>>)
    requires Shaped(k, w) && id < Capacity(k)
    ensures Shaped(k, r.w)
    ensures r.w.slots == w.slots[id := w.slots[id].(resBytesSent := r.w.slots[id].resBytesSent)]
    ensures r.w.bits == w.bits && r.w.interest == w.interest && r.w.closed == w.closed
    ensures r.w.env == w.env.(writes := r.w.env.writes) && r.w.now == w.now && r.w.maxSleep == w.maxSleep
    ensures r.w.sleeps == w.sleeps
  {
    var sent := if k.Current? then Conn.Sending(w.bits[id], w.slots[id], w.env.writes)
                else LegacyConn.Sending(w.slots[id], w.env.writes);
    Reply(sent.result, w.(slots := w.slots[id := sent.slot],
                          written := w.written + [Written(w.slots[id].socketFd, sent.out)],
                          env := w.env.(writes := sent.rest)))
  }

  // ---- the handlers both loops share ----

  /**
   * What epoll_on_server_in does with an accepted socket `fd` once conn_new
   * gave it the slot `id`: read the clock, set the timeout 2000 ms later,
   * and register the socket for EPOLLIN with data `id + 1`. False when the
   * clock or epoll_ctl fails.
   */
  function Admit(k: PoolKind, w: World, id: nat, fd: int): (r: Reply<bool>)
    requires Shaped(k, w) && id < Capacity(k)
    ensures Shaped(k, r.w) && Within(w, r.w) && |r.w.env.accepts| == |w.env.accepts|
  {
    var clk := ReadClock(w);
    if clk.value.ClockFailed? then Reply(false, clk.w)
    else
      var reg := Register(SetTimeout(k, clk.w, id, Deadline(clk.value)), fd, Registration(ForRead, id + 1));
      Reply(reg.value, reg.w)
  }

  /**
   * epoll_timeout_helper on an id in use: a connection whose timeout has
   * come is closed and freed; otherwise its remaining time, when it fits an
   * int, lowers `epoll_max_sleep` (-1 standing for no bound yet).
   */
  function TimeoutHelper(k: PoolKind, w: World, id: nat): (w': World)
    requires Shaped(k, w) && id < Capacity(k)
    ensures Shaped(k, w')
    ensures w'.env == w.env && w'.written == w.written && w'.sleeps == w.sleeps
  {
    var timeout := w.slots[id].timeout;
    if w.now >= timeout then Drop(k, w, id, w.slots[id].socketFd)
    else if timeout - w.now > INT_MAX then w
    else
      var remaining := timeout - w.now;
      if w.maxSleep == -1 || remaining < w.maxSleep then w.(maxSleep := remaining) else w
  }

  /** conn_for_each(epoll_timeout_helper) from id `from` on. */
  function SweepFrom(k: PoolKind, w: World, from: nat): (w': World)
    requires Shaped(k, w) && from <= Capacity(k)
    ensures Shaped(k, w')
    ensures w'.env == w.env && w'.written == w.written && w'.sleeps == w.sleeps
    decreases Capacity(k) - from
  {
    if from == Capacity(k) then w
    else SweepFrom(k, SweepAt(k, w, from), from + 1)
  }

  /** One step of conn_for_each(epoll_timeout_helper): the helper runs on `id` if it is in use. */
  function SweepAt(k: PoolKind, w: World, id: nat): (w': World)
    requires Shaped(k, w) && id < Capacity(k)
    ensures Shaped(k, w')
    ensures w'.env == w.env && w'.written == w.written && w'.sleeps == w.sleeps && w'.now == w.now
  {
    if w.bits[id] then TimeoutHelper(k, w, id) else w
  }

  /** The sweep from `id` is the step at `id` followed by the sweep from `id + 1`. */
  lemma SweepFromUnfolds(k: PoolKind, w: World, id: nat)
    requires Shaped(k, w) && id < Capacity(k)
    ensures SweepFrom(k, w, id) == SweepFrom(k, SweepAt(k, w, id), id + 1)
  {
  }

  /** conn_for_each(epoll_timeout_helper). */
  function Sweep(k: PoolKind, w: World): (w': World)
    requires Shaped(k, w)
    ensures Shaped(k, w')
    ensures w'.env == w.env && w'.written == w.written && w'.sleeps == w.sleeps
  {
    SweepFrom(k, w, 0)
  }

  /**
   * The start of an iteration of either loop: read the clock into
   * `epoll_now`, reset `epoll_max_sleep` to -1 and sweep the timeouts.
   * False, with nothing swept, when the clock fails.
   */
  function Tick(k: PoolKind, w: World): (r: Reply<bool>)
    requires Shaped(k, w)
    ensures Shaped(k, r.w) && r.w.env.waits == w.env.waits && r.w.sleeps == w.sleeps
    ensures r.value ==> |r.w.env.clock| < |w.env.clock|
  {
    var clk := ReadClock(w);
    if clk.value.ClockFailed? then Reply(false, clk.w)
    else Reply(true, Sweep(k, clk.w.(now := Millis(clk.value), maxSleep := -1)))
  }

  /**
   * The read loop of epoll_on_conn_in for connection `id` on socket `fd`:
   * one pass after another until a pass ends the handler.
   */
  function ConnIn(k: PoolKind, w: World, id: nat, fd: int): (r: Step)
    requires Shaped(k, w) && id < Capacity(k)
    ensures Shaped(k, r.w) && Within(w, r.w)
    decreases |w.env.incoming|
  {
    var pass := ReadPass(k, w, id, fd);
    match pass.value
    case GoOn => ConnIn(k, pass.w, id, fd)
    case Finish(result) => Step(result, pass.w)
  }

  /**
   * One pass of the read loop: read; EAGAIN ends the handler with true and
   * a read error with false; end of stream, or a request conn_recv
   * rejects, drops the connection; bytes conn_recv wants more after go on
   * to the next read; a complete request is answered at once.
   */
  function ReadPass(k: PoolKind, w: World, id: nat, fd: int): (r: Reply<Pass>)
    requires Shaped(k, w) && id < Capacity(k)
    ensures Shaped(k, r.w) && Within(w, r.w)
    ensures r.value == GoOn ==> |r.w.env.incoming| < |w.env.incoming|
  {
    var rd := Read(w);
    match rd.value
    case ReadAgain => Reply(Finish(Some(true)), rd.w)
    case ReadFailed => Reply(Finish(Some(false)), rd.w)
    case Chunk(bytes) =>
      if |bytes| == 0 then Reply(Finish(Some(true)), Drop(k, rd.w, id, fd))
      else
        var got := RecvAt(k, rd.w, id, bytes);
        match got.value
        case None => Reply(Finish(None), got.w)
        case Some(CwmYes) => Reply(GoOn, got.w)
        case Some(CwmError) => Reply(Finish(Some(true)), Drop(k, got.w, id, fd))
        case Some(CwmNo) =>
          var answered := Answer(k, got.w, id, fd);
          Reply(Finish(answered.result), answered.w)
  }

  /**
   * What epoll_on_conn_in does once conn_recv has the whole request: send
   * the response at once; a response sent in full drops the connection,
   * one the socket does not take in full switches the registration to
   * EPOLLOUT with data `id + 1`, and a write error fails.
   */
  function Answer(k: PoolKind, w: World, id: nat, fd: int): (r: Step)
    requires Shaped(k, w) && id < Capacity(k)
    ensures Shaped(k, r.w) && Within(w, r.w)
  {
    var sent := SendAt(k, w, id);
    match sent.value
    case None => Step(None, sent.w)
    case Some(CwmYes) =>
      var reg := Register(sent.w, fd, Registration(ForWrite, id + 1));
      Step(Some(reg.value), reg.w)
    case Some(CwmNo) => Step(Some(true), Drop(k, sent.w, id, fd))
    case Some(CwmError) => Step(Some(false), sent.w)
  }

  /**
   * epoll_on_conn_out: resume sending; a response sent in full drops the
   * connection, one that would block keeps it waiting, a write error fails.
   */
  function ConnOut(k: PoolKind, w: World, id: nat): (r: Step)
    requires Shaped(k, w) && id < Capacity(k)
    ensures Shaped(k, r.w) && Within(w, r.w)
  {
    var sent := SendAt(k, w, id);
    match sent.value
    case None => Step(None, sent.w)
    case Some(CwmYes) => Step(Some(true), sent.w)
    case Some(CwmNo) => Step(Some(true), Drop(k, sent.w, id, sent.w.slots[id].socketFd))
    case Some(CwmError) => Step(Some(false), sent.w)
  }

  /**
   * The part of epoll_on_event for a connection (`data.u64` = id + 1):
   * hangup or error drops it whatever else is set; otherwise exactly one of
   * EPOLLIN and EPOLLOUT must be set (asserted), and its handler runs. An
   * id past the pool reads outside the `connections` array.
   */
  function OnConnEvent(k: PoolKind, w: World, ev: Event): (r: Step)
    requires Shaped(k, w) && ev.data != 0
    ensures Shaped(k, r.w) && Within(w, r.w)
  {
    var id := ev.data - 1;
    if id >= Capacity(k) then Step(None, w)
    else if ev.hangup || ev.error then Step(Some(true), Drop(k, w, id, w.slots[id].socketFd))
    else if ev.readable == ev.writable then Step(None, w)
    else if ev.readable then ConnIn(k, w, id, w.slots[id].socketFd)
    else ConnOut(k, w, id)
  }

  /**
   * The kernel as the loops see it: the epoll interest list, the sockets
   * closed, the bytes written, the timeouts passed to epoll_wait, and the
   * scripts of what the next system calls report. Each method is one
   * system call and changes only what that call changes.
   */
  class Kernel {
    var interest: map<int, Registration>
    var closed: seq<int>
    var written: seq<Written>
    var sleeps: seq<int>
    var env: Env

    /** The kernel's part of `w`. */
    ghost predicate Mirrors(w: World)
      reads this
    {
      interest == w.interest && closed == w.closed && written == w.written && sleeps == w.sleeps && env == w.env
    }

    /** A kernel that will report what `env` says, with nothing registered, closed or written yet. */
    constructor (env: Env)
      ensures interest == map[] && closed == [] && written == [] && sleeps == [] && this.env == env
    {
      interest := map[];
      closed := [];
      written := [];
      sleeps := [];
      this.env := env;
    }

    method ClockGettime(ghost w: World) returns (c: ClockResult)
      requires Mirrors(w)
      modifies this`env
      ensures Mirrors(ReadClock(w).w) && c == ReadClock(w).value
    {
      if env.clock == [] {
        return ClockFailed;
      }
      c := env.clock[0];
      env := env.(clock := env.clock[1..]);
    }

    method Accept4(ghost w: World) returns (a: AcceptResult)
      requires Mirrors(w)
      modifies this`env
      ensures Mirrors(Accept(w).w) && a == Accept(w).value
    {
      if env.accepts == [] {
        return AcceptAgain;
      }
      a := env.accepts[0];
      env := env.(accepts := env.accepts[1..]);
    }

    method ReadSocket(ghost w: World) returns (rd: ReadResult)
      requires Mirrors(w)
      modifies this`env
      ensures Mirrors(Read(w).w) && rd == Read(w).value
    {
      if env.incoming == [] {
        return ReadAgain;
      }
      rd := env.incoming[0];
      env := env.(incoming := env.incoming[1..]);
    }

    method EpollWait(timeout: int, ghost w: World) returns (res: WaitResult)
      requires Mirrors(w) && timeout == w.maxSleep
      modifies this`env, this`sleeps
      ensures Mirrors(Wait(w).w) && res == Wait(w).value
    {
      sleeps := sleeps + [timeout];
      if env.waits == [] {
        return Ready([]);
      }
      res := env.waits[0];
      env := env.(waits := env.waits[1..]);
    }

    method EpollCtl(fd: int, reg: Registration, ghost w: World) returns (ok: bool)
      requires Mirrors(w)
      modifies this`env, this`interest
      ensures Mirrors(Register(w, fd, reg).w) && ok == Register(w, fd, reg).value
    {
      ok := env.ctls == [] || env.ctls[0];
      if env.ctls != [] {
        env := env.(ctls := env.ctls[1..]);
      }
      if ok {
        interest := interest[fd := reg];
      }
    }

    method CloseSocket(fd: int, ghost w: World)
      requires Mirrors(w)
      modifies this`closed, this`interest
      ensures Mirrors(Close(w, fd))
    {
      closed := closed + [fd];
      interest := interest - {fd};
    }

    /** The bytes a conn_send call handed to `fd`, and the write results it left unused. */
    method RecordWrite(fd: int, out: seq<byte>, rest: seq<WriteResult>)
      modifies this`written, this`env
      ensures written == old(written) + [Written(fd, out)] && env == old(env).(writes := rest)
    {
      written := written + [Written(fd, out)];
      env := env.(writes := rest);
    }
  }
}
