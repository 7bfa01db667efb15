/**
 * The event loop of the root epoll.c over the root conn.c pool. Its
 * handlers are those of src/epoll.c (the Reactor module) with three
 * differences: epoll_on_server_in does not stop when the pool is full but
 * closes each socket conn_new has no slot for; epoll_on_event swallows a
 * failure of epoll_on_server_in and asserts the listening socket's event
 * is a plain EPOLLIN; and epoll_run loops by itself, treating an
 * epoll_wait that returns 0 as "go round again".
 */
module LegacyEpoll {
  import opened Bytes
  import opened Bitmap
  import opened Response
  import Conn
  import LegacyConn
  import opened Reactor

  /** epoll_on_server_in: accept until accept would block or something fails. */
  function ServerIn(go: LegacyConn.ParserGo, w: World): (r: Step)
    requires Shaped(Legacy(go), w)
    ensures Shaped(Legacy(go), r.w) && Within(w, r.w)
    ensures r.result.Some?
    decreases |w.env.accepts|
  {
    var one := AcceptPass(go, w);
    match one.value
    case GoOn => ServerIn(go, one.w)
    case Finish(result) => Step(result, one.w)
  }

  /**
   * One pass of the accept loop. EAGAIN ends it with true, an accept
   * failure with false. An accepted socket with no free slot is closed and
   * the loop goes on; otherwise it takes the lowest free slot and is
   * admitted (clock, timeout, EPOLLIN registration), false when that fails.
   */
  function AcceptPass(go: LegacyConn.ParserGo, w: World): (r: Reply<Pass>)
    requires Shaped(Legacy(go), w)
    ensures Shaped(Legacy(go), r.w) && Within(w, r.w)
    ensures r.value == GoOn ==> |r.w.env.accepts| < |w.env.accepts|
    ensures r.value.Finish? ==> r.value.result.Some?
  {
    var acc := Accept(w);
    match acc.value
    case AcceptAgain => Reply(Finish(Some(true)), acc.w)
    case AcceptFailed => Reply(Finish(Some(false)), acc.w)
    case Accepted(fd) =>
      var id := LowestFree(acc.w.bits, LegacyConn.MAX_CONN_COUNT);
      if id == -1 then Reply(GoOn, Close(acc.w, fd))
      else
        var admitted := Admit(Legacy(go), Occupy(Legacy(go), acc.w, id, fd), id, fd);
        Reply(if admitted.value then GoOn else Finish(Some(false)), admitted.w)
  }

  /**
   * epoll_on_event. For the listening socket (`data.u64` 0) hangup, error,
   * EPOLLOUT or a missing EPOLLIN fail an assertion; the result of
   * epoll_on_server_in is dropped, so the event always succeeds.
   */
  function HandleEvent(go: LegacyConn.ParserGo, w: World, ev: Event): (r: Step)
    requires Shaped(Legacy(go), w)
    ensures Shaped(Legacy(go), r.w) && Within(w, r.w)
  {
    if ev.data == 0 then
      if ev.hangup || ev.error || !ev.readable || ev.writable then Step(None, w)
      else Step(Some(true), ServerIn(go, w).w)
    else OnConnEvent(Legacy(go), w, ev)
  }

  /** The batch loop of epoll_run: the events in order, until a handler does not return true. */
  function HandleEvents(go: LegacyConn.ParserGo, w: World, evs: seq<Event>): (r: Step)
    requires Shaped(Legacy(go), w)
    ensures Shaped(Legacy(go), r.w) && Within(w, r.w)
    decreases |evs|
  {
    if evs == [] then Step(Some(true), w)
    else
      var r := HandleEvent(go, w, evs[0]);
      if r.result != Some(true) then r else HandleEvents(go, r.w, evs[1..])
  }

  /**
   * One round of epoll_run: clock, sweep, wait, handle. Some(true) means
   * the loop goes round again (after a wait that returned 0 events too);
   * a round that goes on has used up one clock reading.
   */
  function Iteration(go: LegacyConn.ParserGo, w: World): (r: Step)
    requires Shaped(Legacy(go), w)
    ensures Shaped(Legacy(go), r.w)
    ensures r.result == Some(true) ==> |r.w.env.clock| < |w.env.clock|
  {
    var tick := Tick(Legacy(go), w);
    if !tick.value then Step(Some(false), tick.w) else Dispatch(go, tick.w)
  }

  /** The epoll_wait of an iteration and the handling of the events it returns; none is a success. */
  function Dispatch(go: LegacyConn.ParserGo, w: World): (r: Step)
    requires Shaped(Legacy(go), w)
    ensures Shaped(Legacy(go), r.w) && |r.w.env.clock| <= |w.env.clock|
  {
    var waited := Wait(w);
    match waited.value
    case WaitFailed => Step(Some(false), waited.w)
    case Ready(evs) => if evs == [] then Step(Some(true), waited.w) else HandleEvents(go, waited.w, evs)
  }

  /**
   * epoll_run: rounds until one fails. It never returns true: it ends with
   * false (or undefined behaviour) once a system call or a handler fails,
   * at the latest when the clock has no reading left.
   */
  function RunLoop(go: LegacyConn.ParserGo, w: World): (r: Step)
    requires Shaped(Legacy(go), w)
    ensures Shaped(Legacy(go), r.w)
    ensures r.result != Some(true)
    decreases |w.env.clock|
  {
    var round := Iteration(go, w);
    if round.result == Some(true) then RunLoop(go, round.w) else round
  }

  /** The statics of epoll.c, the pool it drives and the kernel it talks to. */
  class EventLoop {
    const pool: LegacyConn.Connections
    const kernel: Kernel
    var now: Conn.uint64
    var maxSleep: int

    ghost predicate Valid()
      reads this, pool, pool.slots
    {
      pool.Valid()
    }

    /** The loop, its pool and its kernel are in the state `w`. */
    ghost predicate Models(w: World)
      reads this, pool, pool.slots, pool.Arrays(), kernel
    {
      && Shaped(Legacy(pool.go), w)
      && pool.Holds(w.bits, w.slots) && kernel.Mirrors(w)
      && now == w.now && maxSleep == w.maxSleep
    }

    constructor (pool: LegacyConn.Connections, kernel: Kernel)
      ensures this.pool == pool && this.kernel == kernel && now == 0 && maxSleep == 0
    {
      this.pool := pool;
      this.kernel := kernel;
      now := 0;
      maxSleep := 0;
    }

    /** `close(fd); conn_free(id);` */
    method Drop(id: nat, fd: int, ghost w: World)
      requires Valid() && Models(w) && id < LegacyConn.MAX_CONN_COUNT
      modifies kernel, pool, pool.slots[id], pool.slots[id].reqFields
      ensures Valid() && Models(Reactor.Drop(Legacy(pool.go), w, id, fd))
    {
      kernel.CloseSocket(fd, w);
      pool.Free(id);
    }

    /** epoll_timeout_helper. */
    method TimeoutHelper(id: nat, ghost w: World)
      requires Valid() && Models(w) && id < LegacyConn.MAX_CONN_COUNT
      modifies this, kernel, pool, pool.slots[id], pool.slots[id].reqFields
      ensures Valid() && Models(Reactor.TimeoutHelper(Legacy(pool.go), w, id))
    {
      var timeout := pool.GetTimeout(id);
      if now >= timeout {
        var fd := pool.GetSocketFd(id);
        Drop(id, fd, w);
        return;
      }
      if timeout - now > INT_MAX {
        return;
      }
      var remaining := timeout - now;
      if maxSleep == -1 || remaining < maxSleep {
        maxSleep := remaining;
      }
    }

    /** The clock reading, the reset of `epoll_max_sleep` and the sweep that start an iteration. */
    method Tick(ghost w: World) returns (ok: bool)
      requires Valid() && Models(w)
      modifies this, kernel, pool, pool.slots, pool.Arrays()
      ensures Valid() && Models(Reactor.Tick(Legacy(pool.go), w).w) && ok == Reactor.Tick(Legacy(pool.go), w).value
    {
      var clk := kernel.ClockGettime(w);
      ghost var cur := ReadClock(w).w;
      if clk.ClockFailed? {
        return false;
      }
      now := Millis(clk);
      maxSleep := -1;
      cur := cur.(now := Millis(clk), maxSleep := -1);
      SweepTimeouts(cur);
      return true;
    }

    /** conn_for_each(epoll_timeout_helper), with conn_for_each's loop over the bitmap written out. */
    method SweepTimeouts(ghost w: World)
      requires Valid() && Models(w)
      modifies this, kernel, pool, pool.slots, pool.Arrays()
      ensures Valid() && Models(Sweep(Legacy(pool.go), w))
    {
      var id := 0;
      ghost var cur := w;
      while id < LegacyConn.MAX_CONN_COUNT
        invariant 0 <= id <= LegacyConn.MAX_CONN_COUNT
        invariant Valid() && Models(cur)
        invariant SweepFrom(Legacy(pool.go), cur, id) == Sweep(Legacy(pool.go), w)
      {
        SweepOne(id, cur);
        SweepFromUnfolds(Legacy(pool.go), cur, id);
        cur := SweepAt(Legacy(pool.go), cur, id);
        id := id + 1;
      }
    }

    /** One step of conn_for_each(epoll_timeout_helper): the helper runs on `id` if its bit is set. */
    method SweepOne(id: nat, ghost w: World)
      requires Valid() && Models(w) && id < LegacyConn.MAX_CONN_COUNT
      modifies this, kernel, pool, pool.slots[id], pool.slots[id].reqFields
      ensures Valid() && Models(SweepAt(Legacy(pool.go), w, id))
    {
      if pool.bitmap[id] {
        TimeoutHelper(id, w);
      }
    }

    /** conn_recv on `id`. */
    method Recv(id: nat, data: seq<byte>, ghost w: World) returns (r: Option<Conn.WantsMore>)
      requires Valid() && Models(w) && id < LegacyConn.MAX_CONN_COUNT
      modifies pool.slots[id], pool.slots[id].reqFields
      ensures Valid() && Models(RecvAt(Legacy(pool.go), w, id, data).w)
      ensures r == RecvAt(Legacy(pool.go), w, id, data).value
    {
      r := pool.Recv(id, data);
    }

    /** conn_send on `id`, with the write results the kernel reports. */
    method Send(id: nat, ghost w: World) returns (r: Option<Conn.WantsMore>)
      requires Valid() && Models(w) && id < LegacyConn.MAX_CONN_COUNT
      modifies kernel, pool.slots[id], pool.tmpBuf
      ensures Valid()
      ensures Models(SendAt(Legacy(pool.go), w, id).w)
      ensures r == SendAt(Legacy(pool.go), w, id).value
    {
      var fd := pool.GetSocketFd(id);
      ghost var sent := LegacyConn.Sending(w.slots[id], w.env.writes);
      ghost var v := w.(slots := w.slots[id := sent.slot], written := w.written + [Written(fd, sent.out)],
                        env := w.env.(writes := sent.rest));
      assert SendAt(Legacy(pool.go), w, id) == Reply(sent.result, v);
      var out, rest;
      r, out, rest := PoolSend(id, w);
      kernel.RecordWrite(fd, out, rest);
      assert kernel.Mirrors(v);
    }

    /** The pool's side of conn_send on `id`: the slot's counter and what the writes did. */
    method PoolSend(id: nat, ghost w: World) returns (r: Option<Conn.WantsMore>, out: seq<byte>, rest: seq<WriteResult>)
      requires Valid() && Models(w) && id < LegacyConn.MAX_CONN_COUNT
      modifies pool.slots[id], pool.tmpBuf
      ensures Valid()
      ensures var sent := LegacyConn.Sending(w.slots[id], w.env.writes);
        && pool.Holds(w.bits, w.slots[id := sent.slot])
        && r == sent.result && out == sent.out && rest == sent.rest
    {
      ghost var sent := LegacyConn.Sending(w.slots[id], w.env.writes);
      r, out, rest := pool.Send(id, kernel.env.writes);
      ghost var values := w.slots[id := sent.slot];
      forall i | 0 <= i < |pool.slots|
        ensures pool.slots[i].Value() == values[i]
      {
        assert pool.At(i) == pool.slots[i].Value();
      }
    }

    /** epoll_on_server_in. */
    method OnServerIn(ghost w: World) returns (ok: bool)
      requires Valid() && Models(w)
      modifies kernel, pool, pool.slots
      ensures Valid() && Models(ServerIn(pool.go, w).w) && Some(ok) == ServerIn(pool.go, w).result
    {
      ghost var cur := w;
      while true
        invariant Valid() && Models(cur)
        invariant ServerIn(pool.go, cur) == ServerIn(pool.go, w)
        decreases |kernel.env.accepts|
      {
        var pass := AcceptOne(cur);
        cur := AcceptPass(pool.go, cur).w;
        if pass.Finish? {
          return pass.result.value;
        }
      }
    }

    /** One pass of the accept loop of epoll_on_server_in. */
    method AcceptOne(ghost w: World) returns (pass: Pass)
      requires Valid() && Models(w)
      modifies kernel, pool, pool.slots
      ensures Valid() && Models(AcceptPass(pool.go, w).w) && pass == AcceptPass(pool.go, w).value
    {
      var acc := kernel.Accept4(w);
      ghost var cur := Accept(w).w;
      if acc.AcceptAgain? {
        return Finish(Some(true));
      }
      if acc.AcceptFailed? {
        return Finish(Some(false));
      }
      var id := New(acc.fd, cur);
      if id == -1 {
        kernel.CloseSocket(acc.fd, cur);
        return GoOn;
      }
      cur := Occupy(Legacy(pool.go), cur, id, acc.fd);
      var admitted := Admit(id, acc.fd, cur);
      return if admitted then GoOn else Finish(Some(false));
    }

    /** conn_new: the lowest free slot, or -1 with the pool unchanged. */
    method New(fd: int, ghost w: World) returns (id: int)
      requires Valid() && Models(w)
      modifies pool, pool.slots
      ensures id == LowestFree(w.bits, LegacyConn.MAX_CONN_COUNT)
      ensures Valid() && Models(if id == -1 then w else Occupy(Legacy(pool.go), w, id, fd))
    {
      id := pool.New(fd);
      if id != -1 {
        ghost var w' := Occupy(Legacy(pool.go), w, id, fd);
        forall i | 0 <= i < |pool.slots|
          ensures pool.slots[i].Value() == w'.slots[i]
        {
          assert pool.At(i) == pool.slots[i].Value();
        }
      } else {
        forall i | 0 <= i < |pool.slots|
          ensures pool.slots[i].Value() == w.slots[i]
        {
          assert pool.At(i) == pool.slots[i].Value();
        }
      }
    }

    /** The clock reading, conn_set_timeout and epoll_ctl for a socket just given slot `id`. */
    method Admit(id: nat, fd: int, ghost w: World) returns (ok: bool)
      requires Valid() && Models(w) && id < LegacyConn.MAX_CONN_COUNT
      modifies kernel, pool.slots[id]
      ensures Valid() && Models(Reactor.Admit(Legacy(pool.go), w, id, fd).w)
      ensures ok == Reactor.Admit(Legacy(pool.go), w, id, fd).value
    {
      var clk := kernel.ClockGettime(w);
      ghost var cur := ReadClock(w).w;
      if clk.ClockFailed? {
        return false;
      }
      pool.SetTimeout(id, Deadline(clk));
      cur := SetTimeout(Legacy(pool.go), cur, id, Deadline(clk));
      ok := kernel.EpollCtl(fd, Registration(ForRead, id + 1), cur);
    }

    /** epoll_on_conn_in. */
    method OnConnIn(id: nat, ghost w: World) returns (r: Option<bool>)
      requires Valid() && Models(w) && id < LegacyConn.MAX_CONN_COUNT
      modifies kernel, pool, pool.slots, pool.Arrays(), pool.tmpBuf
      ensures Valid() && Models(ConnIn(Legacy(pool.go), w, id, w.slots[id].socketFd).w)
      ensures r == ConnIn(Legacy(pool.go), w, id, w.slots[id].socketFd).result
    {
      var fd := pool.GetSocketFd(id);
      ghost var cur := w;
      while true
        invariant Valid() && Models(cur)
        invariant ConnIn(Legacy(pool.go), cur, id, fd) == ConnIn(Legacy(pool.go), w, id, fd)
        decreases |kernel.env.incoming|
      {
        var pass := ReadOnce(id, fd, cur);
        cur := ReadPass(Legacy(pool.go), cur, id, fd).w;
        if pass.Finish? {
          return pass.result;
        }
      }
    }

    /** One pass of the read loop of epoll_on_conn_in. */
    method ReadOnce(id: nat, fd: int, ghost w: World) returns (pass: Pass)
      requires Valid() && Models(w) && id < LegacyConn.MAX_CONN_COUNT
      modifies kernel, pool, pool.slots[id], pool.slots[id].reqFields, pool.tmpBuf
      ensures Valid() && Models(ReadPass(Legacy(pool.go), w, id, fd).w)
      ensures pass == ReadPass(Legacy(pool.go), w, id, fd).value
    {
      var rd := kernel.ReadSocket(w);
      ghost var cur := Read(w).w;
      if rd.ReadAgain? {
        return Finish(Some(true));
      }
      if rd.ReadFailed? {
        return Finish(Some(false));
      }
      if |rd.bytes| == 0 {
        Drop(id, fd, cur);
        return Finish(Some(true));
      }
      var wants := Recv(id, rd.bytes, cur);
      cur := RecvAt(Legacy(pool.go), cur, id, rd.bytes).w;
      if wants.None? {
        return Finish(None);
      }
      match wants.value
      case CwmYes =>
        return GoOn;
      case CwmError =>
        Drop(id, fd, cur);
        return Finish(Some(true));
      case CwmNo =>
        var answered := Answer(id, fd, cur);
        return Finish(answered);
    }

    /** The conn_send call of epoll_on_conn_in once the request is complete, and what follows it. */
    method Answer(id: nat, fd: int, ghost w: World) returns (r: Option<bool>)
      requires Valid() && Models(w) && id < LegacyConn.MAX_CONN_COUNT
      modifies kernel, pool, pool.slots[id], pool.slots[id].reqFields, pool.tmpBuf
      ensures Valid() && Models(Reactor.Answer(Legacy(pool.go), w, id, fd).w)
      ensures r == Reactor.Answer(Legacy(pool.go), w, id, fd).result
    {
      var sent := Send(id, w);
      ghost var cur := SendAt(Legacy(pool.go), w, id).w;
      if sent.None? {
        return None;
      }
      match sent.value
      case CwmYes =>
        var registered := kernel.EpollCtl(fd, Registration(ForWrite, id + 1), cur);
        return Some(registered);
      case CwmNo =>
        Drop(id, fd, cur);
        return Some(true);
      case CwmError =>
        return Some(false);
    }

    /** epoll_on_conn_out. */
    method OnConnOut(id: nat, ghost w: World) returns (r: Option<bool>)
      requires Valid() && Models(w) && id < LegacyConn.MAX_CONN_COUNT
      modifies kernel, pool, pool.slots, pool.Arrays(), pool.tmpBuf
      ensures Valid() && Models(ConnOut(Legacy(pool.go), w, id).w) && r == ConnOut(Legacy(pool.go), w, id).result
    {
      var sent := Send(id, w);
      ghost var cur := SendAt(Legacy(pool.go), w, id).w;
      if sent.None? {
        return None;
      }
      match sent.value
      case CwmYes =>
        return Some(true);
      case CwmNo =>
        var fd := pool.GetSocketFd(id);
        Drop(id, fd, cur);
        return Some(true);
      case CwmError =>
        return Some(false);
    }

    /** epoll_on_event. */
    method OnEvent(ev: Event, ghost w: World) returns (r: Option<bool>)
      requires Valid() && Models(w)
      modifies kernel, pool, pool.slots, pool.Arrays(), pool.tmpBuf
      ensures Valid() && Models(HandleEvent(pool.go, w, ev).w) && r == HandleEvent(pool.go, w, ev).result
    {
      if ev.data == 0 {
        if ev.hangup || ev.error || !ev.readable || ev.writable {
          return None;
        }
        var ok := OnServerIn(w);
        return Some(true);
      }
      var id := ev.data - 1;
      if id >= LegacyConn.MAX_CONN_COUNT {
        return None;
      }
      if ev.hangup || ev.error {
        var fd := pool.GetSocketFd(id);
        Drop(id, fd, w);
        return Some(true);
      }
      if ev.readable == ev.writable {
        return None;
      }
      if ev.readable {
        r := OnConnIn(id, w);
      } else {
        r := OnConnOut(id, w);
      }
    }

    /** The loop of epoll_run over the events epoll_wait returned. */
    method OnEvents(events: seq<Event>, ghost w: World) returns (r: Option<bool>)
      requires Valid() && Models(w)
      modifies kernel, pool, pool.slots, pool.Arrays(), pool.tmpBuf
      ensures Valid() && Models(HandleEvents(pool.go, w, events).w) && r == HandleEvents(pool.go, w, events).result
    {
      var i := 0;
      ghost var cur := w;
      while i < |events|
        invariant 0 <= i <= |events|
        invariant Valid() && Models(cur)
        invariant HandleEvents(pool.go, cur, events[i..]) == HandleEvents(pool.go, w, events)
      {
        assert events[i..][1..] == events[i + 1..];
        r := OnEvent(events[i], cur);
        if r != Some(true) {
          return r;
        }
        cur := HandleEvent(pool.go, cur, events[i]).w;
        i := i + 1;
      }
      return Some(true);
    }

    /** One round of the `for (;;)` of epoll_run. */
    method RunOnce(ghost w: World) returns (r: Option<bool>)
      requires Valid() && Models(w)
      modifies this, kernel, pool, pool.slots, pool.Arrays(), pool.tmpBuf
      ensures Valid() && Models(Iteration(pool.go, w).w) && r == Iteration(pool.go, w).result
    {
      var ticked := Tick(w);
      ghost var cur := Reactor.Tick(Legacy(pool.go), w).w;
      if !ticked {
        return Some(false);
      }
      r := WaitThenHandle(cur);
    }

    /** The epoll_wait call of an iteration and the batch loop over what it returns. */
    method WaitThenHandle(ghost w: World) returns (r: Option<bool>)
      requires Valid() && Models(w)
      modifies kernel, pool, pool.slots, pool.Arrays(), pool.tmpBuf
      ensures Valid() && Models(Dispatch(pool.go, w).w) && r == Dispatch(pool.go, w).result
    {
      var res := kernel.EpollWait(maxSleep, w);
      ghost var cur := Wait(w).w;
      if res.WaitFailed? {
        return Some(false);
      }
      if |res.events| == 0 {
        return Some(true);
      }
      r := OnEvents(res.events, cur);
    }

    /** epoll_run. */
    method Run(ghost w: World) returns (r: Option<bool>)
      requires Valid() && Models(w)
      modifies this, kernel, pool, pool.slots, pool.Arrays(), pool.tmpBuf
      ensures Valid() && Models(RunLoop(pool.go, w).w) && r == RunLoop(pool.go, w).result
    {
      ghost var cur := w;
      while true
        invariant Valid() && Models(cur)
        invariant RunLoop(pool.go, cur) == RunLoop(pool.go, w)
        decreases |kernel.env.clock|
      {
        r := RunOnce(cur);
        if r != Some(true) {
          return r;
        }
        cur := Iteration(pool.go, cur).w;
      }
    }
  }
}
