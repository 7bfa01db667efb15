/**
 * The event loop of src/epoll.c over the src/conn.c pool: one call of
 * epoll_wait_and_dispatch reads the clock, sweeps the timeouts, waits and
 * handles the batch of events. The functions state what each handler does
 * to the world; the class runs the handlers step by step and is proved to
 * do the same.
 */
module Epoll {
  import opened Bytes
  import opened Bitmap
  import opened Response
  import Conn
  import opened Reactor

  /**
   * epoll_on_server_in: accept until the pool is full or accept would
   * block. An accept, clock or epoll_ctl failure makes it return false.
   */
  function ServerIn(w: World): (r: Step)
    requires Shaped(Current, w)
    ensures Shaped(Current, r.w) && Within(w, r.w)
    ensures r.result.Some?
    decreases |w.env.accepts|
  {
    if Full(Current, w) then Step(Some(true), w)
    else
      var one := AcceptPass(w);
      if one.value.Some? then Step(one.value, one.w) else ServerIn(one.w)
  }

  /**
   * One pass of the accept loop, on a pool with a free slot: Some(b) when
   * epoll_on_server_in returns `b` (true when accept would block), None
   * when the loop goes on. An accepted socket gets the lowest free slot
   * (conn_new cannot fail, as the loop guard left a free slot), a timeout
   * 2000 ms after the clock's reading and an EPOLLIN registration with
   * data `id + 1`.
   */
  function AcceptPass(w: World): (r: Reply<Option<bool>>)
    requires Shaped(Current, w) && !Full(Current, w)
    ensures Shaped(Current, r.w) && Within(w, r.w)
    ensures r.value.None? ==> |r.w.env.accepts| < |w.env.accepts|
  {
    var acc := Accept(w);
    match acc.value
    case AcceptAgain => Reply(Some(true), acc.w)
    case AcceptFailed => Reply(Some(false), acc.w)
    case Accepted(fd) =>
      var id := LowestFree(acc.w.bits, Conn.MAX_CONN_COUNT);
      assert id != -1;
      var admitted := Admit(Current, Occupy(Current, acc.w, id, fd), id, fd);
      if !admitted.value then Reply(Some(false), admitted.w) else Reply(None, admitted.w)
  }

  /** epoll_on_event: `data.u64` 0 is the listening socket, any other a connection. */
  function HandleEvent(w: World, ev: Event): (r: Step)
    requires Shaped(Current, w)
    ensures Shaped(Current, r.w) && Within(w, r.w)
  {
    if ev.data == 0 then ServerIn(w) else OnConnEvent(Current, w, ev)
  }

  /** The batch loop: the events in the order delivered, until a handler does not return true. */
  function HandleEvents(w: World, evs: seq<Event>): (r: Step)
    requires Shaped(Current, w)
    ensures Shaped(Current, r.w) && Within(w, r.w)
    decreases |evs|
  {
    if evs == [] then Step(Some(true), w)
    else
      var r := HandleEvent(w, evs[0]);
      if r.result != Some(true) then r else HandleEvents(r.w, evs[1..])
  }

  /**
   * epoll_wait_and_dispatch: read the clock into `epoll_now`, reset
   * `epoll_max_sleep` to -1, sweep the timeouts, then wait with that
   * timeout; no events means success, a failed wait or clock means false.
   */
  function Iteration(w: World): (r: Step)
    requires Shaped(Current, w)
    ensures Shaped(Current, r.w)
  {
    var tick := Tick(Current, w);
    if !tick.value then Step(Some(false), tick.w) else Dispatch(tick.w)
  }

  /** The epoll_wait of an iteration and the handling of the events it returns; none is a success. */
  function Dispatch(w: World): (r: Step)
    requires Shaped(Current, w)
    ensures Shaped(Current, r.w) && |r.w.env.clock| <= |w.env.clock|
  {
    var waited := Wait(w);
    match waited.value
    case WaitFailed => Step(Some(false), waited.w)
    case Ready(evs) => if evs == [] then Step(Some(true), waited.w) else HandleEvents(waited.w, evs)
  }

  /** The statics of src/epoll.c, the pool it drives and the kernel it talks to. */
  class EventLoop {
    const pool: Conn.Connections
    const kernel: Kernel
    var now: Conn.uint64
    var maxSleep: int

    ghost predicate Valid()
      reads this, pool, pool.slots
    {
      pool.Valid()
    }

    /** The loop, its pool and its kernel are in the state `w`. */
    ghost predicate Models(w: World)
      reads this, pool, pool.slots, pool.Arrays(), kernel
    {
      && Shaped(Current, w)
      && pool.Holds(w.bits, w.slots) && kernel.Mirrors(w)
      && now == w.now && maxSleep == w.maxSleep
    }

    constructor (pool: Conn.Connections, kernel: Kernel)
      ensures this.pool == pool && this.kernel == kernel && now == 0 && maxSleep == 0
    {
      this.pool := pool;
      this.kernel := kernel;
      now := 0;
      maxSleep := 0;
    }

    /** `close(fd); conn_free(id);` */
    method Drop(id: nat, fd: int, ghost w: World)
      requires Valid() && Models(w) && id < Conn.MAX_CONN_COUNT
      modifies kernel, pool, pool.slots[id], pool.slots[id].reqFields
      ensures Valid() && Models(Reactor.Drop(Current, w, id, fd))
    {
      kernel.CloseSocket(fd, w);
      pool.Free(id);
    }

    /** epoll_timeout_helper. */
    method TimeoutHelper(id: nat, ghost w: World)
      requires Valid() && Models(w) && id < Conn.MAX_CONN_COUNT
      modifies this, kernel, pool, pool.slots[id], pool.slots[id].reqFields
      ensures Valid() && Models(Reactor.TimeoutHelper(Current, w, id))
    {
      var timeout := pool.GetTimeout(id);
      if now >= timeout {
        var fd := pool.GetSocketFd(id);
        Drop(id, fd, w);
        return;
      }
      if timeout - now > INT_MAX {
        return;
      }
      var remaining := timeout - now;
      if maxSleep == -1 || remaining < maxSleep {
        maxSleep := remaining;
      }
    }

    /** The clock reading, the reset of `epoll_max_sleep` and the sweep that start an iteration. */
    method Tick(ghost w: World) returns (ok: bool)
      requires Valid() && Models(w)
      modifies this, kernel, pool, pool.slots, pool.Arrays()
      ensures Valid() && Models(Reactor.Tick(Current, w).w) && ok == Reactor.Tick(Current, w).value
    {
      var clk := kernel.ClockGettime(w);
      ghost var cur := ReadClock(w).w;
      if clk.ClockFailed? {
        return false;
      }
      now := Millis(clk);
      maxSleep := -1;
      cur := cur.(now := Millis(clk), maxSleep := -1);
      SweepTimeouts(cur);
      return true;
    }

    /** conn_for_each(epoll_timeout_helper), with conn_for_each's loop written out. */
    method SweepTimeouts(ghost w: World)
      requires Valid() && Models(w)
      modifies this, kernel, pool, pool.slots, pool.Arrays()
      ensures Valid() && Models(Sweep(Current, w))
    {
      var id := 0;
      ghost var cur := w;
      while id < Conn.MAX_CONN_COUNT
        invariant 0 <= id <= Conn.MAX_CONN_COUNT
        invariant Valid() && Models(cur)
        invariant SweepFrom(Current, cur, id) == Sweep(Current, w)
      {
        SweepOne(id, cur);
        SweepFromUnfolds(Current, cur, id);
        cur := SweepAt(Current, cur, id);
        id := id + 1;
      }
    }

    /** One step of conn_for_each(epoll_timeout_helper): the helper runs on `id` if it is in use. */
    method SweepOne(id: nat, ghost w: World)
      requires Valid() && Models(w) && id < Conn.MAX_CONN_COUNT
      modifies this, kernel, pool, pool.slots[id], pool.slots[id].reqFields
      ensures Valid() && Models(SweepAt(Current, w, id))
    {
      var used := pool.IsValid(id);
      if used {
        TimeoutHelper(id, w);
      }
    }

    /** conn_recv on `id`. */
    method Recv(id: nat, data: seq<byte>, ghost w: World) returns (r: Option<Conn.WantsMore>)
      requires Valid() && Models(w) && id < Conn.MAX_CONN_COUNT
      modifies pool.slots[id], pool.slots[id].reqFields
      ensures Valid() && Models(RecvAt(Current, w, id, data).w) && r == RecvAt(Current, w, id, data).value
    {
      r := pool.Recv(id, data);
    }

    /** conn_send on `id`, with the write results the kernel reports. */
    method Send(id: nat, ghost w: World) returns (r: Option<Conn.WantsMore>)
      requires Valid() && Models(w) && id < Conn.MAX_CONN_COUNT
      modifies kernel, pool.slots[id], pool.tmpBuf
      ensures Valid() && Models(SendAt(Current, w, id).w) && r == SendAt(Current, w, id).value
    {
      var fd := pool.GetSocketFd(id);
      ghost var sent := Conn.Sending(w.bits[id], w.slots[id], w.env.writes);
      ghost var v := w.(slots := w.slots[id := sent.slot], written := w.written + [Written(fd, sent.out)],
                        env := w.env.(writes := sent.rest));
      assert SendAt(Current, w, id) == Reply(sent.result, v);
      var out, rest;
      r, out, rest := PoolSend(id, w);
      kernel.RecordWrite(fd, out, rest);
      assert kernel.Mirrors(v);
    }

    /** The pool's side of conn_send on `id`: the slot's counter and what the writes did. */
    method PoolSend(id: nat, ghost w: World) returns (r: Option<Conn.WantsMore>, out: seq<byte>, rest: seq<WriteResult>)
      requires Valid() && Models(w) && id < Conn.MAX_CONN_COUNT
      modifies pool.slots[id], pool.tmpBuf
      ensures Valid()
      ensures var sent := Conn.Sending(w.bits[id], w.slots[id], w.env.writes);
        && pool.Holds(w.bits, w.slots[id := sent.slot])
        && r == sent.result && out == sent.out && rest == sent.rest
    {
      ghost var sent := Conn.Sending(w.bits[id], w.slots[id], w.env.writes);
      r, out, rest := pool.Send(id, kernel.env.writes);
      ghost var values := w.slots[id := sent.slot];
      forall i | 0 <= i < |pool.slots|
        ensures pool.slots[i].Value() == values[i]
      {
        assert pool.At(i) == pool.slots[i].Value();
      }
    }

    /** epoll_on_server_in. */
    method OnServerIn(ghost w: World) returns (ok: bool)
      requires Valid() && Models(w)
      modifies kernel, pool, pool.slots
      ensures Valid() && Models(ServerIn(w).w) && Some(ok) == ServerIn(w).result
    {
      ghost var cur := w;
      while true
        invariant Valid() && Models(cur)
        invariant ServerIn(cur) == ServerIn(w)
        decreases |kernel.env.accepts|
      {
        var full := pool.IsFull();
        if full {
          return true;
        }
        var done := AcceptOne(cur);
        cur := AcceptPass(cur).w;
        if done.Some? {
          return done.value;
        }
      }
    }

    /** One pass of the accept loop of epoll_on_server_in, with a free slot. */
    method AcceptOne(ghost w: World) returns (done: Option<bool>)
      requires Valid() && Models(w) && !Full(Current, w)
      modifies kernel, pool, pool.slots
      ensures Valid() && Models(AcceptPass(w).w) && done == AcceptPass(w).value
    {
      var acc := kernel.Accept4(w);
      ghost var cur := Accept(w).w;
      if acc.AcceptAgain? {
        return Some(true);
      }
      if acc.AcceptFailed? {
        return Some(false);
      }
      var id := New(acc.fd, cur);
      cur := Occupy(Current, cur, id, acc.fd);
      var admitted := Admit(id, acc.fd, cur);
      if !admitted {
        return Some(false);
      }
      return None;
    }

    /** conn_new on a pool with a free slot: the lowest one. */
    method New(fd: int, ghost w: World) returns (id: nat)
      requires Valid() && Models(w) && !Full(Current, w)
      modifies pool, pool.slots
      ensures id == LowestFree(w.bits, Conn.MAX_CONN_COUNT) && id < Conn.MAX_CONN_COUNT
      ensures Valid() && Models(Occupy(Current, w, id, fd))
    {
      var got := pool.New(fd);
      assert got != -1;
      id := got;
      ghost var w' := Occupy(Current, w, id, fd);
      forall i | 0 <= i < |pool.slots|
        ensures pool.slots[i].Value() == w'.slots[i]
      {
        assert pool.At(i) == pool.slots[i].Value();
      }
    }

    /** The clock reading, conn_set_timeout and epoll_ctl for a socket just given slot `id`. */
    method Admit(id: nat, fd: int, ghost w: World) returns (ok: bool)
      requires Valid() && Models(w) && id < Conn.MAX_CONN_COUNT
      modifies kernel, pool.slots[id]
      ensures Valid() && Models(Reactor.Admit(Current, w, id, fd).w) && ok == Reactor.Admit(Current, w, id, fd).value
    {
      var clk := kernel.ClockGettime(w);
      ghost var cur := ReadClock(w).w;
      if clk.ClockFailed? {
        return false;
      }
      pool.SetTimeout(id, Deadline(clk));
      cur := SetTimeout(Current, cur, id, Deadline(clk));
      ok := kernel.EpollCtl(fd, Registration(ForRead, id + 1), cur);
    }

    /** epoll_on_conn_in. */
    method OnConnIn(id: nat, ghost w: World) returns (r: Option<bool>)
      requires Valid() && Models(w) && id < Conn.MAX_CONN_COUNT
      modifies kernel, pool, pool.slots, pool.Arrays(), pool.tmpBuf
      ensures Valid() && Models(ConnIn(Current, w, id, w.slots[id].socketFd).w)
      ensures r == ConnIn(Current, w, id, w.slots[id].socketFd).result
    {
      var fd := pool.GetSocketFd(id);
      ghost var cur := w;
      while true
        invariant Valid() && Models(cur)
        invariant ConnIn(Current, cur, id, fd) == ConnIn(Current, w, id, fd)
        decreases |kernel.env.incoming|
      {
        var pass := ReadOnce(id, fd, cur);
        cur := ReadPass(Current, cur, id, fd).w;
        if pass.Finish? {
          return pass.result;
        }
      }
    }

    /** One pass of the read loop of epoll_on_conn_in. */
    method ReadOnce(id: nat, fd: int, ghost w: World) returns (pass: Pass)
      requires Valid() && Models(w) && id < Conn.MAX_CONN_COUNT
      modifies kernel, pool, pool.slots[id], pool.slots[id].reqFields, pool.tmpBuf
      ensures Valid() && Models(ReadPass(Current, w, id, fd).w) && pass == ReadPass(Current, w, id, fd).value
    {
      var rd := kernel.ReadSocket(w);
      ghost var cur := Read(w).w;
      if rd.ReadAgain? {
        return Finish(Some(true));
      }
      if rd.ReadFailed? {
        return Finish(Some(false));
      }
      if |rd.bytes| == 0 {
        Drop(id, fd, cur);
        return Finish(Some(true));
      }
      var wants := Recv(id, rd.bytes, cur);
      cur := RecvAt(Current, cur, id, rd.bytes).w;
      if wants.None? {
        return Finish(None);
      }
      match wants.value
      case CwmYes =>
        return GoOn;
      case CwmError =>
        Drop(id, fd, cur);
        return Finish(Some(true));
      case CwmNo =>
        var answered := Answer(id, fd, cur);
        return Finish(answered);
    }

    /** The conn_send call of epoll_on_conn_in once the request is complete, and what follows it. */
    method Answer(id: nat, fd: int, ghost w: World) returns (r: Option<bool>)
      requires Valid() && Models(w) && id < Conn.MAX_CONN_COUNT
      modifies kernel, pool, pool.slots[id], pool.slots[id].reqFields, pool.tmpBuf
      ensures Valid() && Models(Reactor.Answer(Current, w, id, fd).w) && r == Reactor.Answer(Current, w, id, fd).result
    {
      var sent := Send(id, w);
      ghost var cur := SendAt(Current, w, id).w;
      if sent.None? {
        return None;
      }
      match sent.value
      case CwmYes =>
        var registered := kernel.EpollCtl(fd, Registration(ForWrite, id + 1), cur);
        return Some(registered);
      case CwmNo =>
        Drop(id, fd, cur);
        return Some(true);
      case CwmError =>
        return Some(false);
    }

    /** epoll_on_conn_out. */
    method OnConnOut(id: nat, ghost w: World) returns (r: Option<bool>)
      requires Valid() && Models(w) && id < Conn.MAX_CONN_COUNT
      modifies kernel, pool, pool.slots, pool.Arrays(), pool.tmpBuf
      ensures Valid() && Models(ConnOut(Current, w, id).w) && r == ConnOut(Current, w, id).result
    {
      var sent := Send(id, w);
      ghost var cur := SendAt(Current, w, id).w;
      if sent.None? {
        return None;
      }
      match sent.value
      case CwmYes =>
        return Some(true);
      case CwmNo =>
        var fd := pool.GetSocketFd(id);
        Drop(id, fd, cur);
        return Some(true);
      case CwmError =>
        return Some(false);
    }

    /** epoll_on_event. */
    method OnEvent(ev: Event, ghost w: World) returns (r: Option<bool>)
      requires Valid() && Models(w)
      modifies kernel, pool, pool.slots, pool.Arrays(), pool.tmpBuf
      ensures Valid() && Models(HandleEvent(w, ev).w) && r == HandleEvent(w, ev).result
    {
      if ev.data == 0 {
        var ok := OnServerIn(w);
        return Some(ok);
      }
      var id := ev.data - 1;
      if id >= Conn.MAX_CONN_COUNT {
        return None;
      }
      if ev.hangup || ev.error {
        var fd := pool.GetSocketFd(id);
        Drop(id, fd, w);
        return Some(true);
      }
      if ev.readable == ev.writable {
        return None;
      }
      if ev.readable {
        r := OnConnIn(id, w);
      } else {
        r := OnConnOut(id, w);
      }
    }

    /** epoll_wait_and_dispatch. */
    method WaitAndDispatch(ghost w: World) returns (r: Option<bool>)
      requires Valid() && Models(w)
      modifies this, kernel, pool, pool.slots, pool.Arrays(), pool.tmpBuf
      ensures Valid() && Models(Iteration(w).w) && r == Iteration(w).result
    {
      var ticked := Tick(w);
      ghost var cur := Reactor.Tick(Current, w).w;
      if !ticked {
        return Some(false);
      }
      r := WaitThenHandle(cur);
    }

    /** The epoll_wait call of an iteration and the batch loop over what it returns. */
    method WaitThenHandle(ghost w: World) returns (r: Option<bool>)
      requires Valid() && Models(w)
      modifies kernel, pool, pool.slots, pool.Arrays(), pool.tmpBuf
      ensures Valid() && Models(Dispatch(w).w) && r == Dispatch(w).result
    {
      var res := kernel.EpollWait(maxSleep, w);
      ghost var cur := Wait(w).w;
      if res.WaitFailed? {
        return Some(false);
      }
      if |res.events| == 0 {
        return Some(true);
      }
      r := OnEvents(res.events, cur);
    }

    /** The loop of epoll_wait_and_dispatch over the events epoll_wait returned. */
    method OnEvents(events: seq<Event>, ghost w: World) returns (r: Option<bool>)
      requires Valid() && Models(w)
      modifies kernel, pool, pool.slots, pool.Arrays(), pool.tmpBuf
      ensures Valid() && Models(HandleEvents(w, events).w) && r == HandleEvents(w, events).result
    {
      var i := 0;
      ghost var cur := w;
      while i < |events|
        invariant 0 <= i <= |events|
        invariant Valid() && Models(cur)
        invariant HandleEvents(cur, events[i..]) == HandleEvents(w, events)
      {
        assert events[i..][1..] == events[i + 1..];
        r := OnEvent(events[i], cur);
        if r != Some(true) {
          return r;
        }
        cur := HandleEvent(cur, events[i]).w;
        i := i + 1;
      }
      return Some(true);
    }
  }
}
