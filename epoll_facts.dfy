/**
 * What the two event loops promise, stated on the world-level functions of
 * Reactor, Epoll and LegacyEpoll (which the EventLoop classes are proved
 * to follow): the timeout sweep, admission of new connections, the
 * dispatch of connection events, and the order of sweep and wait.
 */
module EpollFacts {
  import opened Bytes
  import opened Bitmap
  import opened Response
  import Conn
  import LegacyConn
  import opened Reactor
  import Epoll
  import LegacyEpoll

  // ---- the timeout sweep ----

  /** Slot `i` is in use and its timeout has come. */
  ghost predicate Expired(w: World, i: nat)
    requires i < |w.bits| && i < |w.slots|
  {
    w.bits[i] && w.now >= w.slots[i].timeout
  }

  /** Slot `i` is in use, not yet expired, and its remaining time fits an int. */
  ghost predicate Pending(w: World, i: nat)
    requires i < |w.bits| && i < |w.slots|
  {
    w.bits[i] && w.now < w.slots[i].timeout && w.slots[i].timeout - w.now <= INT_MAX
  }

  /** The socket descriptors of the expired slots from `from` to `to`, ascending by id. */
  ghost function ExpiredFds(w: World, from: nat, to: nat): seq<int>
    requires from <= to <= |w.bits| && to <= |w.slots|
    decreases (to as int) - from
  {
    if from == to then []
    else (if Expired(w, from) then [w.slots[from].socketFd] else []) + ExpiredFds(w, from + 1, to)
  }

  /** Worlds that agree on `now` and on the slots from `from` to `to` list the same expired sockets. */
  lemma {:induction false} ExpiredFdsAgree(w: World, v: World, from: nat, to: nat)
    requires from <= to <= |w.bits| && to <= |w.slots| && to <= |v.bits| && to <= |v.slots|
    requires w.now == v.now
    requires forall i :: from <= i < to ==> w.bits[i] == v.bits[i] && w.slots[i] == v.slots[i]
    ensures ExpiredFds(w, from, to) == ExpiredFds(v, from, to)
    decreases (to as int) - from
  {
    if from < to {
      ExpiredFdsAgree(w, v, from + 1, to);
    }
  }

  /** One step of the sweep, at slot `id`, touches slot `id` only. */
  lemma SweepStepLocal(k: PoolKind, w: World, id: nat)
    requires Shaped(k, w) && id < Capacity(k)
    ensures var v := SweepAt(k, w, id);
      && (forall i :: 0 <= i < |w.bits| && i != id ==> v.bits[i] == w.bits[i])
      && (forall i :: 0 <= i < |w.slots| && i != id ==> v.slots[i] == w.slots[i])
  {
  }

  /**
   * One step of the sweep, at slot `id`: an expired slot is freed and its
   * socket closed; any other slot stays as it was and nothing is closed.
   */
  lemma SweepStepAt(k: PoolKind, w: World, id: nat)
    requires Shaped(k, w) && id < Capacity(k)
    ensures var v := SweepAt(k, w, id);
      && (Expired(w, id) ==> !v.bits[id] && v.slots[id] == Conn.Freed(w.slots[id]))
      && (Expired(w, id) ==> v.closed == w.closed + [w.slots[id].socketFd])
      && (!Expired(w, id) ==> v.bits[id] == w.bits[id] && v.slots[id] == w.slots[id] && v.closed == w.closed)
  {
  }

  /** One step of the sweep, at slot `id`: a pending slot's remaining time lowers the bound. */
  lemma SweepStepSleep(k: PoolKind, w: World, id: nat)
    requires Shaped(k, w) && id < Capacity(k)
    ensures var v := SweepAt(k, w, id);
      && (!Pending(w, id) ==> v.maxSleep == w.maxSleep)
      && (Pending(w, id) ==> var rest := w.slots[id].timeout - w.now;
           v.maxSleep == if w.maxSleep == -1 || rest < w.maxSleep then rest else w.maxSleep)
  {
  }

  /** One step of the sweep, at slot `id`, seen from slot `i`. */
  lemma SweepStepSlot(k: PoolKind, w: World, id: nat, i: nat)
    requires Shaped(k, w) && id < Capacity(k) && i < Capacity(k)
    ensures var v := SweepAt(k, w, id);
      if i == id && Expired(w, i) then !v.bits[i] && v.slots[i] == Conn.Freed(w.slots[i])
      else v.bits[i] == w.bits[i] && v.slots[i] == w.slots[i]
  {
    SweepStepLocal(k, w, id);
    SweepStepAt(k, w, id);
  }

  /**
   * The sweep from id `from` on frees slot `i` when `i` is at or above
   * `from` and expired, and otherwise leaves its bit and slot as they were.
   */
  lemma {:induction false} SweepFromSlot(k: PoolKind, w: World, from: nat, i: nat)
    requires Shaped(k, w) && from <= Capacity(k) && i < Capacity(k)
    ensures var v := SweepFrom(k, w, from);
      if from <= i && Expired(w, i) then !v.bits[i] && v.slots[i] == Conn.Freed(w.slots[i])
      else v.bits[i] == w.bits[i] && v.slots[i] == w.slots[i]
    decreases Capacity(k) - from
  {
    if from < Capacity(k) {
      var w1 := SweepAt(k, w, from);
      SweepStepSlot(k, w, from, i);
      SweepFromUnfolds(k, w, from);
      SweepFromSlot(k, w1, from + 1, i);
    } else {
      assert SweepFrom(k, w, from) == w;
    }
  }

  /**
   * One step of the sweep, at slot `id`, closes the socket of slot `id`
   * when it has expired, and leaves the expired sockets above `id` as they were.
   */
  lemma SweepStepCloses(k: PoolKind, w: World, id: nat)
    requires Shaped(k, w) && id < Capacity(k)
    ensures var v := SweepAt(k, w, id);
      && v.closed == w.closed + (if Expired(w, id) then [w.slots[id].socketFd] else [])
      && ExpiredFds(v, id + 1, Capacity(k)) == ExpiredFds(w, id + 1, Capacity(k))
  {
    SweepStepLocal(k, w, id);
    SweepStepAt(k, w, id);
    ExpiredFdsAgree(SweepAt(k, w, id), w, id + 1, Capacity(k));
  }

  /** The sweep from id `from` on closes the expired sockets from `from` on, in ascending id order. */
  lemma {:induction false} SweepFromCloses(k: PoolKind, w: World, from: nat)
    requires Shaped(k, w) && from <= Capacity(k)
    ensures SweepFrom(k, w, from).closed == w.closed + ExpiredFds(w, from, Capacity(k))
    decreases Capacity(k) - from
  {
    if from < Capacity(k) {
      var w1 := SweepAt(k, w, from);
      SweepStepCloses(k, w, from);
      SweepFromUnfolds(k, w, from);
      SweepFromCloses(k, w1, from + 1);
      var later := ExpiredFds(w, from + 1, Capacity(k));
      var here := if Expired(w, from) then [w.slots[from].socketFd] else [];
      assert ExpiredFds(w, from, Capacity(k)) == here + later;
      assert SweepFrom(k, w, from).closed == (w.closed + here) + later;
      assert (w.closed + here) + later == w.closed + (here + later);
    } else {
      assert ExpiredFds(w, from, Capacity(k)) == [];
      assert SweepFrom(k, w, from) == w;
    }
  }

  /**
   * conn_for_each(epoll_timeout_helper) frees every slot in use whose
   * timeout has come (bit cleared, slot reset by conn_free), leaves every
   * other slot occupied or free and untouched, and closes the expired
   * sockets in ascending id order.
   */
  lemma SweepFreesExpired(k: PoolKind, w: World)
    requires Shaped(k, w)
    ensures var v := Sweep(k, w);
      && (forall i :: 0 <= i < Capacity(k) && Expired(w, i) ==> !v.bits[i] && v.slots[i] == Conn.Freed(w.slots[i]))
      && (forall i :: 0 <= i < Capacity(k) && !Expired(w, i) ==> v.bits[i] == w.bits[i] && v.slots[i] == w.slots[i])
      && v.closed == w.closed + ExpiredFds(w, 0, Capacity(k))
  {
    forall i | 0 <= i < Capacity(k)
      ensures var v := Sweep(k, w);
        if Expired(w, i) then !v.bits[i] && v.slots[i] == Conn.Freed(w.slots[i])
        else v.bits[i] == w.bits[i] && v.slots[i] == w.slots[i]
    {
      SweepFromSlot(k, w, 0, i);
    }
    SweepFromCloses(k, w, 0);
  }

  /**
   * The sleep bound the sweep computes from id `from` on stays -1 exactly
   * when it starts at -1 and no slot from `from` on is pending.
   */
  lemma {:induction false} SweepFromUnbounded(k: PoolKind, w: World, from: nat)
    requires Shaped(k, w) && from <= Capacity(k)
    requires w.maxSleep == -1 || w.maxSleep >= 1
    ensures SweepFrom(k, w, from).maxSleep == -1 <==>
      w.maxSleep == -1 && forall i :: from <= i < Capacity(k) ==> !Pending(w, i)
    decreases Capacity(k) - from
  {
    if from < Capacity(k) {
      var w1 := SweepAt(k, w, from);
      SweepStepLocal(k, w, from);
      SweepStepSleep(k, w, from);
      SweepFromUnfolds(k, w, from);
      assert forall i :: from < i < Capacity(k) ==> Pending(w1, i) == Pending(w, i);
      SweepFromUnbounded(k, w1, from + 1);
    }
  }

  /**
   * The sleep bound the sweep computes from id `from` on, starting from -1
   * or a positive bound, ends -1 or positive, and no larger than the
   * start or than the remaining time of any slot pending from `from` on.
   */
  lemma {:induction false} SweepFromBounded(k: PoolKind, w: World, from: nat)
    requires Shaped(k, w) && from <= Capacity(k)
    requires w.maxSleep == -1 || w.maxSleep >= 1
    ensures var m := SweepFrom(k, w, from).maxSleep;
      && (m == -1 || m >= 1)
      && (w.maxSleep != -1 ==> m <= w.maxSleep)
      && (forall i :: from <= i < Capacity(k) && Pending(w, i) ==> m <= w.slots[i].timeout - w.now)
    decreases Capacity(k) - from
  {
    if from < Capacity(k) {
      var w1 := SweepAt(k, w, from);
      SweepStepLocal(k, w, from);
      SweepStepSleep(k, w, from);
      SweepFromUnfolds(k, w, from);
      assert forall i :: from < i < Capacity(k) ==> Pending(w1, i) == Pending(w, i);
      SweepFromBounded(k, w1, from + 1);
    }
  }

  /**
   * The sleep bound the sweep computes from id `from` on is the start
   * value or the remaining time of a slot pending from `from` on.
   */
  lemma {:induction false} SweepFromAttained(k: PoolKind, w: World, from: nat)
    requires Shaped(k, w) && from <= Capacity(k)
    ensures var m := SweepFrom(k, w, from).maxSleep;
      m == w.maxSleep || exists i :: from <= i < Capacity(k) && Pending(w, i) && m == w.slots[i].timeout - w.now
    decreases Capacity(k) - from
  {
    if from < Capacity(k) {
      var w1 := SweepAt(k, w, from);
      SweepStepLocal(k, w, from);
      SweepStepSleep(k, w, from);
      SweepFromUnfolds(k, w, from);
      assert forall i :: from < i < Capacity(k) ==> Pending(w1, i) == Pending(w, i);
      SweepFromAttained(k, w1, from + 1);
    }
  }

  /**
   * After the sweep of an iteration (which starts from -1),
   * `epoll_max_sleep` is -1 exactly when no slot is pending; otherwise it
   * is the least remaining time of the pending slots, which is at least 1.
   */
  lemma SweepSleepIsLeastPending(k: PoolKind, w: World)
    requires Shaped(k, w) && w.maxSleep == -1
    ensures var m := Sweep(k, w).maxSleep;
      && (m == -1 <==> forall i :: 0 <= i < Capacity(k) ==> !Pending(w, i))
      && (m != -1 ==> m >= 1)
      && (forall i :: 0 <= i < Capacity(k) && Pending(w, i) ==> m <= w.slots[i].timeout - w.now)
      && (m != -1 ==> exists i :: 0 <= i < Capacity(k) && Pending(w, i) && m == w.slots[i].timeout - w.now)
  {
    SweepFromUnbounded(k, w, 0);
    SweepFromBounded(k, w, 0);
    SweepFromAttained(k, w, 0);
  }

  // ---- iterations: sweep, then wait ----

  /**
   * epoll_wait_and_dispatch sweeps before it waits: with a clock reading,
   * the one epoll_wait of the iteration gets the sleep bound the sweep
   * computed from that reading, and no events is a successful iteration.
   */
  lemma SweepBeforeWait(w: World)
    requires Shaped(Current, w) && w.env.clock != [] && w.env.clock[0].Clock?
    ensures var c := w.env.clock[0];
      var swept := Sweep(Current, w.(env := w.env.(clock := w.env.clock[1..]), now := Millis(c), maxSleep := -1));
      && Epoll.Iteration(w).w.sleeps == w.sleeps + [swept.maxSleep]
      && (w.env.waits == [] || w.env.waits[0] == Ready([]) ==> Epoll.Iteration(w).result == Some(true))
  {
  }

  /**
   * A round of epoll_run sweeps before it waits, and a wait that returns
   * no events sends the loop round again.
   */
  lemma LegacySweepBeforeWait(go: LegacyConn.ParserGo, w: World)
    requires Shaped(Legacy(go), w) && w.env.clock != [] && w.env.clock[0].Clock?
    ensures var c := w.env.clock[0];
      var swept := Sweep(Legacy(go), w.(env := w.env.(clock := w.env.clock[1..]), now := Millis(c), maxSleep := -1));
      && LegacyEpoll.Iteration(go, w).w.sleeps == w.sleeps + [swept.maxSleep]
      && (w.env.waits == [] || w.env.waits[0] == Ready([]) ==> LegacyEpoll.Iteration(go, w).result == Some(true))
  {
  }

  // ---- admission ----

  /** Slots in use in `w` are still in use, with the same contents, in `v`. */
  ghost predicate KeepsConnections(k: PoolKind, w: World, v: World)
    requires Shaped(k, w) && Shaped(k, v)
  {
    forall i :: 0 <= i < Capacity(k) && w.bits[i] ==> v.bits[i] && v.slots[i] == w.slots[i]
  }

  /**
   * src/epoll.c admits an accepted socket into the lowest free slot, with
   * a timeout 2000 ms after the clock's reading, registered for EPOLLIN
   * with data `id + 1`; no other slot changes.
   */
  lemma AcceptAdmits(w: World, fd: int)
    requires Shaped(Current, w) && !Full(Current, w)
    requires w.env.accepts != [] && w.env.accepts[0] == Accepted(fd)
    requires w.env.clock != [] && w.env.clock[0].Clock?
    requires w.env.ctls == [] || w.env.ctls[0]
    ensures var id := LowestFree(w.bits, Conn.MAX_CONN_COUNT);
      var r := Epoll.AcceptPass(w);
      && 0 <= id && !w.bits[id] && (forall i :: 0 <= i < id ==> w.bits[i])
      && r.value.None?
      && r.w.bits == w.bits[id := true]
      && r.w.slots == w.slots[id := w.slots[id].(socketFd := fd, timeout := Deadline(w.env.clock[0]))]
      && r.w.interest == w.interest[fd := Registration(ForRead, id + 1)]
  {
  }

  /** One pass of src/epoll.c's accept loop leaves the connections in use alone. */
  lemma AcceptPassKeeps(w: World)
    requires Shaped(Current, w) && !Full(Current, w)
    ensures KeepsConnections(Current, w, Epoll.AcceptPass(w).w)
  {
  }

  /**
   * epoll_on_server_in of src/epoll.c never disturbs a connection in use,
   * and on a full pool it returns true without calling accept at all.
   */
  lemma {:induction false} ServerInKeeps(w: World)
    requires Shaped(Current, w)
    ensures KeepsConnections(Current, w, Epoll.ServerIn(w).w)
    ensures Full(Current, w) ==> Epoll.ServerIn(w) == Step(Some(true), w)
    decreases |w.env.accepts|
  {
    if !Full(Current, w) {
      var one := Epoll.AcceptPass(w);
      AcceptPassKeeps(w);
      if one.value.None? {
        ServerInKeeps(one.w);
      }
    }
  }

  /**
   * epoll.c admits an accepted socket into the lowest free slot, with a
   * timeout 2000 ms after the clock's reading, registered for EPOLLIN with
   * data `id + 1`; no other slot changes.
   */
  lemma LegacyAcceptAdmits(go: LegacyConn.ParserGo, w: World, fd: int)
    requires Shaped(Legacy(go), w) && !Full(Legacy(go), w)
    requires w.env.accepts != [] && w.env.accepts[0] == Accepted(fd)
    requires w.env.clock != [] && w.env.clock[0].Clock?
    requires w.env.ctls == [] || w.env.ctls[0]
    ensures var id := LowestFree(w.bits, LegacyConn.MAX_CONN_COUNT);
      var r := LegacyEpoll.AcceptPass(go, w);
      && 0 <= id && !w.bits[id] && (forall i :: 0 <= i < id ==> w.bits[i])
      && r.value == GoOn
      && r.w.bits == w.bits[id := true]
      && r.w.slots == w.slots[id := w.slots[id].(socketFd := fd, timeout := Deadline(w.env.clock[0]))]
      && r.w.interest == w.interest[fd := Registration(ForRead, id + 1)]
  {
  }

  /**
   * epoll.c on a full pool: conn_new returns -1, the accepted socket is
   * closed, no slot is touched, and accepting goes on.
   */
  lemma LegacyFullCloses(go: LegacyConn.ParserGo, w: World, fd: int)
    requires Shaped(Legacy(go), w) && Full(Legacy(go), w)
    requires w.env.accepts != [] && w.env.accepts[0] == Accepted(fd)
    ensures var r := LegacyEpoll.AcceptPass(go, w);
      && r.value == GoOn
      && r.w.bits == w.bits && r.w.slots == w.slots
      && r.w.closed == w.closed + [fd] && fd !in r.w.interest
  {
  }

  /** One pass of epoll.c's accept loop leaves the connections in use alone. */
  lemma LegacyAcceptPassKeeps(go: LegacyConn.ParserGo, w: World)
    requires Shaped(Legacy(go), w)
    ensures KeepsConnections(Legacy(go), w, LegacyEpoll.AcceptPass(go, w).w)
    ensures Full(Legacy(go), w) ==> LegacyEpoll.AcceptPass(go, w).w.bits == w.bits
    ensures Full(Legacy(go), w) ==> LegacyEpoll.AcceptPass(go, w).w.slots == w.slots
  {
  }

  /**
   * epoll_on_server_in of epoll.c never disturbs a connection in use, and
   * on a full pool it leaves the pool exactly as it was, however many
   * sockets it accepts (and closes).
   */
  lemma {:induction false} LegacyServerInKeeps(go: LegacyConn.ParserGo, w: World)
    requires Shaped(Legacy(go), w)
    ensures KeepsConnections(Legacy(go), w, LegacyEpoll.ServerIn(go, w).w)
    ensures Full(Legacy(go), w) ==> LegacyEpoll.ServerIn(go, w).w.bits == w.bits
    ensures Full(Legacy(go), w) ==> LegacyEpoll.ServerIn(go, w).w.slots == w.slots
    decreases |w.env.accepts|
  {
    var one := LegacyEpoll.AcceptPass(go, w);
    LegacyAcceptPassKeeps(go, w);
    if one.value == GoOn {
      LegacyServerInKeeps(go, one.w);
    }
  }

  /**
   * epoll.c's epoll_on_event reports success for the listening socket,
   * whatever accepting did: epoll.c:213-214 returns 1 exactly when
   * epoll_on_server_in fails, and the branch otherwise falls through to the
   * final success. The model keeps this as written.
   */
  lemma LegacyServerEventSucceeds(go: LegacyConn.ParserGo, w: World, ev: Event)
    requires Shaped(Legacy(go), w) && ev.data == 0
    ensures LegacyEpoll.HandleEvent(go, w, ev).result ==
      if ev.hangup || ev.error || !ev.readable || ev.writable then None else Some(true)
  {
  }

  // ---- connection events ----

  /**
   * A hangup or error on connection `id` (`data.u64` = id + 1) closes its
   * socket and frees its slot, whether EPOLLIN or EPOLLOUT is set or not.
   */
  lemma HangupDrops(k: PoolKind, w: World, ev: Event)
    requires Shaped(k, w) && 0 < ev.data <= Capacity(k) && (ev.hangup || ev.error)
    ensures var id := ev.data - 1;
      var r := OnConnEvent(k, w, ev);
      && r.result == Some(true)
      && r.w.bits == w.bits[id := false] && r.w.slots == w.slots[id := Conn.Freed(w.slots[id])]
      && r.w.closed == w.closed + [w.slots[id].socketFd]
  {
  }

  /** Without hangup or error, a connection event must have exactly one of EPOLLIN and EPOLLOUT. */
  lemma BothOrNeitherFails(k: PoolKind, w: World, ev: Event)
    requires Shaped(k, w) && 0 < ev.data <= Capacity(k) && !ev.hangup && !ev.error
    ensures OnConnEvent(k, w, ev).result.None? <== ev.readable == ev.writable
    ensures ev.readable && !ev.writable ==> OnConnEvent(k, w, ev) == ConnIn(k, w, ev.data - 1, w.slots[ev.data - 1].socketFd)
    ensures ev.writable && !ev.readable ==> OnConnEvent(k, w, ev) == ConnOut(k, w, ev.data - 1)
  {
  }

  /** The read loop on a socket at end of stream closes it and frees the slot. */
  lemma EndOfStreamDrops(k: PoolKind, w: World, id: nat, fd: int)
    requires Shaped(k, w) && id < Capacity(k)
    requires w.env.incoming != [] && w.env.incoming[0] == Chunk([])
    ensures var r := ConnIn(k, w, id, fd);
      && r.result == Some(true)
      && r.w.bits == w.bits[id := false] && r.w.slots == w.slots[id := Conn.Freed(w.slots[id])]
      && r.w.closed == w.closed + [fd]
  {
  }

  /** The read loop on a socket with nothing to read keeps the connection as it is. */
  lemma WouldBlockKeeps(k: PoolKind, w: World, id: nat, fd: int)
    requires Shaped(k, w) && id < Capacity(k)
    requires w.env.incoming == [] || w.env.incoming[0] == ReadAgain
    ensures var r := ConnIn(k, w, id, fd);
      && r.result == Some(true)
      && r.w.bits == w.bits && r.w.slots == w.slots && r.w.closed == w.closed && r.w.interest == w.interest
  {
  }

  /** Bytes conn_recv rejects make the read loop close the socket and free the slot. */
  lemma RejectedDrops(k: PoolKind, w: World, id: nat, fd: int, bytes: seq<byte>)
    requires Shaped(k, w) && id < Capacity(k)
    requires w.env.incoming != [] && w.env.incoming[0] == Chunk(bytes) && bytes != []
    requires RecvAt(k, Read(w).w, id, bytes).value == Some(Conn.CwmError)
    ensures var got := RecvAt(k, Read(w).w, id, bytes).w;
      var r := ConnIn(k, w, id, fd);
      && r.result == Some(true)
      && r.w.bits == w.bits[id := false] && r.w.slots == w.slots[id := Conn.Freed(got.slots[id])]
      && r.w.closed == w.closed + [fd]
  {
  }

  /**
   * Bytes conn_recv wants more after make the read loop read again: the
   * outcome is that of the loop on what the slot and scripts have become.
   */
  lemma WantsMoreReadsOn(k: PoolKind, w: World, id: nat, fd: int, bytes: seq<byte>)
    requires Shaped(k, w) && id < Capacity(k)
    requires w.env.incoming != [] && w.env.incoming[0] == Chunk(bytes) && bytes != []
    requires RecvAt(k, Read(w).w, id, bytes).value == Some(Conn.CwmYes)
    ensures ConnIn(k, w, id, fd) == ConnIn(k, RecvAt(k, Read(w).w, id, bytes).w, id, fd)
  {
  }

  /**
   * A complete request whose response the socket does not take in full
   * switches the registration of `fd` to EPOLLOUT with data `id + 1` and
   * keeps the connection in use.
   */
  lemma PartialSendWaitsForWrite(k: PoolKind, w: World, id: nat, fd: int)
    requires Shaped(k, w) && id < Capacity(k)
    requires SendAt(k, w, id).value == Some(Conn.CwmYes)
    requires w.env.ctls == [] || w.env.ctls[0]
    ensures var r := Answer(k, w, id, fd);
      && r.result == Some(true)
      && r.w.interest == w.interest[fd := Registration(ForWrite, id + 1)]
      && r.w.bits == w.bits && r.w.closed == w.closed
  {
  }

  /**
   * A response sent in full closes the socket and frees the slot, whether
   * it went out from the read handler or the write handler.
   */
  lemma SentDrops(k: PoolKind, w: World, id: nat, fd: int)
    requires Shaped(k, w) && id < Capacity(k)
    requires SendAt(k, w, id).value == Some(Conn.CwmNo)
    ensures Answer(k, w, id, fd).result == Some(true) && ConnOut(k, w, id).result == Some(true)
    ensures Answer(k, w, id, fd).w.bits == w.bits[id := false]
    ensures ConnOut(k, w, id).w.bits == w.bits[id := false]
    ensures ConnOut(k, w, id).w.closed == w.closed + [w.slots[id].socketFd]
  {
  }

  /** A write error while sending fails the handler, from either side. */
  lemma SendErrorFails(k: PoolKind, w: World, id: nat, fd: int)
    requires Shaped(k, w) && id < Capacity(k)
    requires SendAt(k, w, id).value == Some(Conn.CwmError)
    ensures Answer(k, w, id, fd).result == Some(false) && ConnOut(k, w, id).result == Some(false)
  {
  }

  /** On write readiness, a response still not sent in full keeps the connection waiting. */
  lemma StillSendingWaits(k: PoolKind, w: World, id: nat)
    requires Shaped(k, w) && id < Capacity(k)
    requires SendAt(k, w, id).value == Some(Conn.CwmYes)
    ensures ConnOut(k, w, id).result == Some(true)
    ensures ConnOut(k, w, id).w.bits == w.bits && ConnOut(k, w, id).w.interest == w.interest
  {
  }
}
