/** The RPC client's code, critical section by critical section, against the state machine. */
module RpcClient {
  import opened Values
  import opened RpcMux

  /** The call has been sent a cancellation under its ID by this read loop. */
  predicate Cancelled(s: State, k: ConnId, id: nat, c: CallId) {
    c in s.calls && s.calls[c].id == id && s.calls[c].buffer == Some(Frame(id, k, true, None))
  }

  /** The loop of cancelAllPending over what was pending in s, down to `todo`. */
  ghost predicate CancelledUpTo(s: State, t: State, k: ConnId, todo: map<nat, CallId>) {
    && t == s.(pending := map[], loops := t.loops, calls := t.calls)
    && t.loops == s.loops[k := Cancelling(todo)]
    && (forall id | id in todo :: id in s.pending && todo[id] == s.pending[id])
    && (forall id | id in s.pending && id !in todo :: Cancelled(t, k, id, s.pending[id]))
    && (forall c | c in s.calls && !Pending(s, c) :: c in t.calls && t.calls[c] == s.calls[c])
  }

  lemma CancelOneMore(s: State, t: State, k: ConnId, todo: map<nat, CallId>, id: nat)
    requires OnePlace(s) && OnePlace(t) && CancelledUpTo(s, t, k, todo) && id in todo
    ensures Enabled(t, CancelOne(k, id)) && CancelledUpTo(s, Do(t, CancelOne(k, id)), k, todo - {id})
  {
    CancelFrame(s, t, k, todo, id);
    var u := Do(t, CancelOne(k, id));
    forall j | j in s.pending && j !in todo - {id}
      ensures Cancelled(u, k, j, s.pending[j])
    {
      OthersKeepTheirs(s, t, k, todo, id, j);
    }
    forall c | c in s.calls && !Pending(s, c)
      ensures c in u.calls && u.calls[c] == s.calls[c]
    {
      NotPendingKept(s, t, k, todo, id, c);
    }
  }

  lemma CancelFrame(s: State, t: State, k: ConnId, todo: map<nat, CallId>, id: nat)
    requires OnePlace(t) && CancelledUpTo(s, t, k, todo) && id in todo
    ensures Enabled(t, CancelOne(k, id))
    ensures var u := Do(t, CancelOne(k, id));
            && u == s.(pending := map[], loops := u.loops, calls := u.calls)
            && u.loops == s.loops[k := Cancelling(todo - {id})]
  {
    assert Owns(t.loops[k], id, todo[id]);
    assert Unanswered(t.calls, todo[id], id);
  }

  lemma NotPendingKept(s: State, t: State, k: ConnId, todo: map<nat, CallId>, id: nat, c: CallId)
    requires OnePlace(s) && OnePlace(t) && CancelledUpTo(s, t, k, todo) && id in todo && c in s.calls && !Pending(s, c)
    requires Enabled(t, CancelOne(k, id))
    ensures c in Do(t, CancelOne(k, id)).calls && Do(t, CancelOne(k, id)).calls[c] == s.calls[c]
  {
    assert Unanswered(s.calls, s.pending[id], id);
  }

  lemma StartCancels(s: State, k: ConnId)
    requires OnePlace(s) && Enabled(s, ReadError(k))
    ensures CancelledUpTo(s, Do(s, ReadError(k)), k, s.pending)
  {
  }

  lemma OthersKeepTheirs(s: State, t: State, k: ConnId, todo: map<nat, CallId>, id: nat, j: nat)
    requires OnePlace(s) && OnePlace(t) && CancelledUpTo(s, t, k, todo)
    requires id in todo && j in s.pending && j !in todo - {id}
    requires Enabled(t, CancelOne(k, id))
    ensures Cancelled(Do(t, CancelOne(k, id)), k, j, s.pending[j])
  {
    assert Owns(t.loops[k], id, todo[id]);
    assert Unanswered(t.calls, todo[id], id);
  }

  /** What the end of a read loop leaves.  The connection is cleared if it is still the loop's own, and the counters are
      left alone. */
  ghost predicate AllCancelled(s: State, t: State, k: ConnId) {
    && t.conn == (if s.conn == Some(k) then None else s.conn)
    && t.nextId == s.nextId && t.conns == s.conns && t.epoch == s.epoch
    && t.loops == s.loops - {k} && t.pending == map[]
    && (forall id | id in s.pending :: Cancelled(t, k, id, s.pending[id]))
    && (forall c | c in s.calls && !Pending(s, c) :: c in t.calls && t.calls[c] == s.calls[c])
  }

  lemma ExitAfterCancels(s: State, t: State, k: ConnId)
    requires CancelledUpTo(s, t, k, map[])
    ensures Enabled(t, LoopExit(k)) && AllCancelled(s, Do(t, LoopExit(k)), k)
  {
    assert t.loops - {k} == s.loops - {k};
  }

  /** The steps at the end of a read loop: the error, a cancellation for each ID, in some order, and the exit. */
  ghost predicate EndsReads(k: ConnId, ids: set<nat>, steps: seq<Step>) {
    && |steps| == |ids| + 2 && steps[0] == ReadError(k) && steps[|steps| - 1] == LoopExit(k)
    && (forall i | 0 < i < |steps| - 1 :: steps[i].CancelOne? && steps[i].k == k && steps[i].id in ids)
    && forall id | id in ids :: CancelOne(k, id) in steps
  }

  /** So far, with these IDs still to come. */
  ghost predicate EndsReadsUpTo(k: ConnId, ids: set<nat>, todo: set<nat>, steps: seq<Step>) {
    && todo <= ids && |steps| > 0 && |steps| + |todo| == |ids| + 1 && steps[0] == ReadError(k)
    && (forall i | 0 < i < |steps| :: steps[i].CancelOne? && steps[i].k == k && steps[i].id in ids)
    && forall id | id in ids && id !in todo :: CancelOne(k, id) in steps
  }

  lemma EndsReadsMore(k: ConnId, ids: set<nat>, todo: set<nat>, steps: seq<Step>, id: nat)
    requires EndsReadsUpTo(k, ids, todo, steps) && id in todo
    ensures EndsReadsUpTo(k, ids, todo - {id}, steps + [CancelOne(k, id)])
  {
    var more := steps + [CancelOne(k, id)];
    assert more[|steps|] == CancelOne(k, id);
    forall j | j in ids && j !in todo - {id}
      ensures CancelOne(k, j) in more
    {
      assert j == id || CancelOne(k, j) in steps;
    }
  }

  lemma EndsReadsLast(k: ConnId, ids: set<nat>, steps: seq<Step>)
    requires EndsReadsUpTo(k, ids, {}, steps)
    ensures EndsReads(k, ids, steps + [LoopExit(k)])
  {
    forall id | id in ids
      ensures CancelOne(k, id) in steps + [LoopExit(k)]
    {
      assert CancelOne(k, id) in steps;
    }
  }

  /** The steps of a call up to its wait, or to its return when the write fails. */
  function StepsOfCall(c: CallId, writes: bool): seq<Step> {
    [ReadConn(c), DrawId(c), Register(c)]
    + if writes then [WriteOk(c)] else [WriteFail(c), Unregister(c), ClearConn(c)]
  }

  lemma FollowOne(s: State, step: Step)
    requires Enabled(s, step)
    ensures CanFollow(s, [step]) && Followed(s, [step]) == Do(s, step)
  {
    assert CanFollow(Do(s, step), [step][1..]);
  }

  /** The call at this phase, on the connection and in the epoch of s, under the next ID. */
  function NextCall(s: State, phase: Phase): Call
    requires s.conn.Some?
  {
    Call(phase, s.conn.value, s.nextId + 1, s.epoch, None, 0, None)
  }

  /** The state in which the call has drawn the next ID and registered under it. */
  function Enrolled(s: State, c: CallId, phase: Phase): State
    requires s.conn.Some?
  {
    s.(nextId := s.nextId + 1, pending := s.pending[s.nextId + 1 := c], calls := s.calls[c := NextCall(s, phase)])
  }

  /** The state after a call up to its wait, or up to its return when the write fails: the next ID is drawn, and the
      call is registered under it, or gone with the connection. */
  function Called(s: State, c: CallId, writes: bool): State
    requires s.conn.Some?
  {
    if writes then Enrolled(s, c, Waiting)
    else s.(nextId := s.nextId + 1, pending := s.pending - {s.nextId + 1}, calls := s.calls[c := NextCall(s, Returned)],
            conn := None)
  }

  lemma CallRegisters(s: State, c: CallId)
    requires s.conn.Some? && c !in s.calls
    ensures var steps := [ReadConn(c), DrawId(c), Register(c)];
            CanFollow(s, steps) && Followed(s, steps) == Enrolled(s, c, Registered)
  {
    FollowOne(s, ReadConn(c));
    FollowMore(s, [ReadConn(c)], DrawId(c));
    FollowMore(s, [ReadConn(c)] + [DrawId(c)], Register(c));
    assert [ReadConn(c)] + [DrawId(c)] + [Register(c)] == [ReadConn(c), DrawId(c), Register(c)];
  }

  lemma CallWaits(s: State, c: CallId)
    requires s.conn.Some? && c !in s.calls
    ensures CanFollow(s, StepsOfCall(c, true)) && Followed(s, StepsOfCall(c, true)) == Called(s, c, true)
  {
    CallRegisters(s, c);
    FollowMore(s, [ReadConn(c), DrawId(c), Register(c)], WriteOk(c));
  }

  lemma CallReturns(s: State, c: CallId)
    requires s.conn.Some? && c !in s.calls
    ensures CanFollow(s, StepsOfCall(c, false)) && Followed(s, StepsOfCall(c, false)) == Called(s, c, false)
  {
    var steps := [ReadConn(c), DrawId(c), Register(c)];
    CallRegisters(s, c);
    FollowMore(s, steps, WriteFail(c));
    assert Do(Enrolled(s, c, Registered), WriteFail(c)) == Enrolled(s, c, WriteFailed);
    CallFails(s, c);
    FollowMore(s, steps + [WriteFail(c)], Unregister(c));
    FollowMore(s, steps + [WriteFail(c)] + [Unregister(c)], ClearConn(c));
    assert steps + [WriteFail(c)] + [Unregister(c)] + [ClearConn(c)] == StepsOfCall(c, false);
  }

  lemma CallFails(s: State, c: CallId)
    requires s.conn.Some? && c !in s.calls
    ensures var t := Enrolled(s, c, WriteFailed);
            && Enabled(t, Unregister(c)) && Enabled(Do(t, Unregister(c)), ClearConn(c))
            && Do(Do(t, Unregister(c)), ClearConn(c)) == Called(s, c, false)
  {
    var id := s.nextId + 1;
    assert s.pending[id := c] - {id} == s.pending - {id};
  }

  /** The loop of cancelAllPending as a run of steps. */
  ghost predicate Ending(s: State, t: State, k: ConnId, todo: map<nat, CallId>, steps: seq<Step>) {
    && CancelledUpTo(s, t, k, todo) && OnePlace(t)
    && EndsReadsUpTo(k, s.pending.Keys, todo.Keys, steps)
    && CanFollow(s, steps) && t == Followed(s, steps)
  }

  lemma EndingStarts(s: State, k: ConnId)
    requires OnePlace(s) && Enabled(s, ReadError(k))
    ensures Ending(s, Do(s, ReadError(k)), k, s.pending, [ReadError(k)])
  {
    StartCancels(s, k);
    OnePlaceStep(s, ReadError(k));
    FollowOne(s, ReadError(k));
  }

  lemma EndingMore(s: State, t: State, k: ConnId, todo: map<nat, CallId>, steps: seq<Step>, id: nat)
    requires OnePlace(s) && Ending(s, t, k, todo, steps) && id in todo
    ensures Enabled(t, CancelOne(k, id))
    ensures Ending(s, Do(t, CancelOne(k, id)), k, todo - {id}, steps + [CancelOne(k, id)])
  {
    CancelOneMore(s, t, k, todo, id);
    OnePlaceStep(t, CancelOne(k, id));
    EndsReadsMore(k, s.pending.Keys, todo.Keys, steps, id);
    FollowMore(s, steps, CancelOne(k, id));
    assert (todo - {id}).Keys == todo.Keys - {id};
  }

  lemma EndingEnds(s: State, t: State, k: ConnId, steps: seq<Step>)
    requires Ending(s, t, k, map[], steps)
    ensures Enabled(t, LoopExit(k)) && AllCancelled(s, Do(t, LoopExit(k)), k)
    ensures EndsReads(k, s.pending.Keys, steps + [LoopExit(k)])
    ensures CanFollow(s, steps + [LoopExit(k)]) && Do(t, LoopExit(k)) == Followed(s, steps + [LoopExit(k)])
  {
    ExitAfterCancels(s, t, k);
    EndsReadsLast(k, s.pending.Keys, steps);
    FollowMore(s, steps, LoopExit(k));
  }

  /** The client's shared fields.  Each method is one critical section or atomic operation, and takes the fields where
      the step of the same moment takes the state. */
  class Client {
    var conn: Option<ConnId>
    var nextId: nat
    var pending: map<nat, CallId>

    ghost predicate Shows(s: State)
      reads this
    {
      s.conn == conn && s.nextId == nextId && s.pending == pending
    }

    constructor ()
      ensures Shows(START)
    {
      conn, nextId, pending := None, 0, map[];
    }

    /** Connect: nothing to do with a connection; without a socket nothing happens; with one the connection is set, even
        when the handshake fails, and only an accepted handshake resets the counter and starts a read loop. */
    method Connect(ghost s: State, k: ConnId, dials: bool, accepted: bool) returns (ok: bool, ghost t: State)
      requires Shows(s) && k == s.conns
      modifies this
      ensures Shows(t)
      ensures old(conn).Some? ==> ok && t == s
      ensures old(conn).None? && !dials ==> !ok && t == s
      ensures old(conn).None? && dials ==>
                ok == accepted && Enabled(s, if accepted then ConnectOk else ConnectRejected)
                && t == Do(s, if accepted then ConnectOk else ConnectRejected)
                && conn == Some(k) && nextId == (if accepted then 1 else old(nextId)) && pending == old(pending)
    {
      t := s;
      if conn.Some? {
        return true, t;
      }
      if !dials {
        return false, t;
      }
      conn := Some(k);
      if !accepted {
        t := Do(s, ConnectRejected);
        return false, t;
      }
      nextId := 1;
      t := Do(s, ConnectOk);
      ok := true;
    }

    method NextRequestId(ghost s: State, ghost c: CallId) returns (id: nat)
      requires Shows(s) && Enabled(s, DrawId(c))
      modifies this
      ensures Shows(Do(s, DrawId(c))) && id == Do(s, DrawId(c)).calls[c].id
    {
      nextId := nextId + 1;
      id := nextId;
    }

    method AddPending(ghost s: State, id: nat, c: CallId)
      requires Shows(s) && Enabled(s, Register(c)) && s.calls[c].id == id
      modifies this
      ensures Shows(Do(s, Register(c)))
    {
      pending := pending[id := c];
    }

    /** Deletes whatever is under the call's ID, as the failed write and the timeout do. */
    method DropPending(ghost s: State, id: nat, c: CallId, timedOut: bool)
      requires Shows(s) && Enabled(s, if timedOut then Leave(c) else Unregister(c)) && s.calls[c].id == id
      modifies this
      ensures Shows(Do(s, if timedOut then Leave(c) else Unregister(c)))
    {
      pending := pending - {id};
    }

    /** The lookup of deliverResponse: the channel to send to, which is then no longer pending. */
    method TakePending(ghost s: State, k: ConnId, id: nat, ghost answers: Option<CallId>)
      returns (waiter: Option<CallId>)
      requires Shows(s) && Enabled(s, FrameIn(k, id, answers))
      modifies this
      ensures Shows(Do(s, FrameIn(k, id, answers)))
      ensures waiter == if id in s.pending then Some(s.pending[id]) else None
    {
      waiter := None;
      if id in pending {
        waiter := Some(pending[id]);
        pending := pending - {id};
      }
    }

    /** The swap of cancelAllPending: every channel pending, for the loop to send a cancellation to. */
    method TakeAllPending(ghost s: State, k: ConnId) returns (waiters: map<nat, CallId>)
      requires Shows(s) && Enabled(s, ReadError(k))
      modifies this
      ensures Shows(Do(s, ReadError(k))) && Do(s, ReadError(k)).loops[k] == Cancelling(waiters)
    {
      waiters := pending;
      pending := map[];
    }

    method ClearConnIfSame(ghost s: State, k: ConnId)
      requires Shows(s)
      modifies this
      ensures Shows(ClearIfSame(s, k))
    {
      if conn == Some(k) {
        conn := None;
      }
    }

    /** Call, up to its wait, when nothing comes in between: without a connection, or when the write fails, it gives up.
        `t` is the state reached by the call's own steps. */
    method StartCall(ghost s: State, c: CallId, writes: bool) returns (id: Option<nat>, ghost t: State)
      requires Shows(s) && c !in s.calls
      modifies this
      ensures Shows(t)
      ensures old(conn).None? ==> id.None? && t == s
      ensures old(conn).Some? ==> t == Called(s, c, writes) && id == if writes then Some(old(nextId) + 1) else None
      ensures old(conn).Some? ==> CanFollow(s, StepsOfCall(c, writes)) && t == Followed(s, StepsOfCall(c, writes))
    {
      t := s;
      if conn.None? {
        return None, t;
      }
      var k := conn.value;
      var n;
      n, t := Enroll(s, c);
      if writes {
        CallWaits(s, c);
        return Some(n), Enrolled(s, c, Waiting);
      }
      CallReturns(s, c);
      CallFails(s, c);
      t := GiveUp(Enrolled(s, c, WriteFailed), k, n, c);
      id := None;
    }

    /** The part before the write. */
    method Enroll(ghost s: State, c: CallId) returns (id: nat, ghost t: State)
      requires Shows(s) && conn.Some? && c !in s.calls
      modifies this
      ensures Shows(t) && t == Enrolled(s, c, Registered) && id == old(nextId) + 1 && conn == old(conn)
    {
      t := Do(s, ReadConn(c));
      id := NextRequestId(t, c);
      t := Do(t, DrawId(c));
      AddPending(t, id, c);
      t := Do(t, Register(c));
    }

    /** What a failed write leads to. */
    method GiveUp(ghost s: State, k: ConnId, id: nat, c: CallId) returns (ghost t: State)
      requires Shows(s) && In(s, c, WriteFailed) && s.calls[c].id == id && s.calls[c].conn == k
      modifies this
      ensures Shows(t) && t == Do(Do(s, Unregister(c)), ClearConn(c))
      ensures conn == (if old(conn) == Some(k) then None else old(conn))
      ensures nextId == old(nextId) && pending == old(pending) - {id}
    {
      DropPending(s, id, c, false);
      t := Do(s, Unregister(c));
      ClearConnIfSame(SetPhase(t, c, Returned), k);
      t := Do(t, ClearConn(c));
    }

    /** deliverResponse: the frame goes to the waiter of its ID, if there is one. */
    method DeliverResponse(ghost s: State, k: ConnId, id: nat, ghost answers: Option<CallId>) returns (ghost t: State)
      requires Shows(s) && OnePlace(s) && Enabled(s, FrameIn(k, id, answers))
      modifies this
      ensures Shows(t) && OnePlace(t) && conn == old(conn) && nextId == old(nextId)
      ensures id !in s.pending ==> t == s == Do(s, FrameIn(k, id, answers))
      ensures id in s.pending ==>
                && Enabled(Do(s, FrameIn(k, id, answers)), Deliver(k))
                && t == Do(Do(s, FrameIn(k, id, answers)), Deliver(k))
                && t == s.(pending := s.pending - {id}, calls := s.calls[s.pending[id] :=
                     s.calls[s.pending[id]].(buffer := Some(Frame(id, k, false, answers)), sends := 1)])
    {
      var waiter := TakePending(s, k, id, answers);
      OnePlaceStep(s, FrameIn(k, id, answers));
      t := Do(s, FrameIn(k, id, answers));
      if waiter.Some? {
        assert Owns(t.loops[k], id, waiter.value);
        OnePlaceStep(t, Deliver(k));
        t := Do(t, Deliver(k));
        assert t.loops == s.loops;
      }
    }

    /** The end of readLoop: every pending call gets a cancellation, in any order, and the connection is cleared if it
        is still the loop's own. */
    method EndReads(ghost s: State, k: ConnId) returns (ghost t: State, ghost steps: seq<Step>)
      requires Shows(s) && OnePlace(s) && Enabled(s, ReadError(k))
      modifies this
      ensures Shows(t) && AllCancelled(s, t, k)
      ensures conn == (if old(conn) == Some(k) then None else old(conn)) && nextId == old(nextId) && pending == map[]
      ensures EndsReads(k, s.pending.Keys, steps) && CanFollow(s, steps) && t == Followed(s, steps)
    {
      var todo := TakeAllPending(s, k);
      EndingStarts(s, k);
      t, steps := Do(s, ReadError(k)), [ReadError(k)];
      while todo != map[]
        invariant Shows(t) && conn == old(conn) && nextId == old(nextId) && Ending(s, t, k, todo, steps)
        decreases |todo|
      {
        var id :| id in todo;
        EndingMore(s, t, k, todo, steps, id);
        t, steps, todo := Do(t, CancelOne(k, id)), steps + [CancelOne(k, id)], todo - {id};
      }
      EndingEnds(s, t, k, steps);
      ClearConnIfSame(t.(loops := t.loops - {k}), k);
      t, steps := Do(t, LoopExit(k)), steps + [LoopExit(k)];
    }
  }
}
