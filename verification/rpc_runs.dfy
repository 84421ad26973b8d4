/** Runs of the RPC client that end badly. */
module RpcRuns {
  import opened Values
  import opened RpcMux
  import opened RpcDelivery

  lemma Take(s: State, step: Step) returns (t: State)
    requires Reachable(s) && Enabled(s, step)
    ensures t == Do(s, step) && Reachable(t)
  {
    ReachStep(s, step);
    t := Do(s, step);
  }

  // A call that registers after the only read loop has taken the pending map.
  const READ_BEFORE :=
    State(Some(0), 1, 1, 1, map[], map[0 := Call(HasConn, 0, 0, 0, None, 0, None)], map[0 := Cancelling(map[])])
  const TOO_LATE :=
    State(None, 1, 2, 1, map[2 := 0], map[0 := Call(Waiting, 0, 2, 1, None, 0, None)], map[])

  lemma TooLate()
    ensures Reachable(TOO_LATE)
  {
    assert Runs([]) && After([]) == START;
    var s := Take(START, ConnectOk);
    s := Take(s, ReadConn(0));
    s := Take(s, ReadError(0));
    assert s == READ_BEFORE;
    s := RegistersLate();
  }

  lemma RegistersLate() returns (s: State)
    requires Reachable(READ_BEFORE)
    ensures s == TOO_LATE && Reachable(s)
  {
    s := Take(READ_BEFORE, DrawId(0));
    s := Take(s, Register(0));
    s := Take(s, WriteOk(0));
    s := Take(s, LoopExit(0));
    assert s == TOO_LATE;
  }

  /** A call that read the connection before its read error and registers after it waits for nothing: the only steps
      left, besides a connect attempt, are its own timeout and the loss of a connection that is gone already. */
  lemma LateCallWaitsForNothing()
    ensures exists s, c :: && Reachable(s) && In(s, c, Waiting) && Unserved(s, c) && Pending(s, c) && !Awaited(s, c)
              && (forall steps | CanFollow(s, steps) && NoConnect(steps) :: !Reached(Followed(s, steps), c))
              && forall step | Enabled(s, step) :: step in {ConnectOk, ConnectRejected, DropConn, TimeOut(c)}
  {
    TooLate();
    var s := TOO_LATE;
    var before :| Runs(before) && After(before) == s;
    assert forall k :: !Live(s, k) && !Held(s, k, 0);
    ReachableIff(before, 0);
    assert In(s, 0, Waiting) && Pending(s, 0);
  }

  // A run in which request ID 2 is given out in two epochs.
  const ASKED_FIRST := Call(Waiting, 0, 2, 1, None, 0, None)
  const WRITE_FAILED := Call(Returned, 0, 3, 1, None, 0, None)
  const ASKED_AGAIN := Call(Waiting, 1, 2, 2, None, 0, None)
  const MISDELIVERED := Call(Returned, 1, 2, 2, None, 1, Some(Frame(2, 0, false, Some(0))))

  const DISCONNECTED :=
    State(None, 1, 3, 1, map[2 := 0], map[0 := ASKED_FIRST, 1 := WRITE_FAILED], map[0 := Reading])
  const BOTH_WAIT :=
    State(Some(1), 2, 2, 2, map[2 := 2], map[0 := ASKED_FIRST, 1 := WRITE_FAILED, 2 := ASKED_AGAIN],
          map[0 := Reading, 1 := Reading])
  const MIXED :=
    State(Some(1), 2, 2, 2, map[], map[0 := ASKED_FIRST, 1 := WRITE_FAILED, 2 := MISDELIVERED],
          map[0 := Reading, 1 := Reading])

  /** A call up to its write. */
  lemma Begin(s: State, c: CallId) returns (t: State)
    requires Reachable(s) && c !in s.calls && s.conn.Some?
    ensures Reachable(t)
    ensures var id := s.nextId + 1;
            t == s.(nextId := id, pending := s.pending[id := c],
                    calls := s.calls[c := Call(Registered, s.conn.value, id, s.epoch, None, 0, None)])
  {
    t := Take(s, ReadConn(c));
    t := Take(t, DrawId(c));
    t := Take(t, Register(c));
  }

  lemma Ask(s: State, c: CallId) returns (t: State)
    requires Reachable(s) && c !in s.calls && s.conn.Some?
    ensures Reachable(t)
    ensures var id := s.nextId + 1;
            t == s.(nextId := id, pending := s.pending[id := c],
                    calls := s.calls[c := Call(Waiting, s.conn.value, id, s.epoch, None, 0, None)])
  {
    t := Begin(s, c);
    t := Take(t, WriteOk(c));
  }

  /** A call whose write fails, which drops the connection. */
  lemma AskInVain(s: State, c: CallId) returns (t: State)
    requires Reachable(s) && c !in s.calls && s.conn.Some? && s.nextId + 1 !in s.pending
    ensures Reachable(t)
    ensures var id := s.nextId + 1;
            t == s.(nextId := id, conn := None,
                    calls := s.calls[c := Call(Returned, s.conn.value, id, s.epoch, None, 0, None)])
  {
    t := Begin(s, c);
    t := Take(t, WriteFail(c));
    t := Take(t, Unregister(c));
    assert t.pending == s.pending;
    t := Finish(s, t, c);
  }

  lemma Finish(s: State, u: State, c: CallId) returns (t: State)
    requires Reachable(u) && s.conn.Some?
    requires var id := s.nextId + 1;
             u == s.(nextId := id,
                     calls := s.calls[c := Call(Unregistered, s.conn.value, id, s.epoch, None, 0, None)])
    ensures Reachable(t)
    ensures var id := s.nextId + 1;
            t == s.(nextId := id, conn := None,
                    calls := s.calls[c := Call(Returned, s.conn.value, id, s.epoch, None, 0, None)])
  {
    t := Take(u, ClearConn(c));
  }

  lemma Disconnects()
    ensures Reachable(DISCONNECTED)
  {
    assert Runs([]) && After([]) == START;
    var s := Take(START, ConnectOk);
    s := Ask(s, 0);
    s := AskInVain(s, 1);
    assert s == DISCONNECTED;
  }

  lemma BothWait()
    ensures Reachable(BOTH_WAIT)
  {
    Disconnects();
    var s := Take(DISCONNECTED, ConnectOk);
    s := Ask(s, 2);
    assert s == BOTH_WAIT;
  }

  lemma Mixed()
    ensures Reachable(MIXED)
  {
    BothWait();
    var s := Take(BOTH_WAIT, FrameIn(0, 2, Some(0)));
    s := Take(s, Deliver(0));
    s := Take(s, Receive(2));
    assert s == MIXED;
  }

  // A run in which a connection's read error cancels a call on the next one.
  const IN_VAIN := Call(Returned, 0, 2, 1, None, 0, None)
  const RECONNECTED :=
    State(Some(1), 2, 2, 2, map[2 := 1], map[0 := IN_VAIN, 1 := Call(Waiting, 1, 2, 2, None, 0, None)],
          map[0 := Reading, 1 := Reading])
  const SEVERED :=
    State(Some(1), 2, 2, 2, map[],
          map[0 := IN_VAIN, 1 := Call(Returned, 1, 2, 2, None, 1, Some(Frame(2, 0, true, None)))],
          map[0 := Cancelling(map[]), 1 := Reading])

  lemma Reconnects()
    ensures Reachable(RECONNECTED)
  {
    assert Runs([]) && After([]) == START;
    var s := Take(START, ConnectOk);
    s := AskInVain(s, 0);
    s := Take(s, ConnectOk);
    s := Ask(s, 1);
    assert s == RECONNECTED;
  }

  lemma Severed()
    ensures Reachable(SEVERED)
  {
    Reconnects();
    var s := Take(RECONNECTED, ReadError(0));
    s := Take(s, CancelOne(0, 2));
    s := Take(s, Receive(1));
    assert s == SEVERED;
  }

  /** After one failed write and a reconnect, the read error of the old connection makes a call on the new one return a
      cancellation, although the new connection is being read. */
  lemma OldReadErrorCancelsNewCall()
    ensures exists s, c :: && Reachable(s) && In(s, c, Returned) && s.calls[c].result.Some?
              && s.calls[c].result.value.cancelled && s.calls[c].result.value.conn != s.calls[c].conn
              && Live(s, s.calls[c].conn)
  {
    Severed();
    assert In(SEVERED, 1, Returned) && Live(SEVERED, SEVERED.calls[1].conn);
  }

  /** An unsafe connect at work: a failed write of one call makes the client reconnect while the old read loop still
      runs, the counter starts again, and the answer to an old call's request goes to a new call.  The old call is
      lost. */
  lemma ReconnectMixesAnswers()
    ensures exists s, c: CallId, d: CallId :: && Reachable(s) && c != d && In(s, c, Waiting) && Lost(s, c)
              && In(s, d, Returned) && s.calls[d].result.Some? && s.calls[d].result.value.answers == Some(c)
  {
    Mixed();
    assert In(MIXED, 0, Waiting) && Lost(MIXED, 0) && In(MIXED, 2, Returned);
  }
}
