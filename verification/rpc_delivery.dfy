/** What becomes of a call over whole runs: exactly when it is still served, and exactly when it is lost. */
module RpcDelivery {
  import opened Values
  import opened RpcMux

  // Request IDs.

  predicate Drawn(s: State, c: CallId) {
    c in s.calls && !s.calls[c].phase.HasConn?
  }

  /** The counter runs ahead of the epoch's calls, and no two calls of an epoch share an ID. */
  ghost predicate IdsOk(s: State) {
    && (forall c | Drawn(s, c) ::
          s.calls[c].epoch <= s.epoch && (s.calls[c].epoch == s.epoch ==> s.calls[c].id <= s.nextId))
    && (forall c, d | Drawn(s, c) && Drawn(s, d) && s.calls[c].epoch == s.calls[d].epoch
                      && s.calls[c].id == s.calls[d].id :: c == d)
  }

  /** Once drawn, a request ID stays; only DrawId draws one. */
  lemma DrawnStays(s: State, step: Step, c: CallId)
    requires Enabled(s, step)
    ensures var t := Do(s, step);
            && (c in s.calls ==> c in t.calls && t.calls[c].conn == s.calls[c].conn)
            && (Drawn(s, c) ==> Drawn(t, c) && t.calls[c].id == s.calls[c].id && t.calls[c].epoch == s.calls[c].epoch)
            && (Drawn(t, c) ==> Drawn(s, c) || step == DrawId(c))
  {
  }

  lemma CounterAdvances(s: State, step: Step)
    requires Enabled(s, step)
    ensures var t := Do(s, step);
            (t.epoch == s.epoch && t.nextId >= s.nextId) || (step.ConnectOk? && t.epoch == s.epoch + 1)
    ensures step.DrawId? ==>
              var t, call := Do(s, step), Do(s, step).calls[step.c];
              call.epoch == s.epoch == t.epoch && call.id == t.nextId == s.nextId + 1
  {
  }

  lemma IdsStep(s: State, step: Step)
    requires IdsOk(s) && Enabled(s, step)
    ensures IdsOk(Do(s, step))
  {
    var t := Do(s, step);
    CounterAdvances(s, step);
    forall c
      ensures Drawn(s, c) ==> Drawn(t, c) && t.calls[c].id == s.calls[c].id && t.calls[c].epoch == s.calls[c].epoch
      ensures Drawn(t, c) ==> Drawn(s, c) || step == DrawId(c)
    {
      DrawnStays(s, step, c);
    }
    IdsKept(s, t, step);
  }

  lemma IdsKept(s: State, t: State, step: Step)
    requires IdsOk(s)
    requires (t.epoch == s.epoch && t.nextId >= s.nextId) || t.epoch == s.epoch + 1
    requires forall c | Drawn(s, c) ::
               Drawn(t, c) && t.calls[c].id == s.calls[c].id && t.calls[c].epoch == s.calls[c].epoch
    requires forall c | Drawn(t, c) && !Drawn(s, c) ::
               && step == DrawId(c) && t.epoch == s.epoch
               && t.calls[c].epoch == t.epoch && t.calls[c].id == t.nextId == s.nextId + 1
    ensures IdsOk(t)
  {
  }

  /** Only before the first accepted connect are IDs below 2 given out. */
  ghost predicate LowOk(s: State) {
    (s.epoch > 0 ==> s.nextId >= 1) && forall c | Drawn(s, c) && s.calls[c].id <= 1 :: s.calls[c].epoch == 0
  }

  lemma LowStep(s: State, step: Step)
    requires LowOk(s) && Enabled(s, step)
    ensures LowOk(Do(s, step))
  {
    CounterAdvances(s, step);
    forall c | Drawn(Do(s, step), c) && Do(s, step).calls[c].id <= 1
      ensures Do(s, step).calls[c].epoch == 0
    {
      DrawnStays(s, step, c);
    }
  }

  /** Connections are numbered from below `conns`. */
  ghost predicate ConnsBelow(s: State) {
    && (s.conn.Some? ==> s.conn.value < s.conns)
    && (forall c | c in s.calls :: s.calls[c].conn < s.conns)
    && (forall k | k in s.loops :: k < s.conns)
  }

  lemma CallBelow(s: State, step: Step, c: CallId)
    requires ConnsBelow(s) && Enabled(s, step) && c in Do(s, step).calls
    ensures Do(s, step).calls[c].conn < s.conns
  {
    if c in s.calls {
      DrawnStays(s, step, c);
    }
  }

  lemma LoopBelow(s: State, step: Step, k: ConnId)
    requires ConnsBelow(s) && Enabled(s, step) && k in Do(s, step).loops
    ensures k < Do(s, step).conns
  {
  }

  lemma ConnsStep(s: State, step: Step)
    requires ConnsBelow(s) && Enabled(s, step)
    ensures ConnsBelow(Do(s, step))
  {
    forall c | c in Do(s, step).calls
      ensures Do(s, step).calls[c].conn < Do(s, step).conns
    {
      CallBelow(s, step, c);
    }
    forall k | k in Do(s, step).loops
      ensures k < Do(s, step).conns
    {
      LoopBelow(s, step, k);
    }
  }

  /** A frame that answers a request answers one that was made under its ID on its connection. */
  predicate Answering(s: State, f: Frame) {
    f.answers.Some? ==> Asked(s, f.conn, f.id, f.answers.value)
  }

  ghost predicate AnswersOk(s: State) {
    && (forall k | k in s.loops && s.loops[k].Holding? :: Answering(s, s.loops[k].frame))
    && (forall c | c in s.calls && s.calls[c].buffer.Some? :: Answering(s, s.calls[c].buffer.value))
    && (forall c | c in s.calls && s.calls[c].result.Some? :: Answering(s, s.calls[c].result.value))
  }

  lemma AnsweringStays(s: State, step: Step, f: Frame)
    requires Enabled(s, step) && Answering(s, f)
    ensures Answering(Do(s, step), f)
  {
    if f.answers.Some? {
      DrawnStays(s, step, f.answers.value);
    }
  }

  lemma CallAnswered(s: State, step: Step, c: CallId)
    requires AnswersOk(s) && Enabled(s, step) && c in Do(s, step).calls
    ensures var t := Do(s, step);
            && (t.calls[c].buffer.Some? ==> Answering(s, t.calls[c].buffer.value))
            && (t.calls[c].result.Some? ==> Answering(s, t.calls[c].result.value))
  {
  }

  lemma AnswersStep(s: State, step: Step)
    requires AnswersOk(s) && Enabled(s, step)
    ensures AnswersOk(Do(s, step))
  {
    var t := Do(s, step);
    forall c | c in t.calls
      ensures t.calls[c].buffer.Some? ==> Answering(t, t.calls[c].buffer.value)
      ensures t.calls[c].result.Some? ==> Answering(t, t.calls[c].result.value)
    {
      CallAnswered(s, step, c);
      if t.calls[c].buffer.Some? {
        AnsweringStays(s, step, t.calls[c].buffer.value);
      }
      if t.calls[c].result.Some? {
        AnsweringStays(s, step, t.calls[c].result.value);
      }
    }
    forall k | k in t.loops && t.loops[k].Holding?
      ensures Answering(t, t.loops[k].frame)
    {
      AnsweringStays(s, step, t.loops[k].frame);
    }
  }

  ghost predicate Inv(s: State) {
    OnePlace(s) && IdsOk(s) && LowOk(s) && ConnsBelow(s) && AnswersOk(s)
  }

  lemma InvStep(s: State, step: Step)
    requires Inv(s) && Enabled(s, step)
    ensures Inv(Do(s, step))
  {
    OnePlaceStep(s, step);
    IdsStep(s, step);
    LowStep(s, step);
    ConnsStep(s, step);
    AnswersStep(s, step);
  }

  lemma {:induction false} AlwaysInv(steps: seq<Step>)
    requires Runs(steps)
    ensures Inv(After(steps))
    decreases |steps|
  {
    if steps != [] {
      AlwaysInv(steps[..|steps| - 1]);
      InvStep(After(steps[..|steps| - 1]), steps[|steps| - 1]);
    }
  }

  /** What a call returns carries the call's own request ID and is the only frame ever sent to it; an answer to another
      call's request was asked for on the frame's connection, in another epoch. */
  lemma AnswersMatch(steps: seq<Step>, c: CallId)
    requires Runs(steps) && c in After(steps).calls && After(steps).calls[c].result.Some?
    ensures var s, f := After(steps), After(steps).calls[c].result.value;
            && f.id == s.calls[c].id && s.calls[c].sends == 1 && s.calls[c].buffer.None?
            && (f.answers.Some? ==>
                  var d := f.answers.value;
                  Asked(s, f.conn, f.id, d) && (d == c || s.calls[d].epoch != s.calls[c].epoch))
  {
    AlwaysInv(steps);
    assert CallOk(After(steps).calls[c]);
    assert Drawn(After(steps), c);
  }

  // Where an unserved call is.

  /** The call has registered its channel and has neither been sent to nor given up. */
  predicate Unserved(s: State, c: CallId) {
    c in s.calls && MayPend(s.calls[c]) && s.calls[c].sends == 0
  }

  ghost predicate HeldBySome(s: State, c: CallId) {
    exists k :: Held(s, k, c)
  }

  /** The connection has a read loop that has not met its read error. */
  predicate Live(s: State, k: ConnId) {
    k in s.loops && !s.loops[k].Cancelling?
  }

  /** The call is in the hands of a read loop, or pending while its own connection is still being read. */
  ghost predicate Awaited(s: State, c: CallId) {
    HeldBySome(s, c) || (Pending(s, c) && Live(s, s.calls[c].conn))
  }

  /** The step takes the call's place in the pending map away, for another call with the same ID. */
  predicate Evicts(s: State, step: Step, c: CallId) {
    && (step.Register? || step.Unregister? || step.Leave?) && step.c != c && step.c in s.calls
    && Pending(s, c) && s.calls[step.c].id == s.calls[c].id
  }

  predicate Lost(s: State, c: CallId) {
    && c in s.calls && s.calls[c].sends == 0 && !s.calls[c].phase.HasConn? && !s.calls[c].phase.HasId?
    && !Pending(s, c) && forall k | k in s.loops :: !Held(s, k, c)
  }

  /** A loop that owns the channel keeps it until it sends to it. */
  lemma HeldStays(s: State, step: Step, k: ConnId, c: CallId)
    requires OnePlace(s) && Enabled(s, step) && Held(s, k, c) && Do(s, step).calls[c].sends == 0
    ensures Held(Do(s, step), k, c)
  {
    assert Unanswered(s.calls, c, s.calls[c].id);
    DrawnStays(s, step, c);
  }

  lemma WasUnserved(s: State, step: Step, c: CallId)
    requires Enabled(s, step) && step != Register(c) && Unserved(Do(s, step), c)
    ensures Unserved(s, c) && Drawn(s, c)
  {
  }

  /** A pending call stays pending or moves to a read loop, unless it is evicted. */
  lemma PendingMoves(s: State, step: Step, c: CallId)
    requires Enabled(s, step) && Pending(s, c) && Drawn(s, c) && !Evicts(s, step, c) && Unserved(Do(s, step), c)
    ensures Pending(Do(s, step), c) || HeldBySome(Do(s, step), c)
  {
    var t := Do(s, step);
    DrawnStays(s, step, c);
    if (step.FrameIn? && step.id == s.calls[c].id) || step.ReadError? {
      assert Held(t, step.k, c);
    } else {
      assert At(t.pending, s.calls[c].id, c);
    }
  }

  /** A connection that is not being read is never read again, and while a call stays pending its own connection's
      loop stays as live as it was. */
  lemma LiveStays(s: State, step: Step, c: CallId)
    requires ConnsBelow(s) && Enabled(s, step) && c in s.calls && c in Do(s, step).calls
    ensures var t := Do(s, step); t.calls[c].conn == s.calls[c].conn
    ensures var t := Do(s, step); Live(t, s.calls[c].conn) ==> Live(s, s.calls[c].conn)
    ensures var t := Do(s, step); Pending(t, c) && Live(s, s.calls[c].conn) ==> Live(t, s.calls[c].conn)
  {
    DrawnStays(s, step, c);
  }

  lemma EvictedIsLost(s: State, step: Step, c: CallId)
    requires OnePlace(s) && Enabled(s, step) && Evicts(s, step, c)
    ensures Lost(Do(s, step), c)
  {
    assert Unanswered(s.calls, c, s.calls[c].id);
  }

  lemma LostIsNotHeld(s: State, step: Step, k: ConnId, c: CallId)
    requires OnePlace(s) && Lost(s, c) && Enabled(s, step)
    ensures !Held(Do(s, step), k, c)
  {
    DrawnStays(s, step, c);
    assert !Held(s, k, c);
  }

  /** What is lost stays lost, whatever happens, and is never sent to. */
  lemma LostStays(s: State, step: Step, c: CallId)
    requires OnePlace(s) && Lost(s, c) && Enabled(s, step)
    ensures Lost(Do(s, step), c)
  {
    LostIsNotSent(s, step, c);
    PendingBefore(s, step, c);
    forall k | k in Do(s, step).loops
      ensures !Held(Do(s, step), k, c)
    {
      LostIsNotHeld(s, step, k, c);
    }
  }

  lemma LostIsNotSent(s: State, step: Step, c: CallId)
    requires OnePlace(s) && Lost(s, c) && Enabled(s, step)
    ensures var t := Do(s, step);
            c in t.calls && t.calls[c].sends == 0 && !t.calls[c].phase.HasConn? && !t.calls[c].phase.HasId?
  {
    match step
    case Deliver(k) => assert Owns(s.loops[k], s.loops[k].frame.id, s.loops[k].call);
    case CancelOne(k, id) => assert Owns(s.loops[k], id, s.loops[k].waiters[id]);
    case _ =>
  }

  /** The call was evicted from the pending map by one of the steps after step n. */
  predicate Evicted(steps: seq<Step>, n: nat, c: CallId)
    requires Runs(steps)
    decreases |steps|
  {
    |steps| > n + 1
    && (Evicted(steps[..|steps| - 1], n, c) || Evicts(After(steps[..|steps| - 1]), steps[|steps| - 1], c))
  }

  lemma {:induction false} FateOf(steps: seq<Step>, n: nat, c: CallId)
    requires Runs(steps) && n < |steps| && Runs(steps[..n]) && steps[n] == Register(c)
    requires Unserved(After(steps), c)
    ensures c in After(steps[..n]).calls
    ensures Evicted(steps, n, c) ==> Lost(After(steps), c)
    ensures !Evicted(steps, n, c) ==> Pending(After(steps), c) || HeldBySome(After(steps), c)
    ensures var s, p := After(steps), After(steps[..n]);
            var k := p.calls[c].conn;
            && s.calls[c].conn == k && (Live(s, k) ==> Live(p, k))
            && (Pending(s, c) && Live(p, k) ==> Live(s, k))
    decreases |steps|
  {
    var before, step := steps[..|steps| - 1], steps[|steps| - 1];
    AlwaysInv(before);
    if |steps| == n + 1 {
      assert before == steps[..n];
    } else {
      assert before[..n] == steps[..n] && before[n] == steps[n];
      NotAgain(before, n, c);
      WasUnserved(After(before), step, c);
      FateOf(before, n, c);
      FateStep(After(before), step, c, Evicted(before, n, c), Live(After(steps[..n]), After(steps[..n]).calls[c].conn));
    }
  }

  lemma FateStep(s: State, step: Step, c: CallId, evicted: bool, live: bool)
    requires Inv(s) && Enabled(s, step) && step != Register(c) && Drawn(s, c)
    requires Unserved(s, c) && Unserved(Do(s, step), c)
    requires if evicted then Lost(s, c) else Pending(s, c) || HeldBySome(s, c)
    requires (Live(s, s.calls[c].conn) ==> live) && (Pending(s, c) && live ==> Live(s, s.calls[c].conn))
    ensures var t := Do(s, step);
            && t.calls[c].conn == s.calls[c].conn
            && (if evicted || Evicts(s, step, c) then Lost(t, c) else Pending(t, c) || HeldBySome(t, c))
            && (Live(t, t.calls[c].conn) ==> live) && (Pending(t, c) && live ==> Live(t, t.calls[c].conn))
  {
    LiveStays(s, step, c);
    PendingBefore(s, step, c);
    if evicted {
      LostStays(s, step, c);
    } else if Evicts(s, step, c) {
      EvictedIsLost(s, step, c);
    } else if Pending(s, c) {
      PendingMoves(s, step, c);
    } else {
      var k :| Held(s, k, c);
      HeldStays(s, step, k, c);
    }
  }

  /** A call registers once. */
  lemma {:induction false} NotAgain(steps: seq<Step>, n: nat, c: CallId)
    requires Runs(steps) && n < |steps| && steps[n] == Register(c)
    ensures c in After(steps).calls && !In(After(steps), c, HasConn) && !In(After(steps), c, HasId)
    decreases |steps|
  {
    if |steps| > n + 1 {
      NotAgain(steps[..|steps| - 1], n, c);
      StaysPast(After(steps[..|steps| - 1]), steps[|steps| - 1], c);
    }
  }

  lemma StaysPast(s: State, step: Step, c: CallId)
    requires Enabled(s, step) && c in s.calls && !In(s, c, HasConn) && !In(s, c, HasId)
    ensures var t := Do(s, step); c in t.calls && !In(t, c, HasConn) && !In(t, c, HasId)
  {
  }

  lemma PendingBefore(s: State, step: Step, c: CallId)
    requires Enabled(s, step) && step != Register(c) && Drawn(s, c)
    ensures Pending(Do(s, step), c) ==> Pending(s, c)
  {
    DrawnStays(s, step, c);
  }

  /** Main result: exactly when a registered call that has neither been sent to nor given up is still served, over any
      run.  It is lost if and only if another call with the same ID took its place.  It is awaited if and only if a read
      loop has taken it, or it has kept its place and its own connection was being read when it registered: a call that
      registers after its connection's read error is pending, but no longer awaited. */
  lemma FateIff(steps: seq<Step>, n: nat, c: CallId)
    requires Runs(steps) && n < |steps| && Runs(steps[..n]) && steps[n] == Register(c)
    requires Unserved(After(steps), c)
    ensures c in After(steps[..n]).calls
    ensures Lost(After(steps), c) <==> Evicted(steps, n, c)
    ensures var s, p := After(steps), After(steps[..n]);
            Awaited(s, c) <==> HeldBySome(s, c) || (!Evicted(steps, n, c) && Live(p, p.calls[c].conn))
  {
    FateOf(steps, n, c);
  }

  /** Eviction takes two connection epochs: the call that takes the place drew the ID in another one. */
  lemma EvictorIsOfAnotherEpoch(steps: seq<Step>, step: Step, c: CallId)
    requires Runs(steps) && Enabled(After(steps), step) && Evicts(After(steps), step, c)
    ensures var s := After(steps); s.calls[step.c].epoch != s.calls[c].epoch
  {
    AlwaysInv(steps);
    assert Unanswered(After(steps).calls, c, After(steps).calls[c].id);
  }

  // What the read loops can still do for a call.

  predicate NoConnect(steps: seq<Step>) {
    forall i | 0 <= i < |steps| :: !steps[i].ConnectOk?
  }

  predicate Reached(s: State, c: CallId) {
    c in s.calls && s.calls[c].sends > 0
  }

  /** No read loop has the call, and none is left to find it pending. */
  ghost predicate Abandoned(s: State, c: CallId) {
    && c in s.calls && s.calls[c].sends == 0 && !s.calls[c].phase.HasConn? && !s.calls[c].phase.HasId?
    && !HeldBySome(s, c) && (Pending(s, c) ==> forall k :: !Live(s, k))
  }

  /** A loop takes a channel only out of the pending map, and only a connect starts a loop. */
  lemma TakenFromPending(s: State, step: Step, k: ConnId, c: CallId)
    requires Enabled(s, step) && c in s.calls
    ensures Drawn(s, c) && Held(Do(s, step), k, c) ==> Held(s, k, c) || (Pending(s, c) && Live(s, k))
    ensures !step.ConnectOk? && Live(Do(s, step), k) ==> Live(s, k)
  {
    DrawnStays(s, step, c);
  }

  lemma NotSentTo(s: State, step: Step, c: CallId)
    requires OnePlace(s) && Enabled(s, step) && !HeldBySome(s, c)
    requires c in s.calls && s.calls[c].sends == 0 && !s.calls[c].phase.HasConn? && !s.calls[c].phase.HasId?
    ensures var t := Do(s, step);
            c in t.calls && t.calls[c].sends == 0 && !t.calls[c].phase.HasConn? && !t.calls[c].phase.HasId?
  {
    match step
    case Deliver(k) => assert Owns(s.loops[k], s.loops[k].frame.id, s.loops[k].call) && !Held(s, k, c);
    case CancelOne(k, id) => assert Owns(s.loops[k], id, s.loops[k].waiters[id]) && !Held(s, k, c);
    case _ =>
  }

  lemma AbandonedStays(s: State, step: Step, c: CallId)
    requires OnePlace(s) && Abandoned(s, c) && Enabled(s, step) && !step.ConnectOk?
    ensures Abandoned(Do(s, step), c)
  {
    NotSentTo(s, step, c);
    forall k
      ensures !Held(Do(s, step), k, c) && (Live(Do(s, step), k) ==> Live(s, k))
    {
      assert !Held(s, k, c);
      TakenFromPending(s, step, k, c);
    }
    PendingBefore(s, step, c);
  }

  lemma {:induction false} AbandonedForGood(s: State, steps: seq<Step>, c: CallId)
    requires OnePlace(s) && Abandoned(s, c) && CanFollow(s, steps) && NoConnect(steps)
    ensures !Reached(Followed(s, steps), c)
    decreases |steps|
  {
    if steps != [] {
      OnePlaceStep(s, steps[0]);
      AbandonedStays(s, steps[0], c);
      AbandonedForGood(Do(s, steps[0]), steps[1..], c);
    }
  }

  lemma Cancellable(s: State, k: ConnId, c: CallId) returns (steps: seq<Step>)
    requires OnePlace(s) && Held(s, k, c)
    ensures CanFollow(s, steps) && NoConnect(steps) && Reached(Followed(s, steps), c)
  {
    var id := s.calls[c].id;
    assert Unanswered(s.calls, c, id);
    steps := if s.loops[k].Holding? then [Deliver(k)] else [CancelOne(k, id)];
    assert CanFollow(Do(s, steps[0]), steps[1..]);
  }

  lemma Fails(s: State, k: ConnId, c: CallId) returns (steps: seq<Step>)
    requires OnePlace(s) && Pending(s, c) && k in s.loops && s.loops[k].Reading?
    ensures CanFollow(s, steps) && NoConnect(steps) && Reached(Followed(s, steps), c)
  {
    OnePlaceStep(s, ReadError(k));
    var more := Cancellable(Do(s, ReadError(k)), k, c);
    steps := [ReadError(k)] + more;
    assert steps[1..] == more;
  }

  lemma FailsLater(s: State, k: ConnId, c: CallId) returns (steps: seq<Step>)
    requires OnePlace(s) && Pending(s, c) && Live(s, k)
    ensures CanFollow(s, steps) && NoConnect(steps) && Reached(Followed(s, steps), c)
  {
    if s.loops[k].Reading? {
      steps := Fails(s, k, c);
    } else {
      assert Owns(s.loops[k], s.loops[k].frame.id, s.loops[k].call);
      OnePlaceStep(s, Deliver(k));
      var more := Fails(Do(s, Deliver(k)), k, c);
      steps := [Deliver(k)] + more;
      assert steps[1..] == more;
    }
  }

  /** Main result: from any reachable state, an unserved call can be sent to without a new connection if and only if a
      read loop has it, or it is pending and some connection is still being read. */
  lemma ReachableIff(before: seq<Step>, c: CallId)
    requires Runs(before) && Unserved(After(before), c)
    ensures var s := After(before);
            (exists steps :: CanFollow(s, steps) && NoConnect(steps) && Reached(Followed(s, steps), c)) <==>
            HeldBySome(s, c) || (Pending(s, c) && exists k :: Live(s, k))
  {
    AlwaysInv(before);
    var s := After(before);
    if k :| Held(s, k, c) {
      var steps := Cancellable(s, k, c);
    } else if k :| Pending(s, c) && Live(s, k) {
      var steps := FailsLater(s, k, c);
    } else {
      forall steps | CanFollow(s, steps) && NoConnect(steps)
        ensures !Reached(Followed(s, steps), c)
      {
        AbandonedForGood(s, steps, c);
      }
    }
  }
}
