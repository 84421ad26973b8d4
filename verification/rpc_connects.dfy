/** Which connects are safe: what a connect can lead to while something of earlier connections is left, and what holds
    as long as nothing ever is. */
module RpcConnects {
  import opened Values
  import opened RpcMux
  import opened RpcDelivery

  /** The call still has a step to take that touches the pending map. */
  predicate MayTouch(call: Call) {
    !call.phase.HasConn? && !call.phase.Unregistered? && !call.phase.Returned?
  }

  ghost predicate SomeTouches(s: State) {
    exists c :: c in s.calls && s.calls[c].id > 1 && MayTouch(s.calls[c])
  }

  /** Before a connect: no connection is being read, and no call with an ID above 1 has a step to take on the pending
      map. */
  ghost predicate SafeToConnect(s: State) {
    (forall k :: !Live(s, k)) && !SomeTouches(s)
  }

  ghost predicate SafeRun(steps: seq<Step>)
    requires Runs(steps)
    decreases |steps|
  {
    steps != [] ==>
      && SafeRun(steps[..|steps| - 1])
      && (steps[|steps| - 1].ConnectOk? ==> SafeToConnect(After(steps[..|steps| - 1])))
  }

  /** What can go wrong for a call that counts on an answer: it loses its place in the pending map to a call with its
      ID, or the loop of another connection cancels it while its own is being read. */
  datatype Mishap = Eviction | Severance

  predicate CountsOn(s: State, c: CallId) {
    In(s, c, Registered) || In(s, c, Waiting)
  }

  predicate Severs(s: State, step: Step, c: CallId) {
    && step.CancelOne? && step.k in s.loops && s.loops[step.k].Cancelling? && At(s.loops[step.k].waiters, step.id, c)
    && c in s.calls && s.calls[c].conn != step.k && Live(s, s.calls[c].conn)
  }

  predicate Strikes(m: Mishap, s: State, step: Step, c: CallId) {
    CountsOn(s, c) && if m.Eviction? then Evicts(s, step, c) else Severs(s, step, c)
  }

  // Evictions.

  /** While the call can still touch the pending map, it is of the current epoch, or has an ID that is not given out
      after a connect. */
  predicate CurrentTouch(s: State, c: CallId) {
    c in s.calls && MayTouch(s.calls[c]) && s.calls[c].id > 1 ==> s.calls[c].epoch == s.epoch
  }

  ghost predicate TouchesCurrent(s: State) {
    forall c :: CurrentTouch(s, c)
  }

  lemma TouchedBefore(s: State, step: Step, c: CallId)
    requires Enabled(s, step) && c in s.calls
    ensures var t := Do(s, step); c in t.calls && (MayTouch(t.calls[c]) ==> MayTouch(s.calls[c]) || step == DrawId(c))
  {
  }

  lemma TouchesStep(s: State, step: Step)
    requires TouchesCurrent(s) && Enabled(s, step) && (step.ConnectOk? ==> !SomeTouches(s))
    ensures TouchesCurrent(Do(s, step))
  {
    CounterAdvances(s, step);
    forall c
      ensures CurrentTouch(Do(s, step), c)
    {
      assert CurrentTouch(s, c);
      if c in s.calls {
        DrawnStays(s, step, c);
        TouchedBefore(s, step, c);
      }
    }
  }

  lemma TouchesFirst(s: State)
    requires s.conn.None? && !SomeTouches(s)
    ensures TouchesCurrent(Do(s, ConnectOk))
  {
  }

  lemma SameCall(s: State, c: CallId, d: CallId)
    requires Inv(s) && TouchesCurrent(s) && c in s.calls && d in s.calls
    requires MayTouch(s.calls[c]) && MayTouch(s.calls[d]) && s.calls[c].id == s.calls[d].id
    ensures c == d
  {
    assert CurrentTouch(s, c) && CurrentTouch(s, d) && Drawn(s, c) && Drawn(s, d);
  }

  lemma NoEviction(s: State, step: Step, c: CallId)
    requires Inv(s) && TouchesCurrent(s) && Enabled(s, step)
    ensures !Evicts(s, step, c)
  {
    if (step.Register? || step.Unregister? || step.Leave?) && Pending(s, c) && s.calls[step.c].id == s.calls[c].id {
      assert Unanswered(s.calls, c, s.calls[c].id) && MayPend(s.calls[c]);
      SameCall(s, c, step.c);
    }
  }

  // Severances.

  /** One connection at most is being read, and no other connection's loop has taken a call made on it. */
  ghost predicate Sole(s: State) {
    && (forall k, l | Live(s, k) && Live(s, l) :: k == l)
    && (forall l, c | Held(s, l, c) && Live(s, s.calls[c].conn) :: l == s.calls[c].conn)
  }

  lemma SoleStep(s: State, step: Step)
    requires Inv(s) && Sole(s) && Enabled(s, step) && (step.ConnectOk? ==> forall k :: !Live(s, k))
    ensures Sole(Do(s, step))
  {
    var t := Do(s, step);
    forall k, l | Live(t, k) && Live(t, l)
      ensures k == l
    {
      LiveBefore(s, step, k);
      LiveBefore(s, step, l);
    }
    forall l, c | Held(t, l, c) && Live(t, t.calls[c].conn)
      ensures l == t.calls[c].conn
    {
      SoleCall(s, step, l, c);
    }
  }

  /** Only a connect starts a loop. */
  lemma LiveBefore(s: State, step: Step, k: ConnId)
    requires Enabled(s, step) && Live(Do(s, step), k)
    ensures Live(s, k) || (step.ConnectOk? && k == s.conns)
  {
  }

  lemma SoleCall(s: State, step: Step, l: ConnId, c: CallId)
    requires Inv(s) && Sole(s) && Enabled(s, step) && (step.ConnectOk? ==> forall k :: !Live(s, k))
    requires Held(Do(s, step), l, c) && Live(Do(s, step), Do(s, step).calls[c].conn)
    ensures l == Do(s, step).calls[c].conn
  {
    HeldBefore(s, step, l, c);
    DrawnStays(s, step, c);
    if !step.ConnectOk? {
      TakenFromPending(s, step, s.calls[c].conn, c);
      TakenFromPending(s, step, l, c);
    }
  }

  lemma HeldBefore(s: State, step: Step, l: ConnId, c: CallId)
    requires OnePlace(s) && Enabled(s, step) && Held(Do(s, step), l, c)
    ensures c in s.calls && Drawn(s, c) && (step.ConnectOk? ==> Held(s, l, c))
  {
    assert Unanswered(Do(s, step).calls, c, Do(s, step).calls[c].id) by {
      OnePlaceStep(s, step);
    }
  }

  lemma SoleFirst(s: State)
    requires Inv(s) && s.conn.None? && forall k :: !Live(s, k)
    ensures Sole(Do(s, ConnectOk))
  {
    assert Sole(s);
    SoleStep(s, ConnectOk);
  }

  lemma NoSeverance(s: State, step: Step, c: CallId)
    requires Sole(s) && OnePlace(s)
    ensures !Severs(s, step, c)
  {
    if Severs(s, step, c) {
      TakenIsHeld(s, step.k, step.id, c);
    }
  }

  lemma TakenIsHeld(s: State, k: ConnId, id: nat, c: CallId)
    requires OnePlace(s) && k in s.loops && s.loops[k].Cancelling? && At(s.loops[k].waiters, id, c)
    ensures Held(s, k, c)
  {
    assert Owns(s.loops[k], id, c) && Unanswered(s.calls, c, id);
  }

  // Answers.

  /** While its connection is being read, the call is of the current epoch, or has an ID that is not given out after a
      connect. */
  predicate CurrentReader(s: State, c: CallId) {
    Drawn(s, c) && s.calls[c].id > 1 && Live(s, s.calls[c].conn) ==> s.calls[c].epoch == s.epoch
  }

  ghost predicate ReadersCurrent(s: State) {
    forall c :: CurrentReader(s, c)
  }

  lemma ReadersStep(s: State, step: Step)
    requires ConnsBelow(s) && ReadersCurrent(s) && Enabled(s, step) && (step.ConnectOk? ==> forall k :: !Live(s, k))
    ensures ReadersCurrent(Do(s, step))
  {
    CounterAdvances(s, step);
    forall c
      ensures CurrentReader(Do(s, step), c)
    {
      assert CurrentReader(s, c);
      if c in s.calls {
        DrawnStays(s, step, c);
        TakenFromPending(s, step, s.calls[c].conn, c);
      }
    }
  }

  /** A frame that answers a request is on its way to the call that made it. */
  predicate Own(c: CallId, f: Frame) {
    f.answers.Some? ==> f.answers.value == c
  }

  ghost predicate OwnAnswers(s: State) {
    && (forall k | k in s.loops && s.loops[k].Holding? :: Own(s.loops[k].call, s.loops[k].frame))
    && (forall c | c in s.calls && s.calls[c].buffer.Some? :: Own(c, s.calls[c].buffer.value))
    && (forall c | c in s.calls && s.calls[c].result.Some? :: Own(c, s.calls[c].result.value))
  }

  /** What a run keeps while all its connects are safe. */
  ghost predicate Safe(s: State) {
    Inv(s) && TouchesCurrent(s) && Sole(s) && ReadersCurrent(s) && OwnAnswers(s)
  }

  lemma OwnTaken(s: State, k: ConnId, id: nat, answers: Option<CallId>)
    requires Inv(s) && TouchesCurrent(s) && ReadersCurrent(s) && Enabled(s, FrameIn(k, id, answers)) && id in s.pending
    ensures Own(s.pending[id], Frame(id, k, false, answers))
  {
    var c := s.pending[id];
    assert Unanswered(s.calls, c, id) && MayPend(s.calls[c]) && CurrentTouch(s, c);
    if answers.Some? {
      assert CurrentReader(s, answers.value) && Drawn(s, answers.value) && Drawn(s, c);
    }
  }

  lemma OwnHeld(s: State, step: Step, k: ConnId)
    requires Safe(s) && Enabled(s, step)
    ensures var t := Do(s, step); k in t.loops && t.loops[k].Holding? ==> Own(t.loops[k].call, t.loops[k].frame)
  {
    match step
    case FrameIn(l, id, answers) =>
      if id in s.pending {
        OwnTaken(s, l, id, answers);
      }
    case _ =>
  }

  lemma OwnSent(s: State, step: Step, c: CallId)
    requires OwnAnswers(s) && Enabled(s, step) && c in Do(s, step).calls
    ensures var t := Do(s, step);
            && (t.calls[c].buffer.Some? ==> Own(c, t.calls[c].buffer.value))
            && (t.calls[c].result.Some? ==> Own(c, t.calls[c].result.value))
  {
  }

  lemma OwnAnswersStep(s: State, step: Step)
    requires Safe(s) && Enabled(s, step)
    ensures OwnAnswers(Do(s, step))
  {
    forall k | k in Do(s, step).loops
      ensures Do(s, step).loops[k].Holding? ==> Own(Do(s, step).loops[k].call, Do(s, step).loops[k].frame)
    {
      OwnHeld(s, step, k);
    }
    forall c | c in Do(s, step).calls
      ensures Do(s, step).calls[c].buffer.Some? ==> Own(c, Do(s, step).calls[c].buffer.value)
      ensures Do(s, step).calls[c].result.Some? ==> Own(c, Do(s, step).calls[c].result.value)
    {
      OwnSent(s, step, c);
    }
  }

  lemma SafeStep(s: State, step: Step)
    requires Safe(s) && Enabled(s, step) && (step.ConnectOk? ==> SafeToConnect(s))
    ensures Safe(Do(s, step))
  {
    InvStep(s, step);
    TouchesStep(s, step);
    SoleStep(s, step);
    ReadersStep(s, step);
    OwnAnswersStep(s, step);
  }

  lemma {:induction false} AlwaysSafe(steps: seq<Step>)
    requires Runs(steps) && SafeRun(steps)
    ensures Safe(After(steps))
    decreases |steps|
  {
    if steps != [] {
      AlwaysSafe(steps[..|steps| - 1]);
      SafeStep(After(steps[..|steps| - 1]), steps[|steps| - 1]);
    }
  }

  /** Main result: when every connect is safe, an answer that a call returns is the answer to its own request. */
  lemma SafeAnswersAreOwn(steps: seq<Step>, c: CallId)
    requires Runs(steps) && SafeRun(steps) && c in After(steps).calls && After(steps).calls[c].result.Some?
    ensures After(steps).calls[c].result.value.answers.Some? ==> After(steps).calls[c].result.value.answers.value == c
  {
    AlwaysSafe(steps);
  }

  /** Main result: when every connect is safe no call is evicted, so by `FateIff` a registered call is served exactly if
      its connection was being read when it registered. */
  lemma {:induction false} SafeNeverEvicts(steps: seq<Step>, n: nat, c: CallId)
    requires Runs(steps) && SafeRun(steps)
    ensures !Evicted(steps, n, c)
    decreases |steps|
  {
    if |steps| > n + 1 {
      var before := steps[..|steps| - 1];
      SafeNeverEvicts(before, n, c);
      AlwaysSafe(before);
      NoEviction(After(before), steps[|steps| - 1], c);
    }
  }

  /** And no call is cancelled by the loop of another connection while its own is being read. */
  lemma SafeNeverSevers(steps: seq<Step>, step: Step, c: CallId)
    requires Runs(steps) && SafeRun(steps)
    ensures !Severs(After(steps), step, c)
  {
    AlwaysSafe(steps);
    NoSeverance(After(steps), step, c);
  }

  /** A connect with no read loop running and every drawn call returned is safe. */
  lemma QuietIsSafe(s: State)
    requires s.loops == map[] && forall c | Drawn(s, c) :: s.calls[c].phase.Returned?
    ensures SafeToConnect(s)
  {
  }

  // And no others are.

  /** One of the steps strikes a call. */
  ghost predicate Striking(m: Mishap, s: State, steps: seq<Step>)
    requires CanFollow(s, steps)
    decreases |steps|
  {
    steps != [] && ((exists c :: Strikes(m, s, steps[0], c)) || Striking(m, Do(s, steps[0]), steps[1..]))
  }

  /** Without a further connect, the mishap can come. */
  ghost predicate MayStrike(m: Mishap, s: State) {
    exists steps :: CanFollow(s, steps) && NoConnect(steps) && Striking(m, s, steps)
  }

  lemma StrikeAfter(m: Mishap, s: State, step: Step)
    requires Enabled(s, step) && !step.ConnectOk? && MayStrike(m, Do(s, step))
    ensures MayStrike(m, s)
  {
    var t := Do(s, step);
    var more :| CanFollow(t, more) && NoConnect(more) && Striking(m, t, more);
    var steps := [step] + more;
    assert steps[1..] == more;
    assert CanFollow(s, steps) && Striking(m, s, steps);
  }

  lemma StrikeNow(m: Mishap, s: State, step: Step, c: CallId)
    requires Enabled(s, step) && !step.ConnectOk? && Strikes(m, s, step, c)
    ensures MayStrike(m, s)
  {
    var steps := [step];
    assert CanFollow(Do(s, step), steps[1..]);
    assert CanFollow(s, steps) && Striking(m, s, steps);
  }

  lemma FreshCall(calls: map<CallId, Call>) returns (c: CallId)
    ensures c !in calls
  {
    var top := Top(calls.Keys);
    c := top + 1;
  }

  lemma Top(ids: set<CallId>) returns (top: CallId)
    ensures forall c | c in ids :: c <= top
  {
    top := 0;
    if ids != {} {
      var c :| c in ids;
      var rest := Top(ids - {c});
      top := if rest < c then c else rest;
      assert forall d | d in ids :: d == c || d in ids - {c};
    }
  }

  /** A call in the middle of its way can drop the entry of a registered call with its ID. */
  lemma TouchEvicts(s: State, d: CallId, x: CallId)
    requires d in s.calls && MayTouch(s.calls[d]) && d != x && Pending(s, x) && s.calls[x].id == s.calls[d].id
    requires In(s, x, Registered)
    ensures MayStrike(Eviction, s)
  {
    match s.calls[d].phase
    case HasId => StrikeNow(Eviction, s, Register(d), x);
    case Registered =>
      StrikeNow(Eviction, Do(s, WriteFail(d)), Unregister(d), x);
      StrikeAfter(Eviction, s, WriteFail(d));
    case WriteFailed => StrikeNow(Eviction, s, Unregister(d), x);
    case Waiting =>
      StrikeNow(Eviction, Do(s, TimeOut(d)), Leave(d), x);
      StrikeAfter(Eviction, s, TimeOut(d));
    case Leaving => StrikeNow(Eviction, s, Leave(d), x);
  }

  lemma DrawNext(m: Mishap, s: State, x: CallId) returns (t: State)
    requires s.conn.Some? && x !in s.calls
    ensures var call := Call(HasId, s.conn.value, s.nextId + 1, s.epoch, None, 0, None);
            t == s.(nextId := s.nextId + 1, calls := s.calls[x := call])
    ensures MayStrike(m, t) ==> MayStrike(m, s)
  {
    var r := Do(s, ReadConn(x));
    t := Do(r, DrawId(x));
    if MayStrike(m, t) {
      StrikeAfter(m, r, DrawId(x));
      StrikeAfter(m, s, ReadConn(x));
    }
  }

  /** IDs count up to that of a call from before, and then meet it. */
  lemma {:induction false} TouchStrikes(s: State, d: CallId)
    requires s.conn.Some? && d in s.calls && MayTouch(s.calls[d]) && s.nextId < s.calls[d].id
    ensures MayStrike(Eviction, s)
    decreases s.calls[d].id - s.nextId
  {
    var x := FreshCall(s.calls);
    var t := DrawNext(Eviction, s, x);
    if s.nextId + 1 < s.calls[d].id {
      TouchStrikes(t, d);
    } else {
      TouchEvicts(Do(t, Register(x)), d, x);
      StrikeAfter(Eviction, t, Register(x));
    }
  }

  /** The read error of an old connection takes the calls of the new one with it. */
  lemma ReaderStrikes(s: State, k: ConnId)
    requires s.conn.Some? && s.conn.value != k && Live(s, s.conn.value) && k in s.loops && s.loops[k].Reading?
    ensures MayStrike(Severance, s)
  {
    var x := FreshCall(s.calls);
    var t := DrawNext(Severance, s, x);
    var id := s.nextId + 1;
    var a := Do(t, Register(x));
    var b := Do(a, ReadError(k));
    assert At(b.loops[k].waiters, id, x);
    StrikeNow(Severance, b, CancelOne(k, id), x);
    StrikeAfter(Severance, a, ReadError(k));
    StrikeAfter(Severance, t, Register(x));
  }

  lemma LoopStrikes(s: State, k: ConnId)
    requires OnePlace(s) && s.conn.Some? && s.conn.value != k && Live(s, s.conn.value) && Live(s, k)
    ensures MayStrike(Severance, s)
  {
    if s.loops[k].Reading? {
      ReaderStrikes(s, k);
    } else {
      assert Owns(s.loops[k], s.loops[k].frame.id, s.loops[k].call);
      ReaderStrikes(Do(s, Deliver(k)), k);
      StrikeAfter(Severance, s, Deliver(k));
    }
  }

  lemma {:induction false} NoStrike(m: Mishap, s: State, steps: seq<Step>)
    requires Inv(s) && (if m.Eviction? then TouchesCurrent(s) else Sole(s)) && CanFollow(s, steps) && NoConnect(steps)
    ensures !Striking(m, s, steps)
    decreases |steps|
  {
    if steps != [] {
      forall c
        ensures !Strikes(m, s, steps[0], c)
      {
        if m.Eviction? {
          NoEviction(s, steps[0], c);
        } else {
          NoSeverance(s, steps[0], c);
        }
      }
      InvStep(s, steps[0]);
      if m.Eviction? {
        TouchesStep(s, steps[0]);
      } else {
        SoleStep(s, steps[0]);
      }
      NoStrike(m, Do(s, steps[0]), steps[1..]);
    }
  }

  lemma NeverStrikes(m: Mishap, s: State)
    requires Inv(s) && if m.Eviction? then TouchesCurrent(s) else Sole(s)
    ensures !MayStrike(m, s)
  {
    forall steps | CanFollow(s, steps) && NoConnect(steps)
      ensures !Striking(m, s, steps)
    {
      NoStrike(m, s, steps);
    }
  }

  /** Main result: from any reachable state, a connect can lead to a call losing its place if and only if a call with an
      ID above 1 has a step to take on the pending map. */
  lemma ConnectEvictsIff(before: seq<Step>)
    requires Runs(before) && After(before).conn.None?
    ensures MayStrike(Eviction, Do(After(before), ConnectOk)) <==> SomeTouches(After(before))
  {
    var s := After(before);
    AlwaysInv(before);
    InvStep(s, ConnectOk);
    if c :| c in s.calls && s.calls[c].id > 1 && MayTouch(s.calls[c]) {
      TouchStrikes(Do(s, ConnectOk), c);
    } else {
      TouchesFirst(s);
      NeverStrikes(Eviction, Do(s, ConnectOk));
    }
  }

  /** Main result: from any reachable state, a connect can lead to a call being cancelled by another connection's loop
      while its own connection is being read, if and only if some connection is being read. */
  lemma ConnectSeversIff(before: seq<Step>)
    requires Runs(before) && After(before).conn.None?
    ensures MayStrike(Severance, Do(After(before), ConnectOk)) <==> exists k :: Live(After(before), k)
  {
    var s := After(before);
    AlwaysInv(before);
    InvStep(s, ConnectOk);
    if k :| Live(s, k) {
      LoopStrikes(Do(s, ConnectOk), k);
    } else {
      SoleFirst(s);
      NeverStrikes(Severance, Do(s, ConnectOk));
    }
  }

  /** Some call has returned the answer to another call's request. */
  ghost predicate MixedUp(s: State) {
    exists c :: c in s.calls && s.calls[c].result.Some? && !Own(c, s.calls[c].result.value)
  }

  /** Without a further connect, a call can lose its place, be cut off from a connection that is being read, or get
      another call's answer. */
  ghost predicate Harm(s: State) {
    || MayStrike(Eviction, s) || MayStrike(Severance, s)
    || exists steps :: CanFollow(s, steps) && NoConnect(steps) && MixedUp(Followed(s, steps))
  }

  lemma {:induction false} NoMixUp(s: State, steps: seq<Step>)
    requires Safe(s) && CanFollow(s, steps) && NoConnect(steps)
    ensures !MixedUp(Followed(s, steps))
    decreases |steps|
  {
    if steps != [] {
      SafeStep(s, steps[0]);
      NoMixUp(Do(s, steps[0]), steps[1..]);
    }
  }

  /** Main result: after a run of safe connects, the next one can do harm if and only if it is not safe. */
  lemma ConnectHarmsIff(before: seq<Step>)
    requires Runs(before) && SafeRun(before) && After(before).conn.None?
    ensures Harm(Do(After(before), ConnectOk)) <==> !SafeToConnect(After(before))
  {
    var s := After(before);
    ConnectEvictsIff(before);
    ConnectSeversIff(before);
    if SafeToConnect(s) {
      AlwaysSafe(before);
      SafeStep(s, ConnectOk);
      forall steps | CanFollow(Do(s, ConnectOk), steps) && NoConnect(steps)
        ensures !MixedUp(Followed(Do(s, ConnectOk), steps))
      {
        NoMixUp(Do(s, ConnectOk), steps);
      }
    }
  }
}
