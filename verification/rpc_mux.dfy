/** The WebSocket RPC multiplexer as a state machine.  Each step is one critical section, channel
    operation or network event of the client; steps of different calls, of the read loops and of
    reconnects interleave freely. */
module RpcMux {

  import opened Values

  type CallId = nat
  type ConnId = nat

  /** A response frame: the request ID it carries, the connection whose read loop handed it over, whether that
      loop made it up to cancel a call, and the call whose request the server answers with it, if it is an answer.
      Nothing is asked of the server but that it answers requests it may have got, and it may answer one repeatedly. */
  datatype Frame = Frame(id: nat, conn: ConnId, cancelled: bool, answers: Option<CallId>)

  /** Where a call stands between reading the connection and returning. */
  datatype Phase = HasConn | HasId | Registered | WriteFailed | Unregistered | Waiting | Leaving | Returned

  /** A call: the connection it read, its request ID, the epoch in which it drew the ID, its one-slot
      response channel, how often that channel was sent to, and the response it returned. */
  datatype Call = Call(phase: Phase, conn: ConnId, id: nat, epoch: nat,
                       buffer: Option<Frame>, sends: nat, result: Option<Frame>)

  /** A read loop: waiting for a frame, holding one it has matched to a call, or cancelling the calls
      it took from the pending map after a read error. */
  datatype Loop = Reading | Holding(call: CallId, frame: Frame) | Cancelling(waiters: map<nat, CallId>)

  /** The client's fields (connection, ID counter, pending map) with its calls and read loops.
      `epoch` counts successful connects, which reset the ID counter. */
  datatype State = State(conn: Option<ConnId>, conns: nat, nextId: nat, epoch: nat, pending: map<nat, CallId>,
                         calls: map<CallId, Call>, loops: map<ConnId, Loop>)

  datatype Step =
    | ConnectOk | ConnectRejected | DropConn
    | ReadConn(c: CallId) | DrawId(c: CallId) | Register(c: CallId)
    | WriteOk(c: CallId) | WriteFail(c: CallId) | Unregister(c: CallId) | ClearConn(c: CallId)
    | Receive(c: CallId) | TimeOut(c: CallId) | Leave(c: CallId)
    | FrameIn(k: ConnId, id: nat, answers: Option<CallId>) | Deliver(k: ConnId)
    | ReadError(k: ConnId) | CancelOne(k: ConnId, id: nat) | LoopExit(k: ConnId)

  const START := State(None, 0, 0, 0, map[], map[], map[])

  predicate In(s: State, c: CallId, phase: Phase) {
    c in s.calls && s.calls[c].phase == phase
  }

  predicate Room(s: State, c: CallId) {
    c in s.calls && s.calls[c].buffer.None?
  }

  /** The call has sent, or may by now have sent, its request on the connection. */
  predicate Asked(s: State, k: ConnId, id: nat, c: CallId) {
    && c in s.calls && s.calls[c].conn == k && s.calls[c].id == id
    && !s.calls[c].phase.HasConn? && !s.calls[c].phase.HasId?
  }

  predicate Enabled(s: State, step: Step) {
    match step
    case ConnectOk => s.conn.None?
    case ConnectRejected => s.conn.None?
    case DropConn => true
    case ReadConn(c) => c !in s.calls && s.conn.Some?
    case DrawId(c) => In(s, c, HasConn)
    case Register(c) => In(s, c, HasId)
    case WriteOk(c) => In(s, c, Registered)
    case WriteFail(c) => In(s, c, Registered)
    case Unregister(c) => In(s, c, WriteFailed)
    case ClearConn(c) => In(s, c, Unregistered)
    case Receive(c) => In(s, c, Waiting) && s.calls[c].buffer.Some?
    case TimeOut(c) => In(s, c, Waiting)
    case Leave(c) => In(s, c, Leaving)
    case FrameIn(k, id, answers) =>
      k in s.loops && s.loops[k].Reading? && (answers.Some? ==> Asked(s, k, id, answers.value))
    case Deliver(k) => k in s.loops && s.loops[k].Holding? && Room(s, s.loops[k].call)
    case ReadError(k) => k in s.loops && s.loops[k].Reading?
    case CancelOne(k, id) =>
      k in s.loops && s.loops[k].Cancelling? && id in s.loops[k].waiters && Room(s, s.loops[k].waiters[id])
    case LoopExit(k) => k in s.loops && s.loops[k].Cancelling? && s.loops[k].waiters == map[]
  }

  function SetPhase(s: State, c: CallId, phase: Phase): State
    requires c in s.calls
  {
    s.(calls := s.calls[c := s.calls[c].(phase := phase)])
  }

  /** Put a frame into a call's channel. */
  function Send(s: State, c: CallId, f: Frame): State
    requires Room(s, c)
  {
    s.(calls := s.calls[c := s.calls[c].(buffer := Some(f), sends := s.calls[c].sends + 1)])
  }

  function ClearIfSame(s: State, k: ConnId): State {
    if s.conn == Some(k) then s.(conn := None) else s
  }

  function Do(s: State, step: Step): State
    requires Enabled(s, step)
  {
    match step
    case ConnectOk =>
      s.(conn := Some(s.conns), conns := s.conns + 1, nextId := 1, epoch := s.epoch + 1,
         loops := s.loops[s.conns := Reading])
    case ConnectRejected => s.(conn := Some(s.conns), conns := s.conns + 1)
    case DropConn => s.(conn := None)
    case ReadConn(c) => s.(calls := s.calls[c := Call(HasConn, s.conn.value, 0, 0, None, 0, None)])
    case DrawId(c) =>
      s.(nextId := s.nextId + 1,
         calls := s.calls[c := s.calls[c].(phase := HasId, id := s.nextId + 1, epoch := s.epoch)])
    case Register(c) => SetPhase(s, c, Registered).(pending := s.pending[s.calls[c].id := c])
    case WriteOk(c) => SetPhase(s, c, Waiting)
    case WriteFail(c) => SetPhase(s, c, WriteFailed)
    case Unregister(c) => SetPhase(s, c, Unregistered).(pending := s.pending - {s.calls[c].id})
    case ClearConn(c) => ClearIfSame(SetPhase(s, c, Returned), s.calls[c].conn)
    case Receive(c) =>
      s.(calls := s.calls[c := s.calls[c].(phase := Returned, result := s.calls[c].buffer, buffer := None)])
    case TimeOut(c) => SetPhase(s, c, Leaving)
    case Leave(c) => SetPhase(s, c, Returned).(pending := s.pending - {s.calls[c].id})
    case FrameIn(k, id, answers) =>
      if id in s.pending then
        s.(pending := s.pending - {id}, loops := s.loops[k := Holding(s.pending[id], Frame(id, k, false, answers))])
      else s
    case Deliver(k) =>
      Send(s, s.loops[k].call, s.loops[k].frame).(loops := s.loops[k := Reading])
    case ReadError(k) => s.(pending := map[], loops := s.loops[k := Cancelling(s.pending)])
    case CancelOne(k, id) =>
      Send(s, s.loops[k].waiters[id], Frame(id, k, true, None))
        .(loops := s.loops[k := Cancelling(s.loops[k].waiters - {id})])
    case LoopExit(k) => ClearIfSame(s.(loops := s.loops - {k}), k)
  }

  /** `steps` can be taken one after the other from the start. */
  predicate Runs(steps: seq<Step>)
    decreases |steps|, 0
  {
    steps == [] || (Runs(steps[..|steps| - 1]) && Enabled(After(steps[..|steps| - 1]), steps[|steps| - 1]))
  }

  function After(steps: seq<Step>): State
    requires Runs(steps)
    decreases |steps|, 1
  {
    if steps == [] then START else Do(After(steps[..|steps| - 1]), steps[|steps| - 1])
  }

  /** `steps` can be taken one after the other from `s`. */
  predicate CanFollow(s: State, steps: seq<Step>)
    decreases |steps|
  {
    steps == [] || (Enabled(s, steps[0]) && CanFollow(Do(s, steps[0]), steps[1..]))
  }

  function Followed(s: State, steps: seq<Step>): State
    requires CanFollow(s, steps)
    decreases |steps|
  {
    if steps == [] then s else Followed(Do(s, steps[0]), steps[1..])
  }

  lemma {:induction false} FollowMore(s: State, steps: seq<Step>, step: Step)
    requires CanFollow(s, steps) && Enabled(Followed(s, steps), step)
    ensures CanFollow(s, steps + [step]) && Followed(s, steps + [step]) == Do(Followed(s, steps), step)
    decreases |steps|
  {
    var more := steps + [step];
    if steps == [] {
      assert more == [step] && CanFollow(Do(s, step), more[1..]);
    } else {
      FollowMore(Do(s, steps[0]), steps[1..], step);
      assert more[1..] == steps[1..] + [step];
    }
  }

  ghost predicate Reachable(s: State) {
    exists steps :: Runs(steps) && After(steps) == s
  }

  lemma ReachStep(s: State, step: Step)
    requires Reachable(s) && Enabled(s, step)
    ensures Reachable(Do(s, step))
  {
    var steps :| Runs(steps) && After(steps) == s;
    var more := steps + [step];
    assert more[..|more| - 1] == steps;
    assert Runs(more) && After(more) == Do(s, step);
  }

  /** The map holds the call's channel under this ID. */
  predicate At(m: map<nat, CallId>, id: nat, c: CallId) {
    id in m && m[id] == c
  }

  /** The read loop has taken the call's channel out of the pending map and has yet to send to it. */
  predicate Owns(loop: Loop, id: nat, c: CallId) {
    match loop
    case Reading => false
    case Holding(d, frame) => d == c && frame.id == id
    case Cancelling(waiters) => At(waiters, id, c)
  }

  predicate Pending(s: State, c: CallId) {
    c in s.calls && At(s.pending, s.calls[c].id, c)
  }

  predicate Held(s: State, k: ConnId, c: CallId) {
    c in s.calls && k in s.loops && Owns(s.loops[k], s.calls[c].id, c)
  }

  /** The call has put its channel under this ID, and nothing has been sent to it. */
  predicate Unanswered(calls: map<CallId, Call>, c: CallId, id: nat) {
    && c in calls && calls[c].id == id && calls[c].sends == 0
    && !calls[c].phase.HasConn? && !calls[c].phase.HasId?
  }

  predicate MayPend(call: Call) {
    call.phase == Registered || call.phase == WriteFailed || call.phase == Waiting || call.phase == Leaving
  }

  ghost predicate PendingOk(pending: map<nat, CallId>, calls: map<CallId, Call>) {
    forall id | id in pending :: Unanswered(calls, pending[id], id) && MayPend(calls[pending[id]])
  }

  ghost predicate LoopsOk(s: State) {
    forall k, id, c {:trigger Owns(s.loops[k], id, c)} | k in s.loops && Owns(s.loops[k], id, c) ::
      Unanswered(s.calls, c, id) && !At(s.pending, id, c)
  }

  ghost predicate OwnedOnce(loops: map<ConnId, Loop>) {
    forall k, l, id, c | k in loops && l in loops && Owns(loops[k], id, c) && Owns(loops[l], id, c) :: k == l
  }

  ghost predicate ConnsOk(s: State) {
    forall k | k in s.loops :: k < s.conns && (s.loops[k].Holding? ==> s.loops[k].frame.conn == k)
  }

  /** A channel holds at most the one frame sent to it, and a call returns only that frame. */
  predicate CallOk(call: Call) {
    && call.sends <= 1
    && (call.phase.HasConn? || call.phase.HasId? ==> call.sends == 0)
    && (call.buffer.Some? ==> call.sends == 1 && call.buffer.value.id == call.id && call.result.None?)
    && (call.result.Some? ==> call.sends == 1 && call.result.value.id == call.id && call.phase == Returned)
  }

  ghost predicate CallsOk(calls: map<CallId, Call>) {
    forall c | c in calls :: CallOk(calls[c])
  }

  /** A call's channel is in one place at a time, and leaves it by being sent to. */
  ghost predicate OnePlace(s: State) {
    PendingOk(s.pending, s.calls) && LoopsOk(s) && OwnedOnce(s.loops) && ConnsOk(s) && CallsOk(s.calls)
  }


  predicate Open(call: Call) {
    call.sends == 0 && !call.phase.HasConn? && !call.phase.HasId?
  }

  /** Changing one call is harmless when it stays open wherever its channel still is. */
  lemma CallChange(s: State, c: CallId, call: Call)
    requires OnePlace(s) && CallOk(call)
    requires forall id | At(s.pending, id, c) :: call.id == id && Open(call) && MayPend(call)
    requires forall k, id | k in s.loops && Owns(s.loops[k], id, c) :: call.id == id && Open(call)
    ensures OnePlace(s.(calls := s.calls[c := call]))
  {
    var t := s.(calls := s.calls[c := call]);
    forall id | id in t.pending
      ensures Unanswered(t.calls, t.pending[id], id) && MayPend(t.calls[t.pending[id]])
    {
      assert At(s.pending, id, s.pending[id]);
    }
    forall k, id, d | k in t.loops && Owns(t.loops[k], id, d)
      ensures Unanswered(t.calls, d, id) && !At(t.pending, id, d)
    {
      assert Unanswered(s.calls, d, id) && !At(s.pending, id, d);
    }
  }

  lemma PlacedIsOpen(s: State, c: CallId)
    requires OnePlace(s)
    ensures forall id | At(s.pending, id, c) :: Unanswered(s.calls, c, id) && MayPend(s.calls[c])
    ensures forall k, id {:trigger Owns(s.loops[k], id, c)} | k in s.loops && Owns(s.loops[k], id, c) ::
              Unanswered(s.calls, c, id)
  {
  }

  lemma CallSteps(s: State, step: Step, c: CallId)
    requires OnePlace(s) && Enabled(s, step)
    requires step == ReadConn(c) || step == DrawId(c) || step == WriteOk(c) || step == WriteFail(c)
          || step == ClearConn(c) || step == Receive(c) || step == TimeOut(c)
    ensures OnePlace(Do(s, step))
  {
    PlacedIsOpen(s, c);
    var call := Do(s, step).calls[c];
    CallChange(s, c, call);
    assert OnePlace(s.(calls := s.calls[c := call]));
  }

  lemma RegisterKeeps(s: State, c: CallId)
    requires OnePlace(s) && Enabled(s, Register(c))
    ensures OnePlace(Do(s, Register(c)))
  {
  }

  lemma ForgetKeeps(s: State, step: Step, c: CallId)
    requires OnePlace(s) && Enabled(s, step) && (step == Unregister(c) || step == Leave(c))
    ensures OnePlace(Do(s, step))
  {
  }

  /** A read loop that lets go of a channel and sends to it. */
  lemma SendKeeps(s: State, k: ConnId, c: CallId, f: Frame, rest: Loop)
    requires OnePlace(s) && k in s.loops && Owns(s.loops[k], f.id, c) && !rest.Holding?
    requires forall id, d | Owns(rest, id, d) :: Owns(s.loops[k], id, d) && d != c
    ensures Room(s, c) && OnePlace(Send(s, c, f).(loops := s.loops[k := rest]))
  {
  }

  lemma SendSteps(s: State, step: Step)
    requires OnePlace(s) && Enabled(s, step) && (step.Deliver? || step.CancelOne?)
    ensures OnePlace(Do(s, step))
  {
    var loop := s.loops[step.k];
    match step
    case Deliver(k) =>
      assert Owns(loop, loop.frame.id, loop.call);
      SendKeeps(s, k, loop.call, loop.frame, Reading);
    case CancelOne(k, id) =>
      var rest := Cancelling(loop.waiters - {id});
      assert Owns(loop, id, loop.waiters[id]);
      forall j, d | Owns(rest, j, d)
        ensures Owns(loop, j, d) && d != loop.waiters[id]
      {
        assert Unanswered(s.calls, loop.waiters[id], id) && Owns(loop, j, d) && Unanswered(s.calls, d, j);
      }
      SendKeeps(s, k, loop.waiters[id], Frame(id, k, true, None), rest);
  }

  lemma TakeSteps(s: State, step: Step)
    requires OnePlace(s) && Enabled(s, step)
    requires step.ConnectOk? || step.ConnectRejected? || step.DropConn? || step.FrameIn? || step.ReadError?
        || step.LoopExit?
    ensures OnePlace(Do(s, step))
  {
  }

  lemma OnePlaceStep(s: State, step: Step)
    requires OnePlace(s) && Enabled(s, step)
    ensures OnePlace(Do(s, step))
  {
    match step
    case ReadConn(c) => CallSteps(s, step, c);
    case DrawId(c) => CallSteps(s, step, c);
    case Register(c) => RegisterKeeps(s, c);
    case WriteOk(c) => CallSteps(s, step, c);
    case WriteFail(c) => CallSteps(s, step, c);
    case Unregister(c) => ForgetKeeps(s, step, c);
    case ClearConn(c) => CallSteps(s, step, c);
    case Receive(c) => CallSteps(s, step, c);
    case TimeOut(c) => CallSteps(s, step, c);
    case Leave(c) => ForgetKeeps(s, step, c);
    case Deliver(_) => SendSteps(s, step);
    case CancelOne(_, _) => SendSteps(s, step);
    case _ => TakeSteps(s, step);
  }

  lemma {:induction false} AlwaysOnePlace(steps: seq<Step>)
    requires Runs(steps)
    ensures OnePlace(After(steps))
    decreases |steps|
  {
    if steps != [] {
      AlwaysOnePlace(steps[..|steps| - 1]);
      OnePlaceStep(After(steps[..|steps| - 1]), steps[|steps| - 1]);
    }
  }

  /** Main result: in every interleaving, a read loop that has a frame for a call can hand it over at once,
      because each call's one-slot channel is sent to at most once. */
  lemma SendsNeverBlock(steps: seq<Step>)
    requires Runs(steps)
    ensures var s := After(steps);
            && (forall c | c in s.calls :: s.calls[c].sends <= 1)
            && (forall k | k in s.loops && s.loops[k].Holding? :: Enabled(s, Deliver(k)))
            && (forall k, id | k in s.loops && s.loops[k].Cancelling? && id in s.loops[k].waiters ::
                Enabled(s, CancelOne(k, id)))
  {
    AlwaysOnePlace(steps);
    var s := After(steps);
    forall k | k in s.loops && s.loops[k].Holding?
      ensures Enabled(s, Deliver(k))
    {
      assert Owns(s.loops[k], s.loops[k].frame.id, s.loops[k].call);
    }
    forall k, id | k in s.loops && s.loops[k].Cancelling? && id in s.loops[k].waiters
      ensures Enabled(s, CancelOne(k, id))
    {
      assert Owns(s.loops[k], id, s.loops[k].waiters[id]);
    }
  }
}
