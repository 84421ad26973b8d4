/** The controller's trigger, debounce and waiter handshake as a state machine.  Each step is one critical section
    or channel operation; steps of callers, timers and the reconcile loop interleave freely. */
module Controller {
  import opened Values

  type WaiterId = nat

  /** Where a TriggerAndWait call stands after it has put its channel on the list. */
  datatype Phase = Enlisted | Waiting | Leaving | Returned(result: Option<nat>)

  /** A waiter: the number of cycles begun when it enlisted, whether one was then running with the list not yet
      swapped, its one-slot channel (which carries the number of the cycle reported) and how often that was sent to. */
  datatype Waiter = Waiter(phase: Phase, begun: nat, during: bool, buffer: Option<nat>, sends: nat)

  /** The loop: before its first cycle, reconciling, sending a result to the swapped list, in its select, or stopped. */
  datatype Loop = NotStarted | Running | Notifying(list: seq<WaiterId>) | Idle | Stopped

  /** The controller: waiter list, queued token, debounce timer, timer callbacks that have fired but not sent, loop,
      cycles begun, waiters.  `unserved` says that Trigger was called after the last cycle began. */
  datatype State = State(waiters: seq<WaiterId>, token: bool, armed: bool, fired: nat, loop: Loop, cycles: nat,
                         calls: map<WaiterId, Waiter>, unserved: bool)

  datatype Step =
    | Trigger | TimerFires | CallbackSends
    | Enlist(w: WaiterId) | SendToken(w: WaiterId) | Receive(w: WaiterId) | TimeOut(w: WaiterId) | Leave(w: WaiterId)
    | FirstCycle | Tick | TakeToken | Swap | Notify | Finish | Stop

  const START := State([], false, false, 0, NotStarted, 0, map[], false)

  function Without(ws: seq<WaiterId>, w: WaiterId): (r: seq<WaiterId>)
    ensures |r| <= |ws| && forall x :: x in r <==> x in ws && x != w
  {
    if ws == [] then []
    else
      var last := ws[|ws| - 1];
      var before := Without(ws[..|ws| - 1], w);
      assert ws == ws[..|ws| - 1] + [last];
      if last == w then before else before + [last]
  }

  predicate In(s: State, w: WaiterId, phase: Phase) {
    w in s.calls && s.calls[w].phase == phase
  }

  predicate Enabled(s: State, step: Step) {
    match step
    case Trigger => true
    case TimerFires => s.armed
    case CallbackSends => s.fired > 0
    case Enlist(w) => w !in s.calls
    case SendToken(w) => In(s, w, Enlisted)
    case Receive(w) => In(s, w, Waiting) && s.calls[w].buffer.Some?
    case TimeOut(w) => In(s, w, Waiting)
    case Leave(w) => In(s, w, Leaving)
    case FirstCycle => s.loop.NotStarted?
    case Tick => s.loop.Idle?
    case TakeToken => s.loop.Idle? && s.token
    case Swap => s.loop.Running?
    case Notify =>
      s.loop.Notifying? && s.loop.list != [] && s.loop.list[0] in s.calls && s.calls[s.loop.list[0]].buffer.None?
    case Finish => s.loop.Notifying? && s.loop.list == []
    case Stop => s.loop.Idle?
  }

  function SetPhase(s: State, w: WaiterId, phase: Phase): State
    requires w in s.calls
  {
    s.(calls := s.calls[w := s.calls[w].(phase := phase)])
  }

  function BeginCycle(s: State): State {
    s.(loop := Running, cycles := s.cycles + 1, unserved := false)
  }

  function Do(s: State, step: Step): State
    requires Enabled(s, step)
  {
    match step
    case Trigger => s.(armed := true, unserved := true)
    case TimerFires => s.(armed := false, fired := s.fired + 1)
    case CallbackSends => s.(fired := s.fired - 1, token := true)
    case Enlist(w) =>
      s.(waiters := s.waiters + [w],
         calls := s.calls[w := Waiter(Enlisted, s.cycles, s.loop.Running?, None, 0)])
    case SendToken(w) => SetPhase(s, w, Waiting).(token := true)
    case Receive(w) =>
      s.(calls := s.calls[w := s.calls[w].(phase := Returned(s.calls[w].buffer), buffer := None)])
    case TimeOut(w) => SetPhase(s, w, Leaving)
    case Leave(w) => SetPhase(s, w, Returned(None)).(waiters := Without(s.waiters, w))
    case FirstCycle => BeginCycle(s)
    case Tick => BeginCycle(s)
    case TakeToken => BeginCycle(s).(token := false)
    case Swap => s.(loop := Notifying(s.waiters), waiters := [])
    case Notify =>
      var w := s.loop.list[0];
      s.(loop := Notifying(s.loop.list[1..]),
         calls := s.calls[w := s.calls[w].(buffer := Some(s.cycles), sends := s.calls[w].sends + 1)])
    case Finish => s.(loop := Idle)
    case Stop => s.(loop := Stopped)
  }

  /** `steps` can be taken one after the other from the start. */
  predicate Runs(steps: seq<Step>)
    decreases |steps|, 0
  {
    steps == [] || (Runs(steps[..|steps| - 1]) && Enabled(After(steps[..|steps| - 1]), steps[|steps| - 1]))
  }

  function After(steps: seq<Step>): State
    requires Runs(steps)
    decreases |steps|, 1
  {
    if steps == [] then START else Do(After(steps[..|steps| - 1]), steps[|steps| - 1])
  }

  ghost predicate NoRepeats(ws: seq<WaiterId>) {
    forall i, j | 0 <= i < j < |ws| :: ws[i] != ws[j]
  }

  /** The channels the loop has swapped out and has yet to send to. */
  function Swapped(loop: Loop): seq<WaiterId> {
    if loop.Notifying? then loop.list else []
  }

  /** The cycle whose result a waiter is to get: the one whose swap comes first after it enlisted. */
  function Due(w: Waiter): nat {
    if w.during then w.begun else w.begun + 1
  }

  /** A channel is on the list or swapped out, in one place, until it is sent to; a call that waits is in one of them.
      */
  ghost predicate ListsOk(s: State) {
    && NoRepeats(s.waiters) && NoRepeats(Swapped(s.loop))
    && (forall w | w in s.waiters ::
          w !in Swapped(s.loop) && w in s.calls && s.calls[w].sends == 0 && !s.calls[w].phase.Returned?)
    && (forall w | w in Swapped(s.loop) :: w in s.calls && s.calls[w].sends == 0)
    && (forall w | w in s.calls && !s.calls[w].phase.Returned? && s.calls[w].sends == 0 ::
          w in s.waiters || w in Swapped(s.loop))
  }

  predicate CallOk(w: Waiter) {
    && w.sends <= 1
    && (w.buffer.Some? ==> w.sends == 1 && w.buffer == Some(Due(w)) && (w.phase.Returned? ==> w.phase.result.None?))
    && (w.phase.Returned? && w.phase.result.Some? ==> w.sends == 1 && w.phase.result == Some(Due(w)))
  }

  ghost predicate CallsOk(s: State) {
    forall w | w in s.calls :: CallOk(s.calls[w])
  }

  ghost predicate DueOk(s: State) {
    && (forall w | w in s.waiters && w in s.calls ::
        Due(s.calls[w]) == if s.loop.Running? then s.cycles else s.cycles + 1)
    && (forall w | w in Swapped(s.loop) && w in s.calls :: Due(s.calls[w]) == s.cycles)
  }

  /** A listed waiter that has made its trigger attempt is covered by a token or by a cycle yet to swap. */
  ghost predicate Covered(s: State) {
    forall w | w in s.waiters && w in s.calls && !s.calls[w].phase.Enlisted? :: s.token || s.loop.Running?
  }

  ghost predicate Served(s: State) {
    s.unserved ==> s.armed || s.fired > 0 || s.token
  }

  ghost predicate Inv(s: State) {
    ListsOk(s) && CallsOk(s) && DueOk(s) && Covered(s) && Served(s)
  }

  lemma ListsStep(s: State, step: Step)
    requires ListsOk(s) && CallsOk(s) && Enabled(s, step)
    ensures ListsOk(Do(s, step))
  {
    match step
    case Leave(w) => WithoutKeepsOrder(s.waiters, w);
    case Notify => NotifyLists(s);
    case _ =>
  }

  lemma NotifyLists(s: State)
    requires ListsOk(s) && CallsOk(s) && Enabled(s, Notify)
    ensures ListsOk(Do(s, Notify))
  {
  }

  lemma {:induction false} WithoutKeepsOrder(ws: seq<WaiterId>, w: WaiterId)
    requires NoRepeats(ws)
    ensures NoRepeats(Without(ws, w))
  {
    if ws != [] {
      var last := ws[|ws| - 1];
      WithoutKeepsOrder(ws[..|ws| - 1], w);
      assert forall i | 0 <= i < |ws| - 1 :: ws[i] == ws[..|ws| - 1][i];
      assert last !in Without(ws[..|ws| - 1], w);
    }
  }

  lemma CallsStep(s: State, step: Step)
    requires ListsOk(s) && CallsOk(s) && DueOk(s) && Enabled(s, step)
    ensures CallsOk(Do(s, step))
  {
  }

  lemma DueStep(s: State, step: Step)
    requires ListsOk(s) && DueOk(s) && Enabled(s, step)
    ensures DueOk(Do(s, step))
  {
  }

  lemma CoverStep(s: State, step: Step)
    requires ListsOk(s) && Covered(s) && Served(s) && Enabled(s, step)
    ensures Covered(Do(s, step)) && Served(Do(s, step))
  {
  }

  lemma InvStep(s: State, step: Step)
    requires Inv(s) && Enabled(s, step)
    ensures Inv(Do(s, step))
  {
    ListsStep(s, step);
    CallsStep(s, step);
    DueStep(s, step);
    CoverStep(s, step);
  }

  lemma {:induction false} AlwaysInv(steps: seq<Step>)
    requires Runs(steps)
    ensures Inv(After(steps))
    decreases |steps|
  {
    if steps != [] {
      var before := steps[..|steps| - 1];
      AlwaysInv(before);
      InvStep(After(before), steps[|steps| - 1]);
    }
  }

  /** Main result: no wakeup is lost.  A waiter past its trigger attempt that is still on the list has a token queued
      or a cycle running that has not swapped the list; one that is on no list has been sent its result; and an unserved
      Trigger has its timer armed, a callback about to send, or a token queued. */
  lemma NoLostWakeup(steps: seq<Step>)
    requires Runs(steps)
    ensures var s := After(steps);
            && (forall w | w in s.waiters :: w in s.calls && (s.calls[w].phase.Enlisted? || s.token || s.loop.Running?))
            && (forall w | w in s.calls && s.calls[w].phase.Waiting? ::
                  w in s.waiters || w in Swapped(s.loop) || s.calls[w].sends == 1)
            && (s.unserved ==> s.armed || s.fired > 0 || s.token)
  {
    AlwaysInv(steps);
  }

  /** Main result: each waiter is sent at most one result, and a send never blocks. */
  lemma OneResultEach(steps: seq<Step>)
    requires Runs(steps)
    ensures var s := After(steps);
            && (forall w | w in s.calls :: s.calls[w].sends <= 1)
            && (s.loop.Notifying? ==> Enabled(s, if s.loop.list == [] then Finish else Notify))
  {
    AlwaysInv(steps);
    var s := After(steps);
    assert forall w | w in s.calls :: CallOk(s.calls[w]);
    if s.loop.Notifying? && s.loop.list != [] {
      assert s.loop.list[0] in Swapped(s.loop);
    }
  }

  function IndexOf(ws: seq<WaiterId>, w: WaiterId): (i: nat)
    requires w in ws
    ensures i < |ws| && ws[i] == w
  {
    var before := ws[..|ws| - 1];
    assert ws == before + [ws[|ws| - 1]];
    if w in before then IndexOf(before, w) else |ws| - 1
  }

  lemma {:induction false} IndexAfterRemoval(ws: seq<WaiterId>, x: WaiterId, w: WaiterId)
    requires w in ws && w != x
    ensures w in Without(ws, x) && IndexOf(Without(ws, x), w) <= IndexOf(ws, w)
  {
    var before := ws[..|ws| - 1];
    assert ws == before + [ws[|ws| - 1]];
    if w in before {
      IndexAfterRemoval(before, x, w);
      var r := Without(before, x);
      assert (r + [ws[|ws| - 1]])[..|r|] == r;
    }
  }

  lemma UniqueIndex(ws: seq<WaiterId>, w: WaiterId, i: nat)
    requires NoRepeats(ws) && i < |ws| && ws[i] == w
    ensures IndexOf(ws, w) == i
  {
  }

  predicate Listed(s: State, w: WaiterId) {
    w in s.waiters || w in Swapped(s.loop)
  }

  /** How many steps of the loop a waiter still has to see, at most. */
  function Rank(s: State, w: WaiterId): nat
    requires Listed(s, w)
  {
    if w in Swapped(s.loop) then IndexOf(Swapped(s.loop), w) + 1
    else IndexOf(s.waiters, w) + 2 + match s.loop
      case Running => 0
      case Notifying(list) => |list| + 2
      case _ => 1
  }

  predicate OfLoop(step: Step) {
    step.FirstCycle? || step.Tick? || step.TakeToken? || step.Swap? || step.Notify? || step.Finish?
  }

  predicate Unheard(s: State, w: WaiterId) {
    w in s.calls && !s.calls[w].phase.Returned? && s.calls[w].sends == 0
  }

  /** While a waiter waits, the loop has a step to take unless it has been stopped. */
  lemma LoopCanStep(s: State, w: WaiterId) returns (step: Step)
    requires Inv(s) && Unheard(s, w) && !s.calls[w].phase.Enlisted? && !s.loop.Stopped?
    ensures OfLoop(step) && Enabled(s, step)
  {
    match s.loop
    case NotStarted => step := FirstCycle;
    case Running => step := Swap;
    case Idle => step := TakeToken;
    case Notifying(list) =>
      step := if list == [] then Finish else Notify;
      assert list != [] ==> list[0] in Swapped(s.loop);
      assert list != [] ==> CallOk(s.calls[list[0]]);
  }

  /** Every step of the loop brings an unheard waiter closer, whichever branch its select takes. */
  lemma LoopStepHelps(s: State, step: Step, w: WaiterId)
    requires Inv(s) && Enabled(s, step) && OfLoop(step) && Unheard(s, w)
    requires Unheard(Do(s, step), w)
    ensures Listed(s, w) && Listed(Do(s, step), w) && Rank(Do(s, step), w) < Rank(s, w)
  {
    InvStep(s, step);
    if step.Notify? && w in Swapped(s.loop) {
      var i := IndexOf(s.loop.list, w);
      assert s.loop.list[1..][i - 1] == w;
      UniqueIndex(s.loop.list[1..], w, i - 1);
    }
  }

  lemma OtherStepHarmless(s: State, step: Step, w: WaiterId)
    requires Inv(s) && Enabled(s, step) && !OfLoop(step) && Unheard(s, w)
    requires Unheard(Do(s, step), w)
    ensures Listed(s, w) && Listed(Do(s, step), w) && Rank(Do(s, step), w) <= Rank(s, w)
  {
    InvStep(s, step);
    if w in s.waiters {
      match step
      case Enlist(x) => assert (s.waiters + [x])[..|s.waiters|] == s.waiters;
      case Leave(x) => IndexAfterRemoval(s.waiters, x, w);
      case _ =>
    }
  }

  function LoopSteps(steps: seq<Step>): nat {
    if steps == [] then 0
    else LoopSteps(steps[..|steps| - 1]) + if OfLoop(steps[|steps| - 1]) then 1 else 0
  }

  lemma LastStepCounts(steps: seq<Step>, n: nat)
    requires n < |steps|
    ensures LoopSteps(steps[n..]) == LoopSteps(steps[..|steps| - 1][n..]) + if OfLoop(steps[|steps| - 1]) then 1 else 0
  {
    var rest := steps[n..];
    assert rest[..|rest| - 1] == steps[..|steps| - 1][n..];
  }

  lemma {:induction false} RunsPrefix(steps: seq<Step>, n: nat)
    requires Runs(steps) && n <= |steps|
    ensures Runs(steps[..n])
    decreases |steps|
  {
    if n < |steps| {
      var before := steps[..|steps| - 1];
      assert before[..n] == steps[..n];
      RunsPrefix(before, n);
    } else {
      assert steps[..n] == steps;
    }
  }

  lemma StaysUnheard(s: State, step: Step, w: WaiterId)
    requires Enabled(s, step) && w in s.calls && Unheard(Do(s, step), w)
    ensures Unheard(s, w)
  {
  }

  lemma CallKept(s: State, step: Step, w: WaiterId)
    requires Enabled(s, step) && w in s.calls
    ensures var t := Do(s, step);
            w in t.calls && t.calls[w].begun == s.calls[w].begun && t.calls[w].during == s.calls[w].during
  {
  }

  /** Main result: a waiter that has neither been sent a result nor given up has seen at most Rank steps of the loop,
      however the steps of everybody else are mixed in. */
  lemma {:induction false} BoundedWait(steps: seq<Step>, n: nat, w: WaiterId)
    requires Runs(steps) && n <= |steps|
    requires Runs(steps[..n]) && w in After(steps[..n]).calls && Unheard(After(steps), w)
    ensures Unheard(After(steps[..n]), w) && Listed(After(steps[..n]), w) && Listed(After(steps), w)
    ensures LoopSteps(steps[n..]) + Rank(After(steps), w) <= Rank(After(steps[..n]), w)
    decreases |steps|
  {
    AlwaysInv(steps);
    if n == |steps| {
      assert steps[..n] == steps;
    } else {
      var before, step := steps[..|steps| - 1], steps[|steps| - 1];
      assert before[..n] == steps[..n];
      LastStepCounts(steps, n);
      CallsPersist(before, n, w);
      StaysUnheard(After(before), step, w);
      BoundedWait(before, n, w);
      AlwaysInv(before);
      if OfLoop(step) {
        LoopStepHelps(After(before), step, w);
      } else {
        OtherStepHarmless(After(before), step, w);
      }
    }
  }

  lemma {:induction false} CallsPersist(steps: seq<Step>, n: nat, w: WaiterId)
    requires Runs(steps) && n <= |steps| && Runs(steps[..n]) && w in After(steps[..n]).calls
    ensures var early, late := After(steps[..n]).calls, After(steps).calls;
            w in late && late[w].begun == early[w].begun && late[w].during == early[w].during
    decreases |steps|
  {
    if n == |steps| {
      assert steps[..n] == steps;
    } else {
      var before := steps[..|steps| - 1];
      assert before[..n] == steps[..n];
      CallsPersist(before, n, w);
      CallKept(After(before), steps[|steps| - 1], w);
    }
  }

  /** Main result: which cycle a waiter hears about.  If it enlisted while a cycle was running and had not swapped the
      list, it gets that cycle's result, otherwise the next cycle's. */
  lemma ResultIsFirstSwap(steps: seq<Step>, n: nat, w: WaiterId, r: nat)
    requires Runs(steps) && n < |steps| && Runs(steps[..n]) && steps[n] == Enlist(w)
    requires In(After(steps), w, Returned(Some(r)))
    ensures var s := After(steps[..n]);
            r == if s.loop.Running? then s.cycles else s.cycles + 1
  {
    RunsPrefix(steps, n + 1);
    EnlistRecords(steps, n, w);
    CallsPersist(steps, n + 1, w);
    AlwaysInv(steps);
    assert CallOk(After(steps).calls[w]);
  }

  lemma EnlistRecords(steps: seq<Step>, n: nat, w: WaiterId)
    requires n < |steps| && Runs(steps[..n + 1]) && Runs(steps[..n]) && steps[n] == Enlist(w)
    ensures var s, t := After(steps[..n]), After(steps[..n + 1]);
            w in t.calls && t.calls[w].begun == s.cycles && t.calls[w].during == s.loop.Running?
  {
    var upTo := steps[..n + 1];
    assert upTo[..|upTo| - 1] == steps[..n];
  }

  lemma Take(steps: seq<Step>, step: Step) returns (more: seq<Step>)
    requires Runs(steps) && Enabled(After(steps), step)
    ensures more == steps + [step] && Runs(more) && After(more) == Do(After(steps), step)
  {
    more := steps + [step];
    assert more[..|more| - 1] == steps;
  }

  /** So the result may be that of a cycle begun before the call was made, which need not have seen
      what the caller wants reconciled. */
  lemma ResultCanBeStale()
    ensures exists steps, n: nat, w, r: nat ::
              && Runs(steps) && n < |steps| && Runs(steps[..n]) && steps[n] == Enlist(w)
              && In(After(steps), w, Returned(Some(r))) && r <= After(steps[..n]).cycles
  {
    var first := Take([], FirstCycle);
    var enlisted := Take(first, Enlist(0));
    assert enlisted[..1] == first && enlisted[1] == Enlist(0);
    var steps := Hear(enlisted);
    assert steps[..1] == enlisted[..1] && steps[1] == enlisted[1];
    assert In(After(steps), 0, Returned(Some(1)));
  }

  lemma Hear(steps: seq<Step>) returns (more: seq<Step>)
    requires Runs(steps)
    requires After(steps) == State([0], false, false, 0, Running, 1, map[0 := Waiter(Enlisted, 1, true, None, 0)],
        false)
    ensures Runs(more) && steps <= more && In(After(more), 0, Returned(Some(1)))
  {
    more := Take(steps, SendToken(0));
    more := Take(more, Swap);
    more := Take(more, Notify);
    more := Take(more, Receive(0));
  }
}
