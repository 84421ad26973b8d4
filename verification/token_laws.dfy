/** How many cycles the controller can begin, and what its token and timer stand for, said by the steps taken. */
module TokenLaws {
  import opened Values
  import opened Controller

  function Count(steps: seq<Step>, which: Step -> bool): nat {
    if steps == [] then 0
    else Count(steps[..|steps| - 1], which) + if which(steps[|steps| - 1]) then 1 else 0
  }

  const TRIGGERS: Step -> bool := step => step == Trigger
  const FIRES: Step -> bool := step => step == TimerFires
  const CALLBACKS: Step -> bool := step => step == CallbackSends
  const WAITS: Step -> bool := (step: Step) => step.SendToken?
  /** A send into the token's slot, by a timer callback or a waiting call. */
  const SENDS: Step -> bool := (step: Step) => step == CallbackSends || step.SendToken?
  const TAKES: Step -> bool := step => step == TakeToken
  const TICKS: Step -> bool := step => step == Tick
  const FIRSTS: Step -> bool := step => step == FirstCycle

  /** Such a step was taken, and the other one not since. */
  ghost predicate Since(steps: seq<Step>, such: Step -> bool, other: Step -> bool) {
    exists i :: 0 <= i < |steps| && such(steps[i]) && forall j | i < j < |steps| :: !other(steps[j])
  }

  lemma SinceStep(steps: seq<Step>, such: Step -> bool, other: Step -> bool)
    requires steps != [] && forall step :: !(such(step) && other(step))
    ensures var before, last := steps[..|steps| - 1], steps[|steps| - 1];
            Since(steps, such, other) <==> such(last) || (Since(before, such, other) && !other(last))
  {
    var n := |steps| - 1;
    var before := steps[..n];
    if such(steps[n]) {
      assert Since(steps, such, other);
    }
    if Since(before, such, other) && !other(steps[n]) {
      var i :| 0 <= i < n && such(before[i]) && forall j | i < j < n :: !other(before[j]);
      assert forall j | i < j < n :: steps[j] == before[j];
      assert such(steps[i]);
    }
    if Since(steps, such, other) && !such(steps[n]) {
      var i :| 0 <= i <= n && such(steps[i]) && forall j | i < j <= n :: !other(steps[j]);
      assert forall j | i < j < n :: steps[j] == before[j];
      assert such(before[i]);
    }
  }

  /** Main result on the slot: after any run it is full exactly if something was sent into it since it was last taken
      from. */
  lemma {:induction false} TokenIff(steps: seq<Step>)
    requires Runs(steps)
    ensures After(steps).token <==> Since(steps, SENDS, TAKES)
  {
    if steps != [] {
      TokenIff(steps[..|steps| - 1]);
      SinceStep(steps, SENDS, TAKES);
      TokenStep(After(steps[..|steps| - 1]), steps[|steps| - 1]);
    }
  }

  lemma TokenStep(s: State, step: Step)
    requires Enabled(s, step)
    ensures Do(s, step).token <==> SENDS(step) || (s.token && !TAKES(step))
    ensures TAKES(step) ==> s.token
  {
  }

  /** And the timer runs exactly if it was started since it last went off. */
  lemma {:induction false} TimerIff(steps: seq<Step>)
    requires Runs(steps)
    ensures After(steps).armed <==> Since(steps, TRIGGERS, FIRES)
  {
    if steps != [] {
      TimerIff(steps[..|steps| - 1]);
      SinceStep(steps, TRIGGERS, FIRES);
      TimerStep(After(steps[..|steps| - 1]), steps[|steps| - 1]);
    }
  }

  lemma TimerStep(s: State, step: Step)
    requires Enabled(s, step)
    ensures Do(s, step).armed <==> TRIGGERS(step) || (s.armed && !FIRES(step))
    ensures FIRES(step) ==> s.armed
    ensures Do(s, step).fired == s.fired + (if FIRES(step) then 1 else 0) - (if CALLBACKS(step) then 1 else 0)
  {
  }

  lemma CycleStep(s: State, step: Step)
    requires Enabled(s, step)
    ensures Do(s, step).cycles == s.cycles + if FIRSTS(step) || TICKS(step) || TAKES(step) then 1 else 0
    ensures Do(s, step).loop.NotStarted? <==> s.loop.NotStarted? && !FIRSTS(step)
    ensures FIRSTS(step) ==> s.loop.NotStarted?
  {
  }

  /** A token is taken once. */
  lemma {:induction false} TokensAreSpent(steps: seq<Step>)
    requires Runs(steps)
    ensures Count(steps, TAKES) + (if After(steps).token then 1 else 0) <= Count(steps, SENDS)
  {
    if steps != [] {
      TokensAreSpent(steps[..|steps| - 1]);
      TokenStep(After(steps[..|steps| - 1]), steps[|steps| - 1]);
    }
  }

  /** A timer goes off once, and its callback sends once. */
  lemma {:induction false} TimersAreSpent(steps: seq<Step>)
    requires Runs(steps)
    ensures Count(steps, CALLBACKS) + After(steps).fired == Count(steps, FIRES)
    ensures Count(steps, FIRES) + (if After(steps).armed then 1 else 0) <= Count(steps, TRIGGERS)
  {
    if steps != [] {
      TimersAreSpent(steps[..|steps| - 1]);
      TimerStep(After(steps[..|steps| - 1]), steps[|steps| - 1]);
    }
  }

  lemma {:induction false} CyclesAreCounted(steps: seq<Step>)
    requires Runs(steps)
    ensures After(steps).cycles == Count(steps, FIRSTS) + Count(steps, TICKS) + Count(steps, TAKES)
    ensures Count(steps, FIRSTS) == if After(steps).loop.NotStarted? then 0 else 1
  {
    if steps != [] {
      CyclesAreCounted(steps[..|steps| - 1]);
      CycleStep(After(steps[..|steps| - 1]), steps[|steps| - 1]);
    }
  }

  lemma {:induction false} SendsAreCounted(steps: seq<Step>)
    ensures Count(steps, SENDS) == Count(steps, CALLBACKS) + Count(steps, WAITS)
  {
    if steps != [] {
      SendsAreCounted(steps[..|steps| - 1]);
    }
  }

  /** Main result on cycles: in any run there are at most the first one, one for each tick, one for each trigger and one
      for each call that waits. */
  lemma CyclesAreBounded(steps: seq<Step>)
    requires Runs(steps)
    ensures After(steps).cycles <= 1 + Count(steps, TICKS) + Count(steps, TRIGGERS) + Count(steps, WAITS)
  {
    TokensAreSpent(steps);
    TimersAreSpent(steps);
    CyclesAreCounted(steps);
    SendsAreCounted(steps);
  }
}
