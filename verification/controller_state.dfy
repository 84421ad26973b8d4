/** The controller's code over its shared fields, against the state machine. */
module ControllerState {
  import opened Values
  import opened Controller

  /** What notifyWaiters leaves: each listed waiter has been sent the result of the cycle, once, and nothing else is
      different but the emptied list and the idle loop. */
  ghost predicate Notified(s: State, t: State) {
    && t == s.(waiters := [], loop := Idle, calls := t.calls) && t.calls.Keys == s.calls.Keys
    && forall w | w in s.calls ::
         t.calls[w] == if w in s.waiters then s.calls[w].(buffer := Some(s.cycles), sends := 1) else s.calls[w]
  }

  /** The sends have come this far down the list. */
  ghost predicate NotifiedUpTo(s: State, t: State, rest: seq<WaiterId>) {
    && t == s.(waiters := [], loop := Notifying(rest), calls := t.calls) && t.calls.Keys == s.calls.Keys
    && (forall w | w in rest :: w in s.waiters)
    && forall w | w in s.calls ::
         t.calls[w] == if w in s.waiters && w !in rest then s.calls[w].(buffer := Some(s.cycles), sends := 1)
                       else s.calls[w]
  }

  lemma NotifyOneMore(s: State, t: State, rest: seq<WaiterId>)
    requires Inv(s) && NotifiedUpTo(s, t, rest) && rest != [] && NoRepeats(rest)
    ensures Enabled(t, Notify) && NotifiedUpTo(s, Do(t, Notify), rest[1..]) && NoRepeats(rest[1..])
  {
    ListedIsFresh(s, rest[0]);
    HeadApart(rest);
  }

  lemma ListedIsFresh(s: State, w: WaiterId)
    requires Inv(s) && w in s.waiters
    ensures w in s.calls && s.calls[w].buffer.None? && s.calls[w].sends == 0
  {
    assert w in s.calls && CallOk(s.calls[w]);
  }

  lemma HeadApart(ws: seq<WaiterId>)
    requires ws != [] && NoRepeats(ws)
    ensures ws[0] !in ws[1..] && NoRepeats(ws[1..]) && forall x :: x in ws <==> x == ws[0] || x in ws[1..]
  {
  }

  /** The controller's shared fields, with the waiter list in an array of its own, and the debounce timer: the last one
      made, and those that run.  Each method is one critical section or channel operation, or a sequence of such, and
      takes the fields where the steps of the same moments take the state. */
  class SharedState {
    var list: array<WaiterId>
    var count: nat
    var token: bool
    var timer: Option<nat>
    var ticking: set<nat>
    var made: nat

    ghost predicate Shows(s: State)
      reads this, list
    {
      && count <= list.Length && s.waiters == list[..count] && s.token == token
      && (s.armed <==> ticking != {}) && ticking <= (if timer.Some? then {timer.value} else {})
    }

    constructor ()
      ensures Shows(START) && fresh(list)
    {
      list := new WaiterId[0];
      count := 0;
      token, timer, ticking, made := false, None, {}, 0;
    }

    /** Trigger: stops the timer if there is one and starts a new one, so that never two run. */
    method Trigger(ghost s: State)
      requires Shows(s)
      modifies this
      ensures list == old(list) && Shows(Do(s, Step.Trigger)) && |ticking| == 1
    {
      if timer.Some? {
        ticking := ticking - {timer.value};
      }
      timer, ticking, made := Some(made), ticking + {made}, made + 1;
    }

    /** The timer goes off: its callback is on the way. */
    method Fire(ghost s: State, id: nat)
      requires Shows(s) && id in ticking
      modifies this
      ensures list == old(list) && Enabled(s, TimerFires) && Shows(Do(s, TimerFires))
    {
      ticking := ticking - {id};
    }

    /** The send with a default branch: fills the one slot, or finds it full. */
    method TrySend(ghost s: State, step: Step)
      requires Shows(s) && Enabled(s, step) && (step.CallbackSends? || step.SendToken?)
      modifies this
      ensures list == old(list) && Shows(Do(s, step))
    {
      if !token {
        token := true;
      }
    }

    /** TriggerAndWait up to its wait: the waiter is on the list and a token is queued. */
    method StartWait(ghost s: State, w: WaiterId) returns (ghost t: State)
      requires Shows(s) && w !in s.calls
      modifies this, list
      ensures Shows(t) && (list == old(list) || fresh(list))
      ensures t.waiters == s.waiters + [w] && t.token && In(t, w, Waiting) && t.calls[w].buffer.None?
      ensures t.loop == s.loop && t.cycles == s.cycles && t.armed == s.armed
      ensures t == Do(Do(s, Enlist(w)), SendToken(w)) && t.calls.Keys - {w} == s.calls.Keys
      ensures forall x | x in s.calls :: t.calls[x] == s.calls[x]
    {
      AddWaiter(s, w);
      t := Do(s, Enlist(w));
      TrySend(t, SendToken(w));
      t := Do(t, SendToken(w));
    }

    /** The other end of TriggerAndWait when its context is done: the waiter leaves the list, unless it has been taken
        off already, and nobody else does. */
    method GiveUpWait(ghost s: State, w: WaiterId) returns (ghost t: State)
      requires Shows(s) && In(s, w, Waiting)
      modifies this, list
      ensures Shows(t) && list == old(list)
      ensures t == SetPhase(s, w, Returned(None)).(waiters := Without(s.waiters, w))
    {
      t := Do(s, TimeOut(w));
      RemoveWaiter(t, w);
      t := Do(t, Leave(w));
    }

    /** notifyWaiters, called by a cycle at its end. */
    method NotifyWaiters(ghost s: State) returns (ghost t: State)
      requires Shows(s) && Inv(s) && s.loop.Running?
      modifies this
      ensures Shows(t) && Notified(s, t) && fresh(list)
    {
      var waiters := TakeWaiters(s);
      t := Do(s, Swap);
      for i := 0 to |waiters|
        invariant Shows(t) && fresh(list) && NotifiedUpTo(s, t, waiters[i..]) && NoRepeats(waiters[i..])
      {
        assert waiters[i..][1..] == waiters[i + 1..];
        NotifyOneMore(s, t, waiters[i..]);
        t := Do(t, Notify);
      }
      t := Do(t, Finish);
    }

    /** The append to the waiter list, into a larger array when it is full. */
    method AddWaiter(ghost s: State, w: WaiterId)
      requires Shows(s) && Enabled(s, Enlist(w))
      modifies this, list
      ensures Shows(Do(s, Enlist(w))) && (list == old(list) || fresh(list))
    {
      if count == list.Length {
        var larger := new WaiterId[2 * count + 1];
        forall i | 0 <= i < count {
          larger[i] := list[i];
        }
        assert larger[..count] == list[..count];
        list := larger;
      }
      list[count] := w;
      count := count + 1;
      assert list[..count] == list[..count - 1] + [w];
    }

    /** The removal of a timed-out waiter, in place. */
    method RemoveWaiter(ghost s: State, w: WaiterId)
      requires Shows(s) && Enabled(s, Leave(w))
      modifies this, list
      ensures list == old(list) && Shows(Do(s, Leave(w)))
    {
      count := Filter(list, count, w);
    }

    /** The swap of notifyWaiters. */
    method TakeWaiters(ghost s: State) returns (waiters: seq<WaiterId>)
      requires Shows(s) && Enabled(s, Swap)
      modifies this
      ensures Shows(Do(s, Swap)) && Do(s, Swap).loop == Notifying(waiters) && fresh(list)
    {
      waiters := list[..count];
      list := new WaiterId[0];
      count := 0;
    }
  }

  /** Keeps what is not w, over the list's own storage. */
  method Filter(waiters: array<WaiterId>, n: nat, w: WaiterId) returns (m: nat)
    requires n <= waiters.Length
    modifies waiters
    ensures m <= n && waiters[..m] == Without(old(waiters[..n]), w)
    ensures waiters[n..] == old(waiters[n..])
  {
    m := 0;
    for i := 0 to n
      invariant m <= i
      invariant waiters[i..] == old(waiters[i..])
      invariant waiters[..m] == Without(old(waiters[..i]), w)
    {
      assert old(waiters[..i + 1])[..i] == old(waiters[..i]);
      assert waiters[i] == waiters[i..][0] == old(waiters[i..])[0];
      if waiters[i] != w {
        waiters[m] := waiters[i];
        m := m + 1;
      }
    }
  }
}
