/** What the callbacks of a round do to the timer list: the deadlines that wait afterwards
    are those that waited before and those that a callback asked for. */
module EventLoopTimers {
  import opened Clock
  import opened EventLoop
  import opened TimerQueue

  /** The keys after `m` callbacks, the i-th of which does `plan(i)`. */
  function FireKeys(keys: seq<int>, plan: nat -> seq<Action>, m: nat): seq<int> {
    if m == 0 then keys else KeysAfter(FireKeys(keys, plan, m - 1), plan(m - 1))
  }

  /** They are what a round asks to be told. */
  lemma FireKeysFollow(keys: seq<int>, plan: nat -> seq<Action>)
    ensures FollowsAll((n: nat) => FireKeys(keys, plan, n), plan)
  {
  }

  lemma ArmOneHas(keys: seq<int>, arm: Arm, d: int)
    ensures d in ArmOne(keys, arm) <==> d in keys || d == Micros(arm.now) + Micros(arm.relative)
  {
    var e := Micros(arm.now) + Micros(arm.relative);
    var k := LeadingBelow(keys, e);
    assert ArmOne(keys, arm)[k] == e;
    assert keys == keys[..k] + keys[k..];
  }

  /** The action schedules a timer for `d`. */
  predicate ScheduledBy(action: Action, d: int) {
    action.Schedule? && d == Micros(action.arm.now) + Micros(action.arm.relative)
  }

  predicate Schedules(actions: seq<Action>, d: int) {
    exists i :: 0 <= i < |actions| && ScheduledBy(actions[i], d)
  }

  lemma ActionHas(before: seq<int>, action: Action, after: seq<int>, d: int)
    requires after == if action.Schedule? then ArmOne(before, action.arm) else before
    ensures d in after <==> d in before || ScheduledBy(action, d)
  {
    if action.Schedule? {
      ArmOneHas(before, action.arm, d);
    }
  }

  lemma SchedulesStep(actions: seq<Action>, n: nat, d: int)
    requires n < |actions|
    ensures Schedules(actions[..n + 1], d) <==> Schedules(actions[..n], d) || ScheduledBy(actions[n], d)
  {
    if Schedules(actions[..n], d) {
      var i :| 0 <= i < n && ScheduledBy(actions[..n][i], d);
      assert actions[..n + 1][i] == actions[i];
    }
    assert actions[..n + 1][n] == actions[n];
    if Schedules(actions[..n + 1], d) {
      var i :| 0 <= i < n + 1 && ScheduledBy(actions[..n + 1][i], d);
      assert i < n ==> actions[..n][i] == actions[i];
    }
  }

  predicate StepsBy(f: nat -> seq<int>, actions: seq<Action>, n: nat) {
    n < |actions| ==> f(n + 1) == if actions[n].Schedule? then ArmOne(f(n), actions[n].arm) else f(n)
  }

  lemma {:induction false} StepsHave(f: nat -> seq<int>, actions: seq<Action>, n: nat, d: int)
    requires n <= |actions| && forall i :: StepsBy(f, actions, i)
    ensures d in f(n) <==> d in f(0) || Schedules(actions[..n], d)
  {
    if n > 0 {
      StepsHave(f, actions, n - 1, d);
      SchedulesStep(actions, n - 1, d);
      assert StepsBy(f, actions, n - 1);
      ActionHas(f(n - 1), actions[n - 1], f(n), d);
    }
  }

  /** The keys after each number of actions. */
  function Stages(keys: seq<int>, actions: seq<Action>): nat -> seq<int> {
    (n: nat) => if n <= |actions| then KeysAfter(keys, actions[..n]) else []
  }

  lemma StagesStep(keys: seq<int>, actions: seq<Action>, n: nat)
    ensures StepsBy(Stages(keys, actions), actions, n)
  {
    if n < |actions| {
      KeysAfterStep(keys, actions, n);
    }
  }

  lemma StagesEnds(keys: seq<int>, actions: seq<Action>)
    ensures Stages(keys, actions)(0) == keys && Stages(keys, actions)(|actions|) == KeysAfter(keys, actions)
  {
    assert actions[..|actions|] == actions && actions[..0] == [];
  }

  lemma CallbackHas(keys: seq<int>, actions: seq<Action>, d: int)
    ensures d in KeysAfter(keys, actions) <==> d in keys || Schedules(actions, d)
  {
    var f := Stages(keys, actions);
    forall n ensures StepsBy(f, actions, n) {
      StagesStep(keys, actions, n);
    }
    StepsHave(f, actions, |actions|, d);
    StagesEnds(keys, actions);
    assert actions[..|actions|] == actions;
  }

  /** The deadlines that wait after `m` callbacks are those that waited before, and those
      that one of the callbacks scheduled: none is lost and none made up. */
  lemma {:induction false} CallbacksOnlyAddTheirTimers(after: nat -> seq<int>, plan: nat -> seq<Action>, m: nat, d: int)
    requires FollowsAll(after, plan)
    ensures d in after(m) <==> d in after(0) || exists n: nat :: n < m && Schedules(plan(n), d)
  {
    if m > 0 {
      var actions := plan(m - 1);
      CallbacksOnlyAddTheirTimers(after, plan, m - 1, d);
      assert Follows(after, plan, m - 1);
      CallbackHas(after(m - 1), actions, d);
    }
  }
}
