/**
 * danogl.components.ScheduledTask: a component that accumulates elapsed time
 * and runs its task once the wait time has passed, either once (then it
 * removes itself from its object) or repeatedly (then it starts counting
 * again from zero).
 */
module ScheduledTasks {
  import opened Wrappers
  import DL = DeferredList
  import CL = ComponentLists

  datatype ScheduledTask = ScheduledTask(waitTime: real, repeat: bool, timePassed: real)

  /**
   * The constructor: `NullPointerException` for a null object or task;
   * otherwise no time has passed and the task is queued as a component of
   * the object, with id `id`.
   */
  function Create(components: Option<Option<DL.ModList<CL.ComponentId>>>, id: CL.ComponentId,
                  waitTime: real, repeat: bool, hasTask: bool): (r: Result<(ScheduledTask, DL.ModList<CL.ComponentId>)>)
    ensures r.Err? <==> components.None? || !hasTask
    ensures r.Err? ==> r.error == NullPointer
    ensures r.Ok? ==> r.value.0 == ScheduledTask(waitTime, repeat, 0.0)
                      && r.value.1 == CL.AddComponent(components.value, id)
  {
    if components.None? || !hasTask then Err(NullPointer)
    else Ok((ScheduledTask(waitTime, repeat, 0.0), CL.AddComponent(components.value, id)))
  }

  /** `reset`: count from now. */
  function Reset(task: ScheduledTask): (r: ScheduledTask)
    ensures r.timePassed == 0.0 && r.waitTime == task.waitTime && r.repeat == task.repeat
  {
    task.(timePassed := 0.0)
  }

  /** What an update did: whether the task ran, and whether the component asked to be removed. */
  datatype Effects = Effects(ran: bool, removeSelf: bool)

  /**
   * `update(dt)`: add dt to the elapsed time; once it reaches the wait time,
   * run the task, then restart the count (repeating) or ask to be removed
   * (one-shot).
   */
  function Update(task: ScheduledTask, dt: real): (r: (ScheduledTask, Effects))
    ensures r.1.ran <==> task.timePassed + dt >= task.waitTime
    ensures r.1.removeSelf <==> r.1.ran && !task.repeat
    ensures !r.1.ran ==> r.0.timePassed == task.timePassed + dt
    ensures r.1.ran && task.repeat ==> r.0.timePassed == 0.0
    ensures r.0.waitTime == task.waitTime && r.0.repeat == task.repeat
  {
    var passed := task.timePassed + dt;
    if passed >= task.waitTime then
      if task.repeat then (task.(timePassed := 0.0), Effects(true, false))
      else (task.(timePassed := passed), Effects(true, true))
    else (task.(timePassed := passed), Effects(false, false))
  }

  /** Updates in a row with time steps `dts`; the trace records which of them ran the task. */
  function Run(task: ScheduledTask, dts: seq<real>): (r: (ScheduledTask, seq<bool>))
    ensures |r.1| == |dts|
    decreases |dts|
  {
    if dts == [] then (task, [])
    else
      var (next, fx) := Update(task, dts[0]);
      var (last, trace) := Run(next, dts[1..]);
      (last, [fx.ran] + trace)
  }

  function Sum(dts: seq<real>): real
    decreases |dts|
  {
    if dts == [] then 0.0 else dts[0] + Sum(dts[1..])
  }

  /**
   * While the task has not run, its clock holds exactly the time passed: a
   * run of updates that never reaches the wait time leaves
   * `timePassed + Sum(dts)` on the clock, and if it reaches it, the task ran.
   */
  lemma {:induction false} ClockAccumulates(task: ScheduledTask, dts: seq<real>)
    requires forall i :: 0 <= i < |dts| ==> dts[i] >= 0.0
    ensures (forall i :: 0 <= i < |dts| ==> !Run(task, dts).1[i]) ==>
              Run(task, dts).0.timePassed == task.timePassed + Sum(dts)
              && (dts != [] ==> task.timePassed + Sum(dts) < task.waitTime)
    decreases |dts|
  {
    if dts != [] {
      var (next, fx) := Update(task, dts[0]);
      ClockAccumulates(next, dts[1..]);
      if forall i :: 0 <= i < |dts| ==> !Run(task, dts).1[i] {
        assert !Run(task, dts).1[0];
        assert forall i :: 0 <= i < |dts[1..]| ==> !Run(next, dts[1..]).1[i] by {
          forall i | 0 <= i < |dts[1..]|
            ensures !Run(next, dts[1..]).1[i]
          {
            assert Run(task, dts).1[i + 1] == Run(next, dts[1..]).1[i];
          }
        }
      }
    }
  }

  /** A repeating task with a positive wait time, updated with steps equal to the wait time, runs on every update. */
  lemma {:induction false} RepeatingTaskRunsEveryPeriod(task: ScheduledTask, dts: seq<real>)
    requires task.repeat && task.timePassed >= 0.0
    requires forall i :: 0 <= i < |dts| ==> dts[i] == task.waitTime
    ensures forall i :: 0 <= i < |dts| ==> Run(task, dts).1[i]
    decreases |dts|
  {
    if dts != [] {
      var (next, fx) := Update(task, dts[0]);
      assert fx.ran;
      RepeatingTaskRunsEveryPeriod(next, dts[1..]);
      forall i | 0 <= i < |dts|
        ensures Run(task, dts).1[i]
      {
        if i > 0 {
          assert Run(task, dts).1[i] == Run(next, dts[1..]).1[i - 1];
        }
      }
    }
  }
}
