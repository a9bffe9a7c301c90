/**
 * The task scheduler: tasks registered to run once a day, each driven by its own loop that
 * wakes, runs the task when its period has passed, and sleeps. Times are milliseconds on
 * one clock; the tasks themselves are not modelled, only whether a run succeeded.
 */
module Scheduler {
  import opened Wrappers

  /** The period of a daily task. */
  const DAY_MILLIS: nat := 24 * 60 * 60 * 1000

  /** The shortest sleep between two wake-ups. */
  const MIN_SLEEP_MILLIS: nat := 1000

  /** A registered task: its name, the time of its last successful run, its period. */
  datatype Task = Task(name: string, lastRun: int, period: nat)

  /** The period has passed since the last successful run. */
  predicate IsDue(lastRun: int, now: int, period: nat) {
    now - lastRun >= period
  }

  /** The last successful run after a wake-up at `now`: moved to `now` only by a run that succeeded. */
  function NextLastRun(lastRun: int, now: int, period: nat, outcome: Result<(), string>): (last: int)
    ensures last >= lastRun
    ensures last == lastRun || (IsDue(lastRun, now, period) && outcome.Ok? && last == now)
  {
    if IsDue(lastRun, now, period) && outcome.Ok? then now else lastRun
  }

  /** The sleep after a wake-up at `now`: until the next due time, but never under a second. */
  function SleepMillis(lastRun: int, now: int, period: nat): (sleep: nat)
    ensures sleep >= MIN_SLEEP_MILLIS
    ensures sleep >= lastRun + period - now
    ensures sleep == MIN_SLEEP_MILLIS || sleep == lastRun + period - now
  {
    var untilDue := lastRun + period - now;
    if untilDue > MIN_SLEEP_MILLIS then untilDue else MIN_SLEEP_MILLIS
  }

  /** After a successful run a daily task sleeps one whole period. */
  lemma SuccessSleepsOnePeriod(lastRun: int, now: int)
    requires IsDue(lastRun, now, DAY_MILLIS)
    ensures var last := NextLastRun(lastRun, now, DAY_MILLIS, Ok(()));
      last == now && SleepMillis(last, now, DAY_MILLIS) == DAY_MILLIS
  {
  }

  /** After a failed run the task keeps its last run and is retried a second later. */
  lemma FailureRetriesAfterOneSecond(lastRun: int, now: int, period: nat, e: string)
    requires IsDue(lastRun, now, period)
    ensures var last := NextLastRun(lastRun, now, period, Err(e));
      last == lastRun && SleepMillis(last, now, period) == MIN_SLEEP_MILLIS
      && IsDue(last, now + MIN_SLEEP_MILLIS, period)
  {
  }

  /** A task that is not due sleeps at least until it is due, and wakes up due. */
  lemma NotDueWakesDue(lastRun: int, now: int, period: nat, outcome: Result<(), string>)
    requires !IsDue(lastRun, now, period)
    ensures NextLastRun(lastRun, now, period, outcome) == lastRun
    ensures IsDue(lastRun, now + SleepMillis(lastRun, now, period), period)
  {
  }

  class Scheduler {
    var tasks: seq<Task>

    constructor()
      ensures tasks == []
    {
      tasks := [];
    }

    /**
     * Registers a task to run once a day. The hour and the minute are ignored: the first run
     * comes a day after registration.
     */
    method ScheduleDaily(name: string, hour: nat, minute: nat, now: int)
      modifies this
      ensures tasks == old(tasks) + [Task(name, now, DAY_MILLIS)]
    {
      tasks := tasks + [Task(name, now, DAY_MILLIS)];
    }

    /**
     * One wake-up of task `i`'s loop at time `now`: runs the task when it is due, with
     * `outcome` as its result, and returns whether it ran and how long the loop then sleeps.
     */
    method Tick(i: nat, now: int, outcome: Result<(), string>) returns (ran: bool, sleepMillis: nat)
      requires i < |tasks|
      modifies this
      ensures ran == IsDue(old(tasks[i].lastRun), now, old(tasks[i].period))
      ensures tasks == old(tasks)[i := old(tasks[i]).(lastRun := NextLastRun(old(tasks[i].lastRun), now,
                                                                       old(tasks[i].period), outcome))]
      ensures sleepMillis == SleepMillis(tasks[i].lastRun, now, tasks[i].period)
    {
      var task := tasks[i];
      var last := task.lastRun;
      ran := false;
      if now - last >= task.period {
        ran := true;
        match outcome {
          case Ok(_) => last := now;
          case Err(_) =>
        }
      }
      tasks := tasks[i := task.(lastRun := last)];
      var untilDue := last + task.period - now;
      sleepMillis := if untilDue > MIN_SLEEP_MILLIS then untilDue else MIN_SLEEP_MILLIS;
    }

    /** Starts one loop per registered task, in the order they were registered. */
    method Start() returns (started: seq<string>)
      ensures |started| == |tasks|
      ensures forall j :: 0 <= j < |tasks| ==> started[j] == tasks[j].name
    {
      started := [];
      for j := 0 to |tasks|
        invariant |started| == j
        invariant forall k :: 0 <= k < j ==> started[k] == tasks[k].name
      {
        started := started + [tasks[j].name];
      }
    }
  }
}
