/** How Treengeling limits the number of threads that run jobs. */
module Workers {

  /** Where the thread that starts jobs is: not in incworkers, waiting for the signal, woken but
      without having tested again, or past incworkers with a job to start. */
  datatype Starter = Outside | Waiting | Woken | Entered

  /** The counter, the jobs that have started and not yet called decworkers, and the starter. */
  datatype Pool = Pool(numworkers: int, running: nat, starter: Starter)

  datatype Step = Enter | Wake | Start | Finish

  /** One critical section. A wait may end without a signal. */
  ghost predicate Next(p: Pool, p': Pool, max: int, step: Step) {
    match step
    case Enter =>
      && (p.starter == Outside || p.starter == Woken)
      && p' == if p.numworkers >= max then p.(starter := Waiting) else p.(numworkers := p.numworkers + 1, starter := Entered)
    case Wake => p.starter == Waiting && p' == p.(starter := Woken)
    case Start => p.starter == Entered && p' == p.(running := p.running + 1, starter := Outside)
    case Finish =>
      && p.running > 0
      && p' == Pool(p.numworkers - 1, p.running - 1, if p.starter == Waiting then Woken else p.starter)
  }

  ghost predicate Inv(p: Pool, max: int) {
    && p.numworkers == p.running + (if p.starter == Entered then 1 else 0) <= max
    && (p.starter == Waiting ==> p.numworkers == max)
  }

  ghost predicate Run(pools: seq<Pool>, steps: seq<Step>, max: int) {
    && |pools| == |steps| + 1 && pools[0] == Pool(0, 0, Outside)
    && forall k :: 0 <= k < |steps| ==> Next(pools[k], pools[k + 1], max, steps[k])
  }

  /** In every interleaving at most `max` jobs run at a time; and the starter never sleeps through
      a free place: while it waits for a signal there is a job that will give it. */
  lemma {:induction false} NeverTooManyNeverStuck(pools: seq<Pool>, steps: seq<Step>, max: int, k: nat)
    requires Run(pools, steps, max) && max > 0 && k <= |steps|
    ensures Inv(pools[k], max) && pools[k].running <= max
    ensures pools[k].starter == Waiting ==> pools[k].running == max
  {
    if k > 0 {
      NeverTooManyNeverStuck(pools, steps, max, k - 1);
      assert Next(pools[k - 1], pools[k], max, steps[k - 1]);
    }
  }
}
