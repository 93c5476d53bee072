/** Today's health metrics and their goals. Both are the same four-field
    record; the store updates either one by merge-patch: the fields a
    partial record supplies replace the old ones, the others stay. */
module Metrics {
  import opened Wrappers

  /** A four-field metrics record (steps, calories, water, sleep). The
      TypeScript store keeps JavaScript numbers; the store does no arithmetic on
      them, so exact reals stand in for them. */
  datatype Stats = Stats(steps: real, calories: real, water: real, sleep: real)

  /** A partial metrics record: `None` is a field the caller left out. */
  datatype StatsPatch = StatsPatch(steps: Option<real>, calories: Option<real>,
                                   water: Option<real>, sleep: Option<real>)

  /** Names of the four fields, so that properties can range over them. */
  datatype Metric = Steps | Calories | Water | Sleep

  function Get(s: Stats, m: Metric): real {
    match m
    case Steps => s.steps
    case Calories => s.calories
    case Water => s.water
    case Sleep => s.sleep
  }

  function PatchGet(p: StatsPatch, m: Metric): Option<real> {
    match m
    case Steps => p.steps
    case Calories => p.calories
    case Water => p.water
    case Sleep => p.sleep
  }

  /** The stats a fresh store starts with, and what logout resets them to. */
  const InitialStats: Stats := Stats(0.0, 0.0, 0.0, 0.0)

  /** The goals a fresh store starts with. */
  const InitialGoals: Stats := Stats(10000.0, 2000.0, 2000.0, 8.0)

  /** The patch that supplies nothing. */
  const EmptyPatch: StatsPatch := StatsPatch(None, None, None, None)

  /** Merge-patch: every supplied metric takes its new value, every other
      metric keeps its old one. So a metric changes only when the patch
      supplies it, and a patch supplying all four replaces the record. */
  function Merge(s: Stats, p: StatsPatch): (r: Stats)
    ensures forall m :: PatchGet(p, m).Some? ==> Get(r, m) == PatchGet(p, m).value
    ensures forall m :: PatchGet(p, m).None? ==> Get(r, m) == Get(s, m)
  {
    Stats(p.steps.GetOr(s.steps), p.calories.GetOr(s.calories),
          p.water.GetOr(s.water), p.sleep.GetOr(s.sleep))
  }

  /** Two patches applied in turn: the later one wins where both supply a field. */
  function Then(p: StatsPatch, q: StatsPatch): (r: StatsPatch)
    ensures forall m :: PatchGet(r, m) == PatchGet(q, m).OrElse(PatchGet(p, m))
  {
    StatsPatch(q.steps.OrElse(p.steps), q.calories.OrElse(p.calories),
               q.water.OrElse(p.water), q.sleep.OrElse(p.sleep))
  }

  /** Applying the same patch twice is the same as applying it once. */
  lemma MergeIdempotent(s: Stats, p: StatsPatch)
    ensures Merge(Merge(s, p), p) == Merge(s, p)
  {
  }

  /** Two merges in a row are one merge of the combined patch. */
  lemma MergeThen(s: Stats, p: StatsPatch, q: StatsPatch)
    ensures Merge(Merge(s, p), q) == Merge(s, Then(p, q))
  {
  }

  /** The empty patch changes nothing. */
  lemma MergeEmpty(s: Stats)
    ensures Merge(s, EmptyPatch) == s
  {
  }
}
