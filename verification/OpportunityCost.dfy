/** Mining opportunity cost: what the integration in
    packages/legacy-replay-analysis/mining_opportunity_cost.py is meant to compute,
    frame by frame, and the laws of that meaning.  `OpportunitySweep` holds the algorithm. */
module OpportunityCost {
  import Curve = MineralSaturation
  import opened Sorting
  import opened Sums

  const SECONDS_PER_FRAME: real := 0.042

  /** Base, worker and category names: opaque keys in their sorted order. */
  type Id = int

  /** One base's economic state over the frames `start <= f < end`. */
  datatype Economy = Economy(base: Id, start: nat, end: nat, active: nat, patches: nat)

  datatype Absence = Absence(worker: Id, base: Id, category: Id, start: nat, end: nat)

  datatype Input = Input(economics: seq<Economy>, absences: seq<Absence>, model: Curve.Model)

  /** What the constructors of the input records and of the model guarantee. */
  ghost predicate WellFormed(inp: Input) {
    && (forall e :: e in inp.economics ==> e.start < e.end)
    && (forall a :: a in inp.absences ==> a.start < a.end)
    && Curve.ValidModel(inp.model)
  }

  predicate Disjoint(s1: nat, e1: nat, s2: nat, e2: nat) {
    e1 <= s2 || e2 <= s1
  }

  /** No base has two states, and no worker two absences, in one frame. */
  ghost predicate Consistent(inp: Input) {
    && (forall i, j :: 0 <= i < j < |inp.economics| && inp.economics[i].base == inp.economics[j].base ==>
          Disjoint(inp.economics[i].start, inp.economics[i].end, inp.economics[j].start, inp.economics[j].end))
    && (forall i, j :: 0 <= i < j < |inp.absences| && inp.absences[i].worker == inp.absences[j].worker ==>
          Disjoint(inp.absences[i].start, inp.absences[i].end, inp.absences[j].start, inp.absences[j].end))
  }

  // ----- The state of one base in one frame -----

  predicate Covers(e: Economy, b: Id, f: int) { e.base == b && e.start <= f < e.end }

  predicate Misses(a: Absence, b: Id, f: int) { a.base == b && a.start <= f < a.end }

  ghost predicate Known(inp: Input, b: Id, f: int) {
    exists e :: e in inp.economics && Covers(e, b, f)
  }

  ghost function StateAt(inp: Input, b: Id, f: int): (e: Economy)
    requires Known(inp, b, f)
    ensures e in inp.economics && Covers(e, b, f)
  {
    var e :| e in inp.economics && Covers(e, b, f);
    e
  }

  ghost function AbsentAt(inp: Input, b: Id, f: int): set<Absence> {
    set a | a in inp.absences && Misses(a, b, f)
  }

  lemma {:induction false} StateIsUnique(inp: Input, e: Economy, b: Id, f: int)
    requires Consistent(inp) && e in inp.economics && Covers(e, b, f)
    ensures Known(inp, b, f) && StateAt(inp, b, f) == e
  {
    var e' := StateAt(inp, b, f);
    var i :| 0 <= i < |inp.economics| && inp.economics[i] == e;
    var j :| 0 <= j < |inp.economics| && inp.economics[j] == e';
    assert i == j;
  }

  lemma {:induction false} AbsencesHaveDistinctWorkers(inp: Input, x: Absence, y: Absence, f: int)
    requires Consistent(inp) && x in inp.absences && y in inp.absences && x.worker == y.worker
    requires x.start <= f < x.end && y.start <= f < y.end
    ensures x == y
  {
    var i :| 0 <= i < |inp.absences| && inp.absences[i] == x;
    var j :| 0 <= j < |inp.absences| && inp.absences[j] == y;
    assert i == j;
  }

  // ----- Loss of one frame, and how it is shared -----

  /** Minerals lost at base `b` during frame `f`: the counterfactual rate with the absent
      workers back, less the observed rate, over the length of a frame. */
  ghost function LossAt(inp: Input, b: Id, f: int): real
    requires Curve.ValidModel(inp.model)
  {
    if Known(inp, b, f) then
      var e := StateAt(inp, b, f);
      (Curve.Rate(inp.model, e.active + |AbsentAt(inp, b, f)|, e.patches)
       - Curve.Rate(inp.model, e.active, e.patches)) * SECONDS_PER_FRAME
    else 0.0
  }

  ghost predicate IsAbsent(inp: Input, b: Id, w: Id, f: int) {
    exists a :: a in AbsentAt(inp, b, f) && a.worker == w
  }

  /** An absent worker carries an equal share of the frame's loss. */
  ghost function WorkerLossAt(inp: Input, b: Id, w: Id, f: int): real
    requires Curve.ValidModel(inp.model)
  {
    if IsAbsent(inp, b, w, f) then Share(LossAt(inp, b, f), |AbsentAt(inp, b, f)|) else 0.0
  }

  ghost function InCategory(absent: set<Absence>, c: Id): set<Absence> {
    set a | a in absent && a.category == c
  }

  ghost function CategoryLossAt(inp: Input, b: Id, c: Id, f: int): real
    requires Curve.ValidModel(inp.model)
  {
    var absent := AbsentAt(inp, b, f);
    Times(|InCategory(absent, c)|, Share(LossAt(inp, b, f), |absent|))
  }

  ghost function LossCurve(inp: Input, b: Id): int -> real
    requires Curve.ValidModel(inp.model)
  {
    f => LossAt(inp, b, f)
  }

  ghost function WorkerCurve(inp: Input, b: Id, w: Id): int -> real
    requires Curve.ValidModel(inp.model)
  {
    f => WorkerLossAt(inp, b, w, f)
  }

  ghost function CategoryCurve(inp: Input, b: Id, c: Id): int -> real
    requires Curve.ValidModel(inp.model)
  {
    f => CategoryLossAt(inp, b, c, f)
  }

  // ----- Totals over the frames lo <= f < hi -----

  function BaseIds(inp: Input): set<Id> {
    (set e | e in inp.economics :: e.base) + (set a | a in inp.absences :: a.base)
  }

  function Bases(inp: Input): seq<Id> { SortedKeys(BaseIds(inp)) }

  ghost function BaseCosts(inp: Input, lo: int, hi: int): Id -> real
    requires Curve.ValidModel(inp.model)
  {
    b => Integral(LossCurve(inp, b), lo, hi)
  }

  ghost function WorkerCosts(inp: Input, w: Id, lo: int, hi: int): Id -> real
    requires Curve.ValidModel(inp.model)
  {
    b => Integral(WorkerCurve(inp, b, w), lo, hi)
  }

  ghost function CategoryCosts(inp: Input, c: Id, lo: int, hi: int): Id -> real
    requires Curve.ValidModel(inp.model)
  {
    b => Integral(CategoryCurve(inp, b, c), lo, hi)
  }

  /** Sum over the bases and over every frame of the coverage. */
  ghost function TotalCost(inp: Input, lo: int, hi: int): real
    requires Curve.ValidModel(inp.model)
  {
    SumOver(Bases(inp), BaseCosts(inp, lo, hi))
  }

  ghost function WorkerCost(inp: Input, w: Id, lo: int, hi: int): real
    requires Curve.ValidModel(inp.model)
  {
    SumOver(Bases(inp), WorkerCosts(inp, w, lo, hi))
  }

  ghost function CategoryCost(inp: Input, c: Id, lo: int, hi: int): real
    requires Curve.ValidModel(inp.model)
  {
    SumOver(Bases(inp), CategoryCosts(inp, c, lo, hi))
  }

  // ----- Laws -----

  /** Bringing workers back never loses minerals. */
  lemma {:induction false} LossIsNonnegative(inp: Input, b: Id, f: int)
    requires Curve.ValidModel(inp.model)
    ensures 0.0 <= LossAt(inp, b, f)
  {
    if Known(inp, b, f) {
      var e, k := StateAt(inp, b, f), |AbsentAt(inp, b, f)|;
      Curve.RateMonotone(inp.model, e.active, e.active + k, e.patches, e.patches);
    }
  }

  /** Cost is additive over adjoining coverages, in total and for every worker and category. */
  lemma {:induction false} CostIsAdditive(inp: Input, a: int, b: int, c: int, key: Id)
    requires Curve.ValidModel(inp.model) && a <= b <= c
    ensures TotalCost(inp, a, c) == TotalCost(inp, a, b) + TotalCost(inp, b, c)
    ensures WorkerCost(inp, key, a, c) == WorkerCost(inp, key, a, b) + WorkerCost(inp, key, b, c)
    ensures CategoryCost(inp, key, a, c) == CategoryCost(inp, key, a, b) + CategoryCost(inp, key, b, c)
  {
    hide LossCurve, WorkerCurve, CategoryCurve, SumOver;
    var bases := Bases(inp);
    forall i | 0 <= i < |bases|
      ensures BaseCosts(inp, a, c)(bases[i]) == BaseCosts(inp, a, b)(bases[i]) + BaseCosts(inp, b, c)(bases[i])
      ensures WorkerCosts(inp, key, a, c)(bases[i])
           == WorkerCosts(inp, key, a, b)(bases[i]) + WorkerCosts(inp, key, b, c)(bases[i])
      ensures CategoryCosts(inp, key, a, c)(bases[i])
           == CategoryCosts(inp, key, a, b)(bases[i]) + CategoryCosts(inp, key, b, c)(bases[i])
    {
      IntegralSplits(LossCurve(inp, bases[i]), a, b, c);
      IntegralSplits(WorkerCurve(inp, bases[i], key), a, b, c);
      IntegralSplits(CategoryCurve(inp, bases[i], key), a, b, c);
    }
    SumOverAdds(bases, BaseCosts(inp, a, c), BaseCosts(inp, a, b), BaseCosts(inp, b, c));
    SumOverAdds(bases, WorkerCosts(inp, key, a, c), WorkerCosts(inp, key, a, b), WorkerCosts(inp, key, b, c));
    SumOverAdds(bases, CategoryCosts(inp, key, a, c), CategoryCosts(inp, key, a, b), CategoryCosts(inp, key, b, c));
  }
}
