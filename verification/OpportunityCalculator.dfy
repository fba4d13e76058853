/** `calculate_opportunity_cost` as a whole: input validation, the sweep over every base,
    and the totals. */
module OpportunityCalculator {
  import Curve = MineralSaturation
  import opened OpportunityCost
  import opened OpportunitySweep
  import opened Sorting
  import opened Sums

  // ----- Overlap validation -----

  type Span = (nat, nat)

  predicate Apart(x: Span, y: Span) { Disjoint(x.0, x.1, y.0, y.1) }

  ghost predicate ApartFrom(x: Span, s: seq<Span>) {
    forall y :: y in s ==> Apart(x, y)
  }

  /** Every two intervals of the list are disjoint. */
  ghost predicate AllApart(s: seq<Span>) {
    s == [] || (ApartFrom(s[0], s[1..]) && AllApart(s[1..]))
  }

  lemma {:induction false} ApartFromPermuted(x: Span, s: seq<Span>, t: seq<Span>)
    requires multiset(s) == multiset(t)
    ensures ApartFrom(x, s) <==> ApartFrom(x, t)
  {
    forall y
      ensures y in s <==> y in t
    {
      SameMember(s, t, y);
    }
  }

  lemma {:induction false} AllApartCons(x: Span, s: seq<Span>)
    ensures AllApart([x] + s) <==> ApartFrom(x, s) && AllApart(s)
  {
    assert ([x] + s)[1..] == s;
  }

  lemma {:induction false} ApartFromCons(x: Span, y: Span, s: seq<Span>)
    ensures ApartFrom(x, [y] + s) <==> Apart(x, y) && ApartFrom(x, s)
  {
    assert forall z :: z in [y] + s <==> z == y || z in s;
  }

  predicate SpanBefore(x: Span, y: Span) { x.0 < y.0 || (x.0 == y.0 && x.1 <= y.1) }

  lemma {:induction false} AllApartByIndex(s: seq<Span>)
    ensures AllApart(s) <==> forall i, j :: 0 <= i < j < |s| ==> Apart(s[i], s[j])
  {
    if s != [] {
      AllApartByIndex(s[1..]);
      assert forall j :: 0 < j < |s| ==> s[j] == s[1..][j - 1];
      if forall i, j :: 0 <= i < j < |s| ==> Apart(s[i], s[j]) {
        forall i, j | 0 <= i < j < |s[1..]| ensures Apart(s[1..][i], s[1..][j]) {
          assert s[1..][i] == s[i + 1] && s[1..][j] == s[j + 1];
        }
      }
    }
  }

  lemma {:induction false} AllApartOfInsert(x: Span, s: seq<Span>)
    ensures AllApart(Insert(SpanBefore, x, s)) <==> ApartFrom(x, s) && AllApart(s)
  {
    if s == [] || SpanBefore(x, s[0]) {
      AllApartCons(x, s);
    } else {
      var rest := s[1..];
      var r := Insert(SpanBefore, x, rest);
      assert s == [s[0]] + rest;
      assert Insert(SpanBefore, x, s) == [s[0]] + r;
      AllApartOfInsert(x, rest);
      hide AllApart, ApartFrom, Insert;
      AllApartCons(s[0], r);
      AllApartCons(s[0], rest);
      ApartFromPermuted(s[0], r, [x] + rest);
      ApartFromCons(s[0], x, rest);
      ApartFromCons(x, s[0], rest);
    }
  }

  lemma {:induction false} AllApartOfSort(s: seq<Span>)
    ensures AllApart(Sort(SpanBefore, s)) <==> AllApart(s)
  {
    if s != [] {
      var r := Sort(SpanBefore, s[1..]);
      AllApartOfSort(s[1..]);
      AllApartOfInsert(s[0], r);
      ApartFromPermuted(s[0], r, s[1..]);
    }
  }

  /** The `k`-th interval starts no earlier than its predecessor ends. */
  predicate After(s: seq<Span>, k: nat)
    requires 0 < k < |s|
  {
    s[k - 1].1 <= s[k].0
  }

  lemma {:induction false} ChainIsApart(s: seq<Span>, i: nat, j: nat)
    requires i < j < |s|
    requires forall k :: 0 <= k < |s| ==> s[k].0 < s[k].1
    requires forall k :: 0 < k < |s| ==> After(s, k)
    ensures s[i].1 <= s[j].0
  {
    assert After(s, j);
    if i + 1 < j {
      ChainIsApart(s, i, j - 1);
    }
  }

  lemma {:induction false} SortedSpans(intervals: seq<Span>)
    requires forall x :: x in intervals ==> x.0 < x.1
    ensures var ordered := Sort(SpanBefore, intervals);
            && (forall k :: 0 <= k < |ordered| ==> ordered[k].0 < ordered[k].1)
            && SortedBy(SpanBefore, ordered)
            && (AllApart(ordered) <==> AllApart(intervals))
  {
    var ordered := Sort(SpanBefore, intervals);
    AllApartOfSort(intervals);
    SortSorts(SpanBefore, intervals);
    forall k | 0 <= k < |ordered|
      ensures ordered[k].0 < ordered[k].1
    {
      assert ordered[k] in ordered;
      SameMember(ordered, intervals, ordered[k]);
    }
  }

  /** In start order, comparing neighbours decides whether all intervals are disjoint. */
  lemma {:induction false} NeighboursDecide(s: seq<Span>)
    requires forall k :: 0 <= k < |s| ==> s[k].0 < s[k].1
    requires SortedBy(SpanBefore, s)
    ensures AllApart(s) <==> forall k :: 0 < k < |s| ==> After(s, k)
  {
    AllApartByIndex(s);
    hide AllApart;
    if forall k :: 0 < k < |s| ==> After(s, k) {
      forall i, j | 0 <= i < j < |s|
        ensures Apart(s[i], s[j])
      {
        ChainIsApart(s, i, j);
      }
    } else {
      var k :| 0 < k < |s| && !After(s, k);
      assert SpanBefore(s[k - 1], s[k]);
      assert !Apart(s[k - 1], s[k]);
    }
  }

  lemma {:induction false} SortDecides(intervals: seq<Span>, ordered: seq<Span>)
    requires forall x :: x in intervals ==> x.0 < x.1
    requires ordered == Sort(SpanBefore, intervals)
    ensures AllApart(intervals) <==> forall k :: 0 < k < |ordered| ==> After(ordered, k)
  {
    SortedSpans(intervals);
    NeighboursDecide(ordered);
  }

  /** `_validate_nonoverlap`: sorting and comparing neighbours only is enough to find any
      two overlapping intervals. */
  method ValidateNonoverlap(intervals: seq<Span>) returns (ok: bool)
    requires forall x :: x in intervals ==> x.0 < x.1
    ensures ok <==> AllApart(intervals)
  {
    var ordered := Sort(SpanBefore, intervals);
    SortDecides(intervals, ordered);
    hide *;
    for i := 0 to |ordered|
      invariant forall k :: 0 < k < i ==> After(ordered, k)
    {
      if i > 0 && !After(ordered, i) {
        return false;
      }
    }
    ok := true;
  }

  /** A row of either table, reduced to the key it is checked under and its interval. */
  datatype Row = Row(key: Id, start: nat, end: nat)

  function SpansOf(rows: seq<Row>, key: Id): seq<Span> {
    if rows == [] then []
    else (if rows[0].key == key then [(rows[0].start, rows[0].end)] else []) + SpansOf(rows[1..], key)
  }

  predicate RowsApart(r: Row, r': Row) { r.key == r'.key ==> Disjoint(r.start, r.end, r'.start, r'.end) }

  ghost predicate AllRowsApart(rows: seq<Row>) {
    forall i, j :: 0 <= i < j < |rows| ==> RowsApart(rows[i], rows[j])
  }

  ghost predicate NoClash(rows: seq<Row>, key: Id) {
    rows == [] || ((rows[0].key == key ==> forall r :: r in rows[1..] ==> RowsApart(rows[0], r)) && NoClash(rows[1..], key))
  }

  lemma {:induction false} SpansOfMembers(rows: seq<Row>, key: Id)
    ensures forall x :: x in SpansOf(rows, key) <==> Row(key, x.0, x.1) in rows
  {
    if rows != [] {
      SpansOfMembers(rows[1..], key);
      assert rows == [rows[0]] + rows[1..];
    }
  }

  lemma {:induction false} SpansApartIffNoClash(rows: seq<Row>, key: Id)
    ensures AllApart(SpansOf(rows, key)) <==> NoClash(rows, key)
  {
    if rows != [] {
      var rest := SpansOf(rows[1..], key);
      SpansApartIffNoClash(rows[1..], key);
      SpansOfMembers(rows[1..], key);
      if rows[0].key == key {
        var head := (rows[0].start, rows[0].end);
        assert SpansOf(rows, key) == [head] + rest && ([head] + rest)[1..] == rest;
        if ApartFrom(head, rest) {
          forall r | r in rows[1..] ensures RowsApart(rows[0], r) {
            if r.key == key {
              assert (r.start, r.end) in rest;
            }
          }
        }
        if forall r :: r in rows[1..] ==> RowsApart(rows[0], r) {
          forall y | y in rest ensures Apart(head, y) {
            assert RowsApart(rows[0], Row(key, y.0, y.1));
          }
          assert ApartFrom(head, rest);
        }
      } else {
        assert SpansOf(rows, key) == rest;
      }
    }
  }

  lemma {:induction false} NoClashByIndex(rows: seq<Row>, key: Id)
    ensures NoClash(rows, key)
       <==> forall i, j :: 0 <= i < j < |rows| && rows[i].key == key ==> RowsApart(rows[i], rows[j])
  {
    if rows != [] {
      NoClashByIndex(rows[1..], key);
      assert forall j :: 0 < j < |rows| ==> rows[j] == rows[1..][j - 1];
      if forall i, j :: 0 <= i < j < |rows| && rows[i].key == key ==> RowsApart(rows[i], rows[j]) {
        forall i, j | 0 <= i < j < |rows[1..]| && rows[1..][i].key == key
          ensures RowsApart(rows[1..][i], rows[1..][j])
        {
          assert rows[1..][i] == rows[i + 1] && rows[1..][j] == rows[j + 1];
        }
      }
    }
  }

  /** `validate` runs the check for every key that occurs. */
  method ValidateRows(rows: seq<Row>) returns (ok: bool)
    requires forall r :: r in rows ==> r.start < r.end
    ensures ok <==> AllRowsApart(rows)
  {
    var keys := SortedKeys(set r | r in rows :: r.key);
    for n := 0 to |keys|
      invariant forall k :: 0 <= k < n ==> AllApart(SpansOf(rows, keys[k]))
    {
      SpansOfMembers(rows, keys[n]);
      var apart := ValidateNonoverlap(SpansOf(rows, keys[n]));
      if !apart {
        SpansApartIffNoClash(rows, keys[n]);
        NoClashByIndex(rows, keys[n]);
        return false;
      }
    }
    forall i, j | 0 <= i < j < |rows|
      ensures RowsApart(rows[i], rows[j])
    {
      assert rows[i] in rows;
      assert rows[i].key in keys;
      SpansApartIffNoClash(rows, rows[i].key);
      NoClashByIndex(rows, rows[i].key);
    }
    ok := true;
  }

  // ----- Coverage validation -----

  /** `_coverage_complete`: one pass over the base's states in start order. */
  method CoverageComplete(inp: Input, b: Id, c: Coverage) returns (ok: bool)
    requires c.start < c.end
    ensures ok <==> Complete(inp, b, c)
  {
    var ordered := SortedEconomies(inp, b);
    SortedEconomiesFacts(inp, b);
    var current := c.start;
    hide SortedEconomies;
    for i := 0 to |ordered|
      invariant c.start <= current < c.end
      invariant forall f :: c.start <= f < current ==> Known(inp, b, f)
      invariant forall j :: 0 <= j < i ==> ordered[j].end <= current
    {
      var item := ordered[i];
      if item.end > current {
        if item.start > current {
          NotKnown(inp, b, ordered, i, current);
          return false;
        }
        forall f | current <= f < item.end
          ensures Known(inp, b, f)
        {
          assert item in ordered && Covers(item, b, f);
        }
        current := item.end;
        if current >= c.end {
          return true;
        }
      }
    }
    NotKnown(inp, b, ordered, |ordered|, current);
    ok := false;
  }

  lemma {:induction false} NotKnown(inp: Input, b: Id, ordered: seq<Economy>, i: nat, f: int)
    requires forall e :: e in ordered <==> e in inp.economics && e.base == b
    requires forall j, k :: 0 <= j < k < |ordered| ==> ordered[j].start <= ordered[k].start
    requires i <= |ordered| && forall j :: 0 <= j < i ==> ordered[j].end <= f
    requires i < |ordered| ==> f < ordered[i].start
    ensures !Known(inp, b, f)
  {
    forall e | e in inp.economics
      ensures !Covers(e, b, f)
    {
      if e.base == b {
        var j :| 0 <= j < |ordered| && ordered[j] == e;
        assert j <= i || ordered[i].start <= ordered[j].start;
      }
    }
  }

  // ----- Totals -----

  datatype Cost = Cost(total: real, byBase: map<Id, real>, byWorker: map<Id, real>, byCategory: map<Id, real>,
                       segments: seq<Segment>)

  /** The running totals after the bases in `bases`. */
  ghost predicate TotalsAre(inp: Input, c: Coverage, bases: seq<Id>, cost: Cost)
    requires Curve.ValidModel(inp.model)
  {
    && cost.total == SumOver(bases, BaseCosts(inp, c.start, c.end))
    && BaseTotals(inp, c, bases, cost.byBase)
    && WorkerTotals(inp, c, bases, cost.byWorker)
    && CategoryTotals(inp, c, bases, cost.byCategory)
    && MapSum(cost.byBase) == MapSum(cost.byWorker) == MapSum(cost.byCategory) == cost.total
  }

  ghost predicate BaseTotals(inp: Input, c: Coverage, bases: seq<Id>, byBase: map<Id, real>)
    requires Curve.ValidModel(inp.model)
  {
    && (forall b :: b in byBase <==> b in bases)
    && (forall b :: b in byBase ==> byBase[b] == Integral(LossCurve(inp, b), c.start, c.end))
  }

  /** Every worker absent somewhere in the coverage has an amount: the sum of that worker's
      shares over the bases and frames. */
  ghost predicate WorkerTotals(inp: Input, c: Coverage, bases: seq<Id>, byWorker: map<Id, real>)
    requires Curve.ValidModel(inp.model)
  {
    && (forall w :: Get(byWorker, w) == SumOver(bases, WorkerCosts(inp, w, c.start, c.end)))
    && (forall w :: w in byWorker <==> WorkerMissed(inp, c, bases, w))
  }

  ghost predicate CategoryTotals(inp: Input, c: Coverage, bases: seq<Id>, byCategory: map<Id, real>)
    requires Curve.ValidModel(inp.model)
  {
    && (forall k :: Get(byCategory, k) == SumOver(bases, CategoryCosts(inp, k, c.start, c.end)))
    && (forall k :: k in byCategory <==> CategoryMissed(inp, c, bases, k))
  }

  /** Worker `w` is absent at one of the bases in some frame of the coverage. */
  ghost predicate WorkerMissed(inp: Input, c: Coverage, bases: seq<Id>, w: Id) {
    exists b :: b in bases && AbsentWithin(inp, b, w, c.start, c.end)
  }

  ghost predicate CategoryMissed(inp: Input, c: Coverage, bases: seq<Id>, k: Id) {
    exists b :: b in bases && CategoryWithin(inp, b, k, c.start, c.end)
  }

  /** `worker` is `worker0` plus what the workers lost at base `b` over `lo <= f < t`. */
  ghost predicate WorkersAdded(inp: Input, b: Id, lo: int, t: int, worker0: map<Id, real>, worker: map<Id, real>)
    requires Curve.ValidModel(inp.model)
  {
    && (forall w :: Get(worker, w) == Get(worker0, w) + Integral(WorkerCurve(inp, b, w), lo, t))
    && (forall w :: w in worker <==> w in worker0 || AbsentWithin(inp, b, w, lo, t))
  }

  ghost predicate CategoriesAdded(inp: Input, b: Id, lo: int, t: int, category0: map<Id, real>, category: map<Id, real>)
    requires Curve.ValidModel(inp.model)
  {
    && (forall k :: Get(category, k) == Get(category0, k) + Integral(CategoryCurve(inp, b, k), lo, t))
    && (forall k :: k in category <==> k in category0 || CategoryWithin(inp, b, k, lo, t))
  }

  ghost predicate AbsentWithin(inp: Input, b: Id, w: Id, lo: int, hi: int) {
    exists f :: lo <= f < hi && IsAbsent(inp, b, w, f)
  }

  ghost predicate CategoryWithin(inp: Input, b: Id, k: Id, lo: int, hi: int) {
    exists f :: lo <= f < hi && InCategory(AbsentAt(inp, b, f), k) != {}
  }

  lemma {:induction false} WorkerGains(inp: Input, s: Segment, lo: int, w: Id)
    requires Curve.ValidModel(inp.model) && SegmentIsExact(inp, s) && lo <= s.start
    ensures Integral(WorkerCurve(inp, s.base, w), lo, s.end)
         == Integral(WorkerCurve(inp, s.base, w), lo, s.start) + EntryAt(s.workerLosses, w)
    ensures AbsentWithin(inp, s.base, w, lo, s.end)
       <==> AbsentWithin(inp, s.base, w, lo, s.start) || HasEntry(s.workerLosses, w)
  {
    hide LossAt, WorkerCurve, CategoryCurve, LossCurve, Integral, EntryAt, HasEntry, IsAbsent, InCategory, AbsentAt;
    IntegralSplits(WorkerCurve(inp, s.base, w), lo, s.start, s.end);
    assert EntryAt(s.workerLosses, w) == Integral(WorkerCurve(inp, s.base, w), s.start, s.end);
    assert forall f :: s.start <= f < s.end ==> (HasEntry(s.workerLosses, w) <==> IsAbsent(inp, s.base, w, f));
    assert s.start < s.end;
    hide SegmentIsExact;
    assert HasEntry(s.workerLosses, w) <==> IsAbsent(inp, s.base, w, s.start);
  }

  lemma {:induction false} CategoryGainsIn(inp: Input, s: Segment, lo: int, k: Id)
    requires Curve.ValidModel(inp.model) && SegmentIsExact(inp, s) && lo <= s.start
    ensures Integral(CategoryCurve(inp, s.base, k), lo, s.end)
         == Integral(CategoryCurve(inp, s.base, k), lo, s.start) + EntryAt(s.categoryLosses, k)
    ensures CategoryWithin(inp, s.base, k, lo, s.end)
       <==> CategoryWithin(inp, s.base, k, lo, s.start) || HasEntry(s.categoryLosses, k)
  {
    hide LossAt, WorkerCurve, CategoryCurve, LossCurve, Integral, EntryAt, HasEntry, IsAbsent, InCategory, AbsentAt;
    IntegralSplits(CategoryCurve(inp, s.base, k), lo, s.start, s.end);
    assert EntryAt(s.categoryLosses, k) == Integral(CategoryCurve(inp, s.base, k), s.start, s.end);
    assert forall f :: s.start <= f < s.end ==>
      (HasEntry(s.categoryLosses, k) <==> InCategory(AbsentAt(inp, s.base, f), k) != {});
    assert s.start < s.end;
    hide SegmentIsExact;
    assert HasEntry(s.categoryLosses, k) <==> InCategory(AbsentAt(inp, s.base, s.start), k) != {};
  }

  lemma {:induction false} WorkersStep(inp: Input, lo: int, s: Segment, worker0: map<Id, real>, worker: map<Id, real>, r: map<Id, real>)
    requires Curve.ValidModel(inp.model) && SegmentIsExact(inp, s) && lo <= s.start
    requires WorkersAdded(inp, s.base, lo, s.start, worker0, worker)
    requires forall w :: Get(r, w) == Get(worker, w) + EntryAt(s.workerLosses, w)
    requires forall w :: w in r <==> w in worker || HasEntry(s.workerLosses, w)
    ensures WorkersAdded(inp, s.base, lo, s.end, worker0, r)
  {
    hide SegmentIsExact, Curve.ValidModel, AbsentWithin, WorkerCurve, Integral, EntryAt, HasEntry;
    forall w
      ensures Get(r, w) == Get(worker0, w) + Integral(WorkerCurve(inp, s.base, w), lo, s.end)
      ensures w in r <==> w in worker0 || AbsentWithin(inp, s.base, w, lo, s.end)
    {
      WorkerGains(inp, s, lo, w);
    }
  }

  lemma {:induction false} CategoriesStep(inp: Input, lo: int, s: Segment, category0: map<Id, real>, category: map<Id, real>, r: map<Id, real>)
    requires Curve.ValidModel(inp.model) && SegmentIsExact(inp, s) && lo <= s.start
    requires CategoriesAdded(inp, s.base, lo, s.start, category0, category)
    requires forall k :: Get(r, k) == Get(category, k) + EntryAt(s.categoryLosses, k)
    requires forall k :: k in r <==> k in category || HasEntry(s.categoryLosses, k)
    ensures CategoriesAdded(inp, s.base, lo, s.end, category0, r)
  {
    hide SegmentIsExact, Curve.ValidModel, CategoryWithin, CategoryCurve, Integral, EntryAt, HasEntry;
    forall k
      ensures Get(r, k) == Get(category0, k) + Integral(CategoryCurve(inp, s.base, k), lo, s.end)
      ensures k in r <==> k in category0 || CategoryWithin(inp, s.base, k, lo, s.end)
    {
      CategoryGainsIn(inp, s, lo, k);
    }
  }

  /** `next` is `cost` with the losses of base `b` added. */
  ghost predicate BaseAdded(inp: Input, c: Coverage, b: Id, cost: Cost, loss: real, next: Cost)
    requires Curve.ValidModel(inp.model)
  {
    && loss == Integral(LossCurve(inp, b), c.start, c.end)
    && next.total == cost.total + loss && next.byBase == cost.byBase[b := loss]
    && WorkersAdded(inp, b, c.start, c.end, cost.byWorker, next.byWorker)
    && CategoriesAdded(inp, b, c.start, c.end, cost.byCategory, next.byCategory)
    && MapSum(next.byWorker) == MapSum(cost.byWorker) + loss
    && MapSum(next.byCategory) == MapSum(cost.byCategory) + loss
  }

  /** The running amounts once the segments up to frame `t` have been added. */
  ghost predicate AddedUpTo(inp: Input, b: Id, lo: int, t: int, cost: Cost,
                            loss: real, worker: map<Id, real>, category: map<Id, real>)
    requires Curve.ValidModel(inp.model)
  {
    && loss == Integral(LossCurve(inp, b), lo, t)
    && WorkersAdded(inp, b, lo, t, cost.byWorker, worker)
    && CategoriesAdded(inp, b, lo, t, cost.byCategory, category)
    && MapSum(worker) == MapSum(cost.byWorker) + loss
    && MapSum(category) == MapSum(cost.byCategory) + loss
  }

  /** Add one segment's entries. */
  method AddSegment(inp: Input, ghost lo: int, s: Segment, ghost cost: Cost,
                    loss: real, worker: map<Id, real>, category: map<Id, real>)
    returns (loss': real, worker': map<Id, real>, category': map<Id, real>)
    requires Curve.ValidModel(inp.model) && SegmentIsExact(inp, s) && lo <= s.start
    requires AddedUpTo(inp, s.base, lo, s.start, cost, loss, worker, category)
    ensures AddedUpTo(inp, s.base, lo, s.end, cost, loss', worker', category')
  {
    hide Curve.ValidModel, SegmentIsExact, WorkersAdded, CategoriesAdded, MapSum, EntrySum, EntryAt, HasEntry, LossCurve;
    loss' := loss + s.loss;
    worker' := AddEntries(worker, s.workerLosses);
    category' := AddEntries(category, s.categoryLosses);
    ExactLoss(inp, s);
    IntegralSplits(LossCurve(inp, s.base), lo, s.start, s.end);
    WorkersStep(inp, lo, s, cost.byWorker, worker, worker');
    CategoriesStep(inp, lo, s, cost.byCategory, category, category');
  }

  lemma {:induction false} TileFacts(inp: Input, segments: seq<Segment>, b: Id, lo: int, hi: int, i: nat)
    requires Curve.ValidModel(inp.model) && Tiles(segments, b, lo, hi) && AllExact(inp, segments) && i < |segments|
    ensures SegmentIsExact(inp, segments[i]) && segments[i].base == b && segments[i].start < segments[i].end
    ensures segments[i].end == if i + 1 < |segments| then segments[i + 1].start as int else hi
  {
    assert segments[i] in segments;
    assert i + 1 < |segments| ==> Adjoin(segments, i + 1);
  }

  lemma {:induction false} NothingAdded(inp: Input, b: Id, lo: int, cost: Cost)
    requires Curve.ValidModel(inp.model)
    ensures AddedUpTo(inp, b, lo, lo, cost, 0.0, cost.byWorker, cost.byCategory)
  {
    hide Curve.ValidModel;
  }

  lemma {:induction false} AllAdded(inp: Input, b: Id, c: Coverage, cost: Cost, loss: real, next: Cost)
    requires Curve.ValidModel(inp.model)
    requires AddedUpTo(inp, b, c.start, c.end, cost, loss, next.byWorker, next.byCategory)
    requires next.total == cost.total + loss && next.byBase == cost.byBase[b := loss]
    ensures BaseAdded(inp, c, b, cost, loss, next)
  {
    hide Curve.ValidModel, WorkersAdded, CategoriesAdded, MapSum, LossCurve;
  }

  /** Add the segments of one base to the running totals. */
  method AddBase(inp: Input, b: Id, c: Coverage, segments: seq<Segment>, cost: Cost) returns (next: Cost, ghost loss': real)
    requires Curve.ValidModel(inp.model) && c.start <= c.end
    requires Tiles(segments, b, c.start, c.end) && AllExact(inp, segments)
    ensures BaseAdded(inp, c, b, cost, loss', next)
    ensures next.segments == cost.segments + segments
  {
    var loss, worker, category := 0.0, cost.byWorker, cost.byCategory;
    ghost var t: int := c.start;
    NothingAdded(inp, b, c.start, cost);
    assert segments == [] ==> c.start == c.end;
    assert segments != [] ==> segments[0].start == c.start;
    hide *;
    for i := 0 to |segments|
      invariant c.start <= t && t == if i < |segments| then segments[i].start as int else c.end
      invariant AddedUpTo(inp, b, c.start, t, cost, loss, worker, category)
    {
      var s := segments[i];
      TileFacts(inp, segments, b, c.start, c.end, i);
      loss, worker, category := AddSegment(inp, c.start, s, cost, loss, worker, category);
      t := s.end;
    }
    next := Cost(cost.total + loss, cost.byBase[b := loss], worker, category, cost.segments + segments);
    loss' := loss;
    AllAdded(inp, b, c, cost, loss, next);
  }

  lemma {:induction false} ExactLoss(inp: Input, s: Segment)
    requires Curve.ValidModel(inp.model) && SegmentIsExact(inp, s)
    ensures s.start < s.end && s.loss == Integral(LossCurve(inp, s.base), s.start, s.end)
    ensures EntrySum(s.workerLosses) == EntrySum(s.categoryLosses) == s.loss
  {
  }

  lemma {:induction false} TotalsGrow(inp: Input, c: Coverage, bases: seq<Id>, b: Id, cost: Cost, loss: real, next: Cost)
    requires Curve.ValidModel(inp.model) && b !in bases
    requires TotalsAre(inp, c, bases, cost) && BaseAdded(inp, c, b, cost, loss, next)
    ensures TotalsAre(inp, c, bases + [b], next)
  {
    hide Curve.ValidModel, MapSum, Integral, LossCurve, BaseTotals, WorkerTotals, CategoryTotals, WorkersAdded, CategoriesAdded, SumOver;
    MapSumUpdate(cost.byBase, b, loss);
    NewBaseTotals(inp, c, bases, b, cost.byBase, loss);
    WorkerTotalsGrow(inp, c, bases, b, cost.byWorker, next.byWorker);
    CategoryTotalsGrow(inp, c, bases, b, cost.byCategory, next.byCategory);
    SumOverSnoc(bases, b, BaseCosts(inp, c.start, c.end));
  }

  lemma {:induction false} NewBaseTotals(inp: Input, c: Coverage, bases: seq<Id>, b: Id, byBase: map<Id, real>, loss: real)
    requires Curve.ValidModel(inp.model) && b !in bases && BaseTotals(inp, c, bases, byBase)
    requires loss == Integral(LossCurve(inp, b), c.start, c.end)
    ensures BaseTotals(inp, c, bases + [b], byBase[b := loss]) && Get(byBase, b) == 0.0
  {
    hide Integral, LossCurve;
    assert forall x :: x in bases + [b] <==> x in bases || x == b;
  }

  lemma {:induction false} WorkerTotalsGrow(inp: Input, c: Coverage, bases: seq<Id>, b: Id, byWorker: map<Id, real>, byWorker': map<Id, real>)
    requires Curve.ValidModel(inp.model) && WorkerTotals(inp, c, bases, byWorker)
    requires WorkersAdded(inp, b, c.start, c.end, byWorker, byWorker')
    ensures WorkerTotals(inp, c, bases + [b], byWorker')
  {
    hide Integral, WorkerCurve, AbsentWithin, SumOver, WorkerMissed;
    forall w
      ensures Get(byWorker', w) == SumOver(bases + [b], WorkerCosts(inp, w, c.start, c.end))
      ensures w in byWorker' <==> WorkerMissed(inp, c, bases + [b], w)
    {
      SumOverSnoc(bases, b, WorkerCosts(inp, w, c.start, c.end));
      WorkerMissedSnoc(inp, c, bases, b, w);
    }
  }

  lemma {:induction false} CategoryTotalsGrow(inp: Input, c: Coverage, bases: seq<Id>, b: Id, byCategory: map<Id, real>, byCategory': map<Id, real>)
    requires Curve.ValidModel(inp.model) && CategoryTotals(inp, c, bases, byCategory)
    requires CategoriesAdded(inp, b, c.start, c.end, byCategory, byCategory')
    ensures CategoryTotals(inp, c, bases + [b], byCategory')
  {
    hide Integral, CategoryCurve, CategoryWithin, SumOver, CategoryMissed;
    forall k
      ensures Get(byCategory', k) == SumOver(bases + [b], CategoryCosts(inp, k, c.start, c.end))
      ensures k in byCategory' <==> CategoryMissed(inp, c, bases + [b], k)
    {
      SumOverSnoc(bases, b, CategoryCosts(inp, k, c.start, c.end));
      CategoryMissedSnoc(inp, c, bases, b, k);
    }
  }

  lemma {:induction false} WorkerMissedSnoc(inp: Input, c: Coverage, bases: seq<Id>, b: Id, w: Id)
    ensures WorkerMissed(inp, c, bases + [b], w)
       <==> WorkerMissed(inp, c, bases, w) || AbsentWithin(inp, b, w, c.start, c.end)
  {
    hide AbsentWithin;
    assert forall x :: x in bases + [b] <==> x in bases || x == b;
  }

  lemma {:induction false} CategoryMissedSnoc(inp: Input, c: Coverage, bases: seq<Id>, b: Id, k: Id)
    ensures CategoryMissed(inp, c, bases + [b], k)
       <==> CategoryMissed(inp, c, bases, k) || CategoryWithin(inp, b, k, c.start, c.end)
  {
    hide CategoryWithin;
    assert forall x :: x in bases + [b] <==> x in bases || x == b;
  }

  lemma {:induction false} SumOverSnoc(keys: seq<Id>, k: Id, g: Id -> real)
    ensures SumOver(keys + [k], g) == SumOver(keys, g) + g(k)
  {
    assert (keys + [k])[..|keys|] == keys;
  }

  // ----- The calculation -----

  datatype Outcome = Computed(cost: Cost) | Failed(error: Error)

  function EconomyRows(s: seq<Economy>): (rows: seq<Row>)
    ensures |rows| == |s| && forall i :: 0 <= i < |s| ==> rows[i] == Row(s[i].base, s[i].start, s[i].end)
  {
    if s == [] then [] else [Row(s[0].base, s[0].start, s[0].end)] + EconomyRows(s[1..])
  }

  function AbsenceRows(s: seq<Absence>): (rows: seq<Row>)
    ensures |rows| == |s| && forall i :: 0 <= i < |s| ==> rows[i] == Row(s[i].worker, s[i].start, s[i].end)
  {
    if s == [] then [] else [Row(s[0].worker, s[0].start, s[0].end)] + AbsenceRows(s[1..])
  }

  ghost predicate EconomyConsistent(inp: Input) {
    Consistent(inp.(absences := []))
  }

  lemma {:induction false} EconomyRowsDecide(inp: Input)
    requires WellFormed(inp)
    ensures forall r :: r in EconomyRows(inp.economics) ==> r.start < r.end
    ensures var rows := EconomyRows(inp.economics);
            AllRowsApart(rows) <==> EconomyConsistent(inp)
  {
    var s, rows := inp.economics, EconomyRows(inp.economics);
    hide EconomyRows, Curve.ValidModel, Disjoint;
    forall r | r in rows
      ensures r.start < r.end
    {
      var i :| 0 <= i < |rows| && rows[i] == r;
      assert s[i] in s;
    }
    if AllRowsApart(rows) {
      forall i, j | 0 <= i < j < |s| && s[i].base == s[j].base
        ensures Disjoint(s[i].start, s[i].end, s[j].start, s[j].end)
      {
        assert RowsApart(rows[i], rows[j]);
      }
    } else {
      var i, j :| 0 <= i < j < |rows| && !RowsApart(rows[i], rows[j]);
      assert s[i].base == s[j].base;
    }
  }

  lemma {:induction false} AbsenceRowsDecide(inp: Input)
    requires WellFormed(inp)
    ensures forall r :: r in AbsenceRows(inp.absences) ==> r.start < r.end
    ensures var rows := AbsenceRows(inp.absences);
            EconomyConsistent(inp) && AllRowsApart(rows) <==> Consistent(inp)
  {
    var s, rows := inp.absences, AbsenceRows(inp.absences);
    hide AbsenceRows, Curve.ValidModel, Disjoint;
    forall r | r in rows
      ensures r.start < r.end
    {
      var i :| 0 <= i < |rows| && rows[i] == r;
      assert s[i] in s;
    }
    if AllRowsApart(rows) {
      forall i, j | 0 <= i < j < |s| && s[i].worker == s[j].worker
        ensures Disjoint(s[i].start, s[i].end, s[j].start, s[j].end)
      {
        assert RowsApart(rows[i], rows[j]);
      }
    } else {
      var i, j :| 0 <= i < j < |rows| && !RowsApart(rows[i], rows[j]);
      assert s[i].worker == s[j].worker;
    }
  }

  /** Validation of the two tables. */
  method ValidateTables(inp: Input) returns (error: Error, ok: bool)
    requires WellFormed(inp)
    ensures ok <==> Consistent(inp)
    ensures !ok ==> error == if EconomyConsistent(inp) then OverlappingWorker else OverlappingEconomy
  {
    hide *;
    error := OverlappingEconomy;
    EconomyRowsDecide(inp);
    AbsenceRowsDecide(inp);
    ok := ValidateRows(EconomyRows(inp.economics));
    if ok {
      error := OverlappingWorker;
      ok := ValidateRows(AbsenceRows(inp.absences));
    }
  }

  /** Every base has a state in every frame of a non-empty coverage. */
  ghost predicate Covered(inp: Input, c: Coverage) {
    c.start < c.end ==> BaseIds(inp) != {} && forall b :: b in BaseIds(inp) ==> Complete(inp, b, c)
  }

  ghost predicate InRange(inp: Input, c: Coverage) {
    forall b :: b in BaseIds(inp) ==> InRangeUpTo(inp, b, c.start, c.end)
  }

  method ValidateCoverage(inp: Input, c: Coverage) returns (ok: bool)
    requires c.start < c.end
    ensures ok <==> Covered(inp, c)
  {
    var bases := Bases(inp);
    if bases == [] {
      assert BaseIds(inp) == {} by {
        if BaseIds(inp) != {} { var b := Pick(BaseIds(inp)); assert false; }
      }
      return false;
    }
    assert bases[0] in bases;
    for i := 0 to |bases|
      invariant forall k :: 0 <= k < i ==> Complete(inp, bases[k], c)
    {
      hide Complete;
      var complete := CoverageComplete(inp, bases[i], c);
      if !complete {
        assert bases[i] in bases;
        return false;
      }
    }
    ok := true;
  }

  predicate SegmentBefore(x: Segment, y: Segment) {
    x.start < y.start || (x.start == y.start && (x.end < y.end || (x.end == y.end && x.base <= y.base)))
  }

  /** Every frame of every base lies in one of the segments. */
  ghost predicate AllFramesCovered(segments: seq<Segment>, bases: seq<Id>, c: Coverage) {
    forall b, f :: b in bases && c.start <= f < c.end ==> FrameCovered(segments, b, f)
  }

  ghost predicate FrameCovered(segments: seq<Segment>, b: Id, f: int) {
    exists s :: s in segments && s.base == b && s.start <= f < s.end
  }

  /** No frame of a base is reported twice. */
  ghost predicate EachOnce(segments: seq<Segment>) {
    && (forall x, y :: x in segments && y in segments && x != y && x.base == y.base ==> NotShared(x, y))
    && Unrepeated(segments)
  }

  predicate Unrepeated(segments: seq<Segment>) { forall i, j :: 0 <= i < j < |segments| ==> segments[i] != segments[j] }

  predicate NotShared(x: Segment, y: Segment) { x.end <= y.start || y.end <= x.start }

  ghost predicate BasesNamed(segments: seq<Segment>, bases: seq<Id>) {
    forall s :: s in segments ==> s.base in bases
  }

  /** The segments lie between the boundaries of their bases, inside the coverage, and do not
      share a frame of a base. */
  ghost predicate LaidOut(inp: Input, c: Coverage, segments: seq<Segment>, bases: seq<Id>) {
    AllBetween(inp, c, segments) && EachOnce(segments) && BasesNamed(segments, bases)
  }

  lemma {:induction false} TilesAscend(inp: Input, c: Coverage, segments: seq<Segment>, b: Id, lo: int, hi: int, i: nat, j: nat)
    requires Tiles(segments, b, lo, hi) && AllBetween(inp, c, segments) && i < j < |segments|
    ensures segments[i].end <= segments[j].start
    decreases j
  {
    assert Adjoin(segments, j);
    assert segments[j - 1] in segments;
    if i < j - 1 {
      TilesAscend(inp, c, segments, b, lo, hi, i, j - 1);
    }
  }

  lemma {:induction false} TilesOnce(inp: Input, c: Coverage, segments: seq<Segment>, b: Id, lo: int, hi: int)
    requires Tiles(segments, b, lo, hi) && AllBetween(inp, c, segments)
    ensures EachOnce(segments)
  {
    forall i, j | 0 <= i < j < |segments|
      ensures segments[i].end <= segments[j].start && segments[i] != segments[j]
    {
      TilesAscend(inp, c, segments, b, lo, hi, i, j);
      assert segments[i] in segments && segments[j] in segments;
    }
    hide AllBetween, Tiles;
    forall x, y | x in segments && y in segments && x != y
      ensures NotShared(x, y)
    {
      var i :| 0 <= i < |segments| && segments[i] == x;
      var j :| 0 <= j < |segments| && segments[j] == y;
    }
  }

  /** The segments of one more base. */
  lemma {:induction false} MoreLaidOut(inp: Input, c: Coverage, segments: seq<Segment>, more: seq<Segment>, bases: seq<Id>, b: Id)
    requires LaidOut(inp, c, segments, bases) && b !in bases
    requires Tiles(more, b, c.start, c.end) && AllBetween(inp, c, more)
    ensures LaidOut(inp, c, segments + more, bases + [b])
  {
    TilesOnce(inp, c, more, b, c.start, c.end);
    forall s | s in more
      ensures s.base == b
    {
      var i :| 0 <= i < |more| && more[i] == s;
    }
    hide Tiles, BetweenBoundaries, NotShared;
    var all := segments + more;
    forall i, j | 0 <= i < j < |all|
      ensures all[i] != all[j]
    {
      if i < |segments| <= j {
        assert all[i] in segments && all[j] in more;
      }
    }
  }

  /** Sorting keeps it, and brings the segments of each base into their order. */
  lemma {:induction false} SortLaidOut(inp: Input, c: Coverage, segments: seq<Segment>, bases: seq<Id>)
    requires LaidOut(inp, c, segments, bases)
    ensures LaidOut(inp, c, Sort(SegmentBefore, segments), bases)
  {
    var ordered := Sort(SegmentBefore, segments);
    DistinctSegments(segments);
    hide Sort, SegmentBefore, Unrepeated, NotShared, AllBetween, BasesNamed;
    forall s
      ensures s in ordered <==> s in segments
    {
      SameMember(ordered, segments, s);
    }
    SameSegments(inp, c, segments, ordered, bases);
  }

  lemma {:induction false} SameSegments(inp: Input, c: Coverage, segments: seq<Segment>, ordered: seq<Segment>, bases: seq<Id>)
    requires LaidOut(inp, c, segments, bases) && forall s :: s in ordered <==> s in segments
    requires Unrepeated(ordered)
    ensures LaidOut(inp, c, ordered, bases)
  {
    hide BetweenBoundaries, NotShared, Unrepeated;
  }

  lemma {:induction false} DistinctSegments(segments: seq<Segment>)
    requires Unrepeated(segments)
    ensures Unrepeated(Sort(SegmentBefore, segments))
  {
    hide Sort, SegmentBefore;
    var apart := (x: Segment, y: Segment) => x != y;
    SortPairwise(SegmentBefore, apart, segments);
    var ordered := Sort(SegmentBefore, segments);
    forall i, j | 0 <= i < j < |ordered|
      ensures ordered[i] != ordered[j]
    {
      assert apart(ordered[i], ordered[j]);
    }
  }

  lemma {:induction false} TilesReach(segments: seq<Segment>, b: Id, lo: int, hi: int, f: int)
    requires Tiles(segments, b, lo, hi) && lo <= f < hi
    ensures FrameCovered(segments, b, f)
  {
    var n := |segments| - 1;
    var s := segments[n];
    assert s in segments;
    if f < s.start {
      assert n > 0 && Adjoin(segments, n);
      forall i | 0 < i < n
        ensures Adjoin(segments[..n], i)
      {
        assert Adjoin(segments, i);
      }
      TilesReach(segments[..n], b, lo, s.start, f);
      assert forall x :: x in segments[..n] ==> x in segments;
    }
  }

  /** The result is exact: the totals are sums over bases and frames, each breakdown adds
      up to the total, and the segments are exact and reach every frame. */
  ghost predicate CostIsExact(inp: Input, c: Coverage, cost: Cost)
    requires Curve.ValidModel(inp.model)
  {
    && TotalsAre(inp, c, if c.start < c.end then Bases(inp) else [], cost)
    && AllExact(inp, cost.segments)
    && AllFramesCovered(cost.segments, Bases(inp), c)
    && LaidOut(inp, c, cost.segments, Bases(inp)) && SortedBy(SegmentBefore, cost.segments)
  }

  /** The order in which the errors are looked for. */
  ghost function FirstError(inp: Input, c: Coverage): Error {
    if !EconomyConsistent(inp) then OverlappingEconomy
    else if !Consistent(inp) then OverlappingWorker
    else if !Covered(inp, c) then MissingState
    else CountOutOfRange
  }

  // ----- The answer in terms of the rows alone -----

  predicate Within(start: nat, end: nat, f: int) { start <= f < end }

  lemma {:induction false} RowsNameBases(inp: Input, b: Id)
    ensures b in BaseIds(inp) <==> (exists e :: e in inp.economics && e.base == b) || (exists a :: a in inp.absences && a.base == b)
    ensures b in Bases(inp) <==> b in BaseIds(inp)
  {
  }

  /** After a success the rows name some base, and every base that a row names has a state in
      every frame of the coverage. */
  lemma {:induction false} CoveredOnRows(inp: Input, c: Coverage)
    requires c.start < c.end && Covered(inp, c)
    ensures inp.economics != []
    ensures forall e, f :: e in inp.economics && Within(c.start, c.end, f) ==>
              exists s :: s in inp.economics && s.base == e.base && Within(s.start, s.end, f)
    ensures forall a, f :: a in inp.absences && Within(c.start, c.end, f) ==>
              exists s :: s in inp.economics && s.base == a.base && Within(s.start, s.end, f)
  {
    hide BaseIds;
    forall b, f | b in BaseIds(inp) && Within(c.start, c.end, f)
      ensures exists s :: s in inp.economics && s.base == b && Within(s.start, s.end, f)
    {
      assert Known(inp, b, f);
    }
    hide Covered;
    forall e | e in inp.economics
      ensures e.base in BaseIds(inp)
    {
      RowsNameBases(inp, e.base);
    }
    forall a | a in inp.absences
      ensures a.base in BaseIds(inp)
    {
      RowsNameBases(inp, a.base);
    }
    SomeState(inp, c);
  }

  lemma {:induction false} SomeState(inp: Input, c: Coverage)
    requires c.start < c.end && Covered(inp, c)
    ensures inp.economics != []
  {
    var b := Pick(BaseIds(inp));
    assert Complete(inp, b, c);
    assert Known(inp, b, c.start);
  }

  /** The keys of the breakdowns: the bases that rows name, and the workers and categories of
      the absences that meet the coverage. */
  lemma {:induction false} KeysOnRows(inp: Input, c: Coverage, cost: Cost)
    requires WellFormed(inp) && c.start < c.end && CostIsExact(inp, c, cost)
    ensures forall b :: b in cost.byBase <==>
              (exists e :: e in inp.economics && e.base == b) || (exists a :: a in inp.absences && a.base == b)
    ensures forall w :: w in cost.byWorker <==>
              exists a :: a in inp.absences && a.worker == w && a.start < c.end && c.start < a.end
    ensures forall k :: k in cost.byCategory <==>
              exists a :: a in inp.absences && a.category == k && a.start < c.end && c.start < a.end
  {
    hide *;
    forall b
      ensures b in cost.byBase <==>
                (exists e :: e in inp.economics && e.base == b) || (exists a :: a in inp.absences && a.base == b)
    {
      BaseKeyOnRows(inp, c, cost, b);
    }
    forall w
      ensures w in cost.byWorker <==>
                exists a :: a in inp.absences && a.worker == w && a.start < c.end && c.start < a.end
    {
      WorkerKeyOnRows(inp, c, cost, w);
    }
    forall k
      ensures k in cost.byCategory <==>
                exists a :: a in inp.absences && a.category == k && a.start < c.end && c.start < a.end
    {
      CategoryKeyOnRows(inp, c, cost, k);
    }
  }

  lemma {:induction false} BaseKeyOnRows(inp: Input, c: Coverage, cost: Cost, b: Id)
    requires WellFormed(inp) && c.start < c.end && CostIsExact(inp, c, cost)
    ensures b in cost.byBase <==>
              (exists e :: e in inp.economics && e.base == b) || (exists a :: a in inp.absences && a.base == b)
  {
    TotalsHaveKeys(inp, c, cost);
    RowsNameBases(inp, b);
    hide *;
  }

  lemma {:induction false} WorkerKeyOnRows(inp: Input, c: Coverage, cost: Cost, w: Id)
    requires WellFormed(inp) && c.start < c.end && CostIsExact(inp, c, cost)
    ensures w in cost.byWorker <==>
              exists a :: a in inp.absences && a.worker == w && a.start < c.end && c.start < a.end
  {
    TotalsHaveKeys(inp, c, cost);
    WorkerOnRows(inp, c, w);
    hide *;
  }

  lemma {:induction false} CategoryKeyOnRows(inp: Input, c: Coverage, cost: Cost, k: Id)
    requires WellFormed(inp) && c.start < c.end && CostIsExact(inp, c, cost)
    ensures k in cost.byCategory <==>
              exists a :: a in inp.absences && a.category == k && a.start < c.end && c.start < a.end
  {
    TotalsHaveKeys(inp, c, cost);
    CategoryOnRows(inp, c, k);
    hide *;
  }

  /** The amounts are sums over the frames of the coverage, and every breakdown adds up. */
  lemma {:induction false} TotalsOnFrames(inp: Input, c: Coverage, cost: Cost)
    requires WellFormed(inp) && c.start < c.end && CostIsExact(inp, c, cost)
    ensures cost.total == TotalCost(inp, c.start, c.end)
    ensures cost.total == MapSum(cost.byBase) == MapSum(cost.byWorker) == MapSum(cost.byCategory)
    ensures forall b :: b in cost.byBase ==> cost.byBase[b] == Integral(LossCurve(inp, b), c.start, c.end)
    ensures forall w :: w in cost.byWorker ==> cost.byWorker[w] == WorkerCost(inp, w, c.start, c.end)
    ensures forall k :: k in cost.byCategory ==> cost.byCategory[k] == CategoryCost(inp, k, c.start, c.end)
  {
    hide Curve.ValidModel, AllExact, AllFramesCovered, LaidOut, SumOver, Integral, WorkerMissed, CategoryMissed, MapSum, Bases;
    assert forall w :: Get(cost.byWorker, w) == SumOver(Bases(inp), WorkerCosts(inp, w, c.start, c.end));
    assert forall k :: Get(cost.byCategory, k) == SumOver(Bases(inp), CategoryCosts(inp, k, c.start, c.end));
    hide WorkerCosts, CategoryCosts;
    forall w | w in cost.byWorker
      ensures cost.byWorker[w] == WorkerCost(inp, w, c.start, c.end)
    {
      assert Get(cost.byWorker, w) == cost.byWorker[w];
    }
    forall k | k in cost.byCategory
      ensures cost.byCategory[k] == CategoryCost(inp, k, c.start, c.end)
    {
      assert Get(cost.byCategory, k) == cost.byCategory[k];
    }
  }

  /** The segments are ordered by start, those of one base follow one another, and every base
      that has an amount has a segment for every frame of the coverage and no other. */
  lemma {:induction false} SegmentsOnFrames(inp: Input, c: Coverage, cost: Cost)
    requires WellFormed(inp) && c.start < c.end && CostIsExact(inp, c, cost)
    ensures forall s :: s in cost.segments ==> s.base in cost.byBase && c.start <= s.start < s.end <= c.end
    ensures forall b, f :: b in cost.byBase && Within(c.start, c.end, f) ==>
              exists s :: s in cost.segments && s.base == b && Within(s.start, s.end, f)
    ensures forall i, j :: 0 <= i < j < |cost.segments| && cost.segments[i].base == cost.segments[j].base ==>
              cost.segments[i].end <= cost.segments[j].start
    ensures forall i, j :: 0 <= i < j < |cost.segments| ==> cost.segments[i].start <= cost.segments[j].start
  {
    TotalsHaveKeys(inp, c, cost);
    hide Curve.ValidModel, TotalsAre, AllExact, AllFramesCovered, LaidOut, SegmentBefore, Bases;
    forall s | s in cost.segments
      ensures s.base in cost.byBase && c.start <= s.start < s.end <= c.end
    {
      SegmentInside(inp, c, cost.segments, Bases(inp), s);
    }
    forall b, f | b in cost.byBase && Within(c.start, c.end, f)
      ensures exists s :: s in cost.segments && s.base == b && Within(s.start, s.end, f)
    {
      SegmentReaches(cost.segments, Bases(inp), c, b, f);
    }
    forall i, j | 0 <= i < j < |cost.segments|
      ensures cost.segments[i].start <= cost.segments[j].start
      ensures cost.segments[i].base == cost.segments[j].base ==> cost.segments[i].end <= cost.segments[j].start
    {
      SegmentsFollow(inp, c, cost.segments, Bases(inp), i, j);
    }
  }

  lemma {:induction false} SegmentInside(inp: Input, c: Coverage, segments: seq<Segment>, bases: seq<Id>, s: Segment)
    requires LaidOut(inp, c, segments, bases) && s in segments
    ensures s.base in bases && c.start <= s.start < s.end <= c.end
  {
    hide EachOnce, Boundary;
    assert BetweenBoundaries(inp, c, s);
  }

  lemma {:induction false} SegmentReaches(segments: seq<Segment>, bases: seq<Id>, c: Coverage, b: Id, f: int)
    requires AllFramesCovered(segments, bases, c) && b in bases && Within(c.start, c.end, f)
    ensures exists s :: s in segments && s.base == b && Within(s.start, s.end, f)
  {
    assert FrameCovered(segments, b, f);
    var s :| s in segments && s.base == b && s.start <= f < s.end;
    assert Within(s.start, s.end, f);
  }

  lemma {:induction false} SegmentsFollow(inp: Input, c: Coverage, segments: seq<Segment>, bases: seq<Id>, i: nat, j: nat)
    requires LaidOut(inp, c, segments, bases) && SortedBy(SegmentBefore, segments) && i < j < |segments|
    ensures segments[i].start <= segments[j].start
    ensures segments[i].base == segments[j].base ==> segments[i].end <= segments[j].start
  {
    assert SegmentBefore(segments[i], segments[j]);
    assert segments[i] in segments && segments[j] in segments;
    SegmentInside(inp, c, segments, bases, segments[i]);
    SegmentInside(inp, c, segments, bases, segments[j]);
    hide BasesNamed, AllBetween;
    if segments[i].base == segments[j].base {
      assert NotShared(segments[i], segments[j]);
    }
  }

  /** A segment runs from one start or end of a row of its base to the next, or to the end of the
      coverage. */
  lemma {:induction false} SegmentBounds(inp: Input, c: Coverage, cost: Cost, s: Segment, t: int)
    requires WellFormed(inp) && CostIsExact(inp, c, cost) && s in cost.segments
    ensures var bound := (exists e :: e in inp.economics && e.base == s.base && (e.start == t || e.end == t))
                         || (exists a :: a in inp.absences && a.base == s.base && (a.start == t || a.end == t));
            && (t == s.start && t != c.start ==> bound)
            && (t == s.end && t != c.end ==> bound)
            && (s.start < t < s.end ==> !bound)
  {
    hide Curve.ValidModel, TotalsAre, AllExact, AllFramesCovered, EachOnce, BasesNamed;
    assert BetweenBoundaries(inp, c, s);
    assert Boundary(inp, s.base, t)
      <==> (exists e :: e in inp.economics && e.base == s.base && (e.start == t || e.end == t))
           || (exists a :: a in inp.absences && a.base == s.base && (a.start == t || a.end == t));
    hide Boundary;
  }

  /** In each of its frames a segment has that frame's state, absentees and rate of loss. */
  lemma {:induction false} SegmentOnRows(inp: Input, c: Coverage, cost: Cost, s: Segment, e: Economy, f: int)
    requires WellFormed(inp) && Consistent(inp) && CostIsExact(inp, c, cost) && s in cost.segments
    requires e in inp.economics && e.base == s.base && Within(e.start, e.end, f) && Within(s.start, s.end, f)
    ensures var absent := set a | a in inp.absences && a.base == e.base && Within(a.start, a.end, f);
            && s.active == e.active && s.patches == e.patches && s.absent == |absent|
            && s.lossRate == Curve.Rate(inp.model, e.active + |absent|, e.patches) - Curve.Rate(inp.model, e.active, e.patches)
            && s.loss == Times(s.end - s.start, s.lossRate * 0.042)
  {
    ExactSegments(inp, c, cost, s);
    SegmentLoss(inp, s);
    SegmentFrame(inp, s, f);
    StateIsUnique(inp, e, e.base, f);
    LossOnRows(inp, e, f, 0);
    AbsentOnRows(inp, e.base, f);
    hide *;
  }

  lemma {:induction false} AbsentOnRows(inp: Input, b: Id, f: int)
    ensures AbsentAt(inp, b, f) == set a | a in inp.absences && a.base == b && Within(a.start, a.end, f)
  {
  }

  lemma {:induction false} ExactSegments(inp: Input, c: Coverage, cost: Cost, s: Segment)
    requires Curve.ValidModel(inp.model) && CostIsExact(inp, c, cost) && s in cost.segments
    ensures SegmentIsExact(inp, s)
  {
    hide SegmentIsExact, TotalsAre, AllFramesCovered, LaidOut;
  }

  lemma {:induction false} SegmentFrame(inp: Input, s: Segment, f: int)
    requires Curve.ValidModel(inp.model) && SegmentIsExact(inp, s) && s.start <= f < s.end
    ensures Known(inp, s.base, f) && StateAt(inp, s.base, f).active == s.active && StateAt(inp, s.base, f).patches == s.patches
    ensures |AbsentAt(inp, s.base, f)| == s.absent && LossAt(inp, s.base, f) == s.lossRate * 0.042
  {
    hide Curve.ValidModel, Known, StateAt, AbsentAt, LossAt, Integral, EntryAt, HasEntry, EntrySum, AscendingEntries, IsAbsent;
  }

  lemma {:induction false} SegmentLoss(inp: Input, s: Segment)
    requires Curve.ValidModel(inp.model) && SegmentIsExact(inp, s)
    ensures s.start < s.end && s.loss == Times(s.end - s.start, s.lossRate * 0.042)
  {
    hide Curve.ValidModel, Known, StateAt, AbsentAt, LossAt, EntryAt, HasEntry, EntrySum, AscendingEntries, IsAbsent, Times, Integral;
    IntegralOfConstant(LossCurve(inp, s.base), s.start, s.end, s.lossRate * 0.042);
  }

  /** A segment lists, in order, exactly the workers and categories absent in its frames, each with
      its shares over those frames; both lists add up to the segment's loss. */
  lemma {:induction false} SegmentShares(inp: Input, c: Coverage, cost: Cost, s: Segment, f: int, w: Id)
    requires WellFormed(inp) && CostIsExact(inp, c, cost) && s in cost.segments && Within(s.start, s.end, f)
    ensures HasEntry(s.workerLosses, w)
       <==> exists a :: a in inp.absences && a.base == s.base && a.worker == w && Within(a.start, a.end, f)
    ensures HasEntry(s.categoryLosses, w)
       <==> exists a :: a in inp.absences && a.base == s.base && a.category == w && Within(a.start, a.end, f)
    ensures AscendingEntries(s.workerLosses) && AscendingEntries(s.categoryLosses)
    ensures EntrySum(s.workerLosses) == s.loss && EntrySum(s.categoryLosses) == s.loss
    ensures EntryAt(s.workerLosses, w) == Integral(WorkerCurve(inp, s.base, w), s.start, s.end)
    ensures EntryAt(s.categoryLosses, w) == Integral(CategoryCurve(inp, s.base, w), s.start, s.end)
  {
    ExactSegments(inp, c, cost, s);
    hide CostIsExact, Curve.ValidModel, Known, StateAt, LossAt, EntryAt, HasEntry, EntrySum, AscendingEntries, Integral, LossCurve, WorkerCurve, CategoryCurve;
    assert HasEntry(s.workerLosses, w) <==> IsAbsent(inp, s.base, w, f);
    assert HasEntry(s.categoryLosses, w) <==> InCategory(AbsentAt(inp, s.base, f), w) != {};
    hide SegmentIsExact;
    AbsenteesOnRows(inp, s.base, f, w);
  }

  lemma {:induction false} AbsenteesOnRows(inp: Input, b: Id, f: int, w: Id)
    ensures IsAbsent(inp, b, w, f) <==> exists a :: a in inp.absences && a.base == b && a.worker == w && Within(a.start, a.end, f)
    ensures InCategory(AbsentAt(inp, b, f), w) != {}
       <==> exists a :: a in inp.absences && a.base == b && a.category == w && Within(a.start, a.end, f)
  {
    if a :| a in inp.absences && a.base == b && a.worker == w && Within(a.start, a.end, f) {
      assert a in AbsentAt(inp, b, f);
    }
    if a :| a in inp.absences && a.base == b && a.category == w && Within(a.start, a.end, f) {
      assert a in InCategory(AbsentAt(inp, b, f), w);
    }
    if InCategory(AbsentAt(inp, b, f), w) != {} {
      var a := Pick(InCategory(AbsentAt(inp, b, f), w));
      assert a in AbsentAt(inp, b, f);
    }
  }

  lemma {:induction false} TotalsHaveKeys(inp: Input, c: Coverage, cost: Cost)
    requires WellFormed(inp) && c.start < c.end && CostIsExact(inp, c, cost)
    ensures forall b :: b in cost.byBase <==> b in Bases(inp)
    ensures forall w :: w in cost.byWorker <==> WorkerMissed(inp, c, Bases(inp), w)
    ensures forall k :: k in cost.byCategory <==> CategoryMissed(inp, c, Bases(inp), k)
  {
    hide Curve.ValidModel, AllExact, AllFramesCovered, LaidOut, SumOver, Integral, WorkerMissed, CategoryMissed, MapSum, Bases;
  }

  /** The first frame of an absence inside the coverage. */
  lemma {:induction false} AbsenceWithin(inp: Input, c: Coverage, a: Absence)
    requires WellFormed(inp) && c.start < c.end && a in inp.absences && a.start < c.end && c.start < a.end
    ensures a.base in Bases(inp)
    ensures AbsentWithin(inp, a.base, a.worker, c.start, c.end) && CategoryWithin(inp, a.base, a.category, c.start, c.end)
  {
    RowsNameBases(inp, a.base);
    var f := if a.start < c.start then c.start else a.start;
    assert a in AbsentAt(inp, a.base, f);
    assert IsAbsent(inp, a.base, a.worker, f);
    assert a in InCategory(AbsentAt(inp, a.base, f), a.category);
  }

  lemma {:induction false} WorkerOnRows(inp: Input, c: Coverage, w: Id)
    requires WellFormed(inp) && c.start < c.end
    ensures WorkerMissed(inp, c, Bases(inp), w)
       <==> exists a :: a in inp.absences && a.worker == w && a.start < c.end && c.start < a.end
  {
    hide Bases;
    if a :| a in inp.absences && a.worker == w && a.start < c.end && c.start < a.end {
      AbsenceWithin(inp, c, a);
    }
    if WorkerMissed(inp, c, Bases(inp), w) {
      var b :| b in Bases(inp) && AbsentWithin(inp, b, w, c.start, c.end);
      var f :| Within(c.start, c.end, f) && IsAbsent(inp, b, w, f);
      var a := TheAbsence(inp, b, w, f);
    }
  }

  lemma {:induction false} TheAbsence(inp: Input, b: Id, w: Id, f: int) returns (a: Absence)
    requires IsAbsent(inp, b, w, f)
    ensures a in inp.absences && a.base == b && a.worker == w && a.start <= f < a.end
  {
    a :| a in AbsentAt(inp, b, f) && a.worker == w;
  }

  lemma {:induction false} CategoryOnRows(inp: Input, c: Coverage, k: Id)
    requires WellFormed(inp) && c.start < c.end
    ensures CategoryMissed(inp, c, Bases(inp), k)
       <==> exists a :: a in inp.absences && a.category == k && a.start < c.end && c.start < a.end
  {
    hide Bases;
    if a :| a in inp.absences && a.category == k && a.start < c.end && c.start < a.end {
      AbsenceWithin(inp, c, a);
    }
    if CategoryMissed(inp, c, Bases(inp), k) {
      var b :| b in Bases(inp) && CategoryWithin(inp, b, k, c.start, c.end);
      var f :| Within(c.start, c.end, f) && InCategory(AbsentAt(inp, b, f), k) != {};
      var a := Pick(InCategory(AbsentAt(inp, b, f), k));
    }
  }

  /** What each error says about the rows. */
  lemma {:induction false} OverlapIsShared(s1: nat, e1: nat, s2: nat, e2: nat)
    requires s1 < e1 && s2 < e2
    ensures !Disjoint(s1, e1, s2, e2) <==> exists f :: Within(s1, e1, f) && Within(s2, e2, f)
  {
    var f := if s1 < s2 then s2 else s1;
    assert !Disjoint(s1, e1, s2, e2) ==> Within(s1, e1, f) && Within(s2, e2, f);
  }

  /** Two states of one base share a frame. */
  ghost predicate EconomyClash(inp: Input, i: nat, j: nat) {
    && i < j < |inp.economics| && inp.economics[i].base == inp.economics[j].base
    && exists f :: Within(inp.economics[i].start, inp.economics[i].end, f) && Within(inp.economics[j].start, inp.economics[j].end, f)
  }

  /** Two absences of one worker share a frame. */
  ghost predicate WorkerClash(inp: Input, i: nat, j: nat) {
    && i < j < |inp.absences| && inp.absences[i].worker == inp.absences[j].worker
    && exists f :: Within(inp.absences[i].start, inp.absences[i].end, f) && Within(inp.absences[j].start, inp.absences[j].end, f)
  }

  /** Frame `f` of a base that some row names has no state. */
  ghost predicate Uncovered(inp: Input, b: Id, f: int) {
    && ((exists e :: e in inp.economics && e.base == b) || (exists a :: a in inp.absences && a.base == b))
    && forall s :: s in inp.economics && s.base == b ==> !(Within(s.start, s.end, f))
  }

  /** The coverage is not empty, but no row names a base, or some frame has no state. */
  ghost predicate NoState(inp: Input, c: Coverage) {
    && c.start < c.end
    && ((inp.economics == [] && inp.absences == []) || exists b, f :: Within(c.start, c.end, f) && Uncovered(inp, b, f))
  }

  /** In frame `f` the workers of `e` and the absent ones together are too many. */
  ghost predicate TooMany(inp: Input, e: Economy, f: int) {
    && e in inp.economics && Within(e.start, e.end, f)
    && e.active + |set a | a in inp.absences && a.base == e.base && Within(a.start, a.end, f)| > 1_000_000_000_000
  }

  lemma {:induction false} EconomyClashes(inp: Input)
    requires WellFormed(inp)
    ensures !EconomyConsistent(inp) <==> exists i, j :: EconomyClash(inp, i, j)
  {
    hide Curve.ValidModel, Disjoint;
    forall i, j | 0 <= i < j < |inp.economics|
      ensures EconomyClash(inp, i, j)
         <==> inp.economics[i].base == inp.economics[j].base
              && !Disjoint(inp.economics[i].start, inp.economics[i].end, inp.economics[j].start, inp.economics[j].end)
    {
      assert inp.economics[i] in inp.economics && inp.economics[j] in inp.economics;
      OverlapIsShared(inp.economics[i].start, inp.economics[i].end, inp.economics[j].start, inp.economics[j].end);
    }
    if !EconomyConsistent(inp) {
      var i, j :| 0 <= i < j < |inp.economics| && inp.economics[i].base == inp.economics[j].base
        && !Disjoint(inp.economics[i].start, inp.economics[i].end, inp.economics[j].start, inp.economics[j].end);
      assert EconomyClash(inp, i, j);
    }
  }

  lemma {:induction false} WorkerClashes(inp: Input)
    requires WellFormed(inp) && EconomyConsistent(inp)
    ensures !Consistent(inp) <==> exists i, j :: WorkerClash(inp, i, j)
  {
    hide Curve.ValidModel, Disjoint;
    forall i, j | 0 <= i < j < |inp.absences|
      ensures WorkerClash(inp, i, j)
         <==> inp.absences[i].worker == inp.absences[j].worker
              && !Disjoint(inp.absences[i].start, inp.absences[i].end, inp.absences[j].start, inp.absences[j].end)
    {
      assert inp.absences[i] in inp.absences && inp.absences[j] in inp.absences;
      OverlapIsShared(inp.absences[i].start, inp.absences[i].end, inp.absences[j].start, inp.absences[j].end);
    }
    if !Consistent(inp) {
      var i, j :| 0 <= i < j < |inp.absences| && inp.absences[i].worker == inp.absences[j].worker
        && !Disjoint(inp.absences[i].start, inp.absences[i].end, inp.absences[j].start, inp.absences[j].end);
      assert WorkerClash(inp, i, j);
    }
  }

  lemma {:induction false} FrameUncovered(inp: Input, c: Coverage)
    ensures !Covered(inp, c)
       <==> NoState(inp, c)
  {
    hide BaseIds;
    forall b, f: int
      ensures Uncovered(inp, b, f) <==> b in BaseIds(inp) && !Known(inp, b, f)
    {
      RowsNameBases(inp, b);
    }
    if inp.economics != [] {
      RowsNameBases(inp, inp.economics[0].base);
      assert inp.economics[0] in inp.economics;
    } else if inp.absences != [] {
      RowsNameBases(inp, inp.absences[0].base);
      assert inp.absences[0] in inp.absences;
    } else if BaseIds(inp) != {} {
      var b := Pick(BaseIds(inp));
      RowsNameBases(inp, b);
    }
    hide Known, Uncovered;
    if !Covered(inp, c) && BaseIds(inp) != {} {
      var b :| b in BaseIds(inp) && !Complete(inp, b, c);
      var f :| Within(c.start, c.end, f) && !Known(inp, b, f);
      assert Uncovered(inp, b, f);
    }
    if exists b, f :: Within(c.start, c.end, f) && Uncovered(inp, b, f) {
      var b, f :| Within(c.start, c.end, f) && Uncovered(inp, b, f);
      assert b in BaseIds(inp) && !Known(inp, b, f);
      assert !Complete(inp, b, c);
    }
  }

  lemma {:induction false} CountsTooHigh(inp: Input, c: Coverage)
    requires Consistent(inp)
    ensures !InRange(inp, c) <==> exists e, f :: Within(c.start, c.end, f) && TooMany(inp, e, f)
  {
    hide BaseIds, Consistent;
    forall e, f | e in inp.economics && Within(e.start, e.end, f)
      ensures TooMany(inp, e, f) <==> !InRangeAt(inp, e.base, f)
      ensures e.base in BaseIds(inp)
    {
      StateIsUnique(inp, e, e.base, f);
      RowsNameBases(inp, e.base);
      assert AbsentAt(inp, e.base, f) == set a | a in inp.absences && a.base == e.base && Within(a.start, a.end, f);
    }
    if !InRange(inp, c) {
      var b :| b in BaseIds(inp) && !InRangeUpTo(inp, b, c.start, c.end);
      var f :| Within(c.start, c.end, f) && !InRangeAt(inp, b, f);
      assert InRangeAt(inp, b, f) <==> (Known(inp, b, f) ==> StateAt(inp, b, f).active + |AbsentAt(inp, b, f)| <= Curve.MAX_COUNT);
      var e := StateAt(inp, b, f);
      assert TooMany(inp, e, f);
    }
    if exists e, f :: Within(c.start, c.end, f) && TooMany(inp, e, f) {
      var e, f :| Within(c.start, c.end, f) && TooMany(inp, e, f);
      assert !InRangeAt(inp, e.base, f);
    }
  }

  /** What each answer says about the rows: the first of four defects, or none. */
  lemma {:induction false} AnswerOnRows(inp: Input, c: Coverage)
    requires WellFormed(inp)
    ensures Consistent(inp) && Covered(inp, c) && InRange(inp, c)
       <==> !(exists i, j :: EconomyClash(inp, i, j)) && !(exists i, j :: WorkerClash(inp, i, j))
            && !NoState(inp, c)
            && !(exists e, f :: Within(c.start, c.end, f) && TooMany(inp, e, f))
    ensures FirstError(inp, c)
         == if exists i, j :: EconomyClash(inp, i, j) then OverlappingEconomy
            else if exists i, j :: WorkerClash(inp, i, j) then OverlappingWorker
            else if NoState(inp, c) then MissingState
            else CountOutOfRange
  {
    EconomyClashes(inp);
    EconomiesFirst(inp);
    hide Consistent, Covered, InRange, EconomyClash, WorkerClash, NoState, TooMany, EconomyConsistent, WellFormed;
    if EconomyConsistent(inp) {
      WorkerClashes(inp);
    }
    FrameUncovered(inp, c);
    if Consistent(inp) {
      CountsTooHigh(inp, c);
    }
  }

  lemma {:induction false} EconomiesFirst(inp: Input)
    ensures Consistent(inp) ==> EconomyConsistent(inp)
  {
    hide Disjoint;
  }

  /** The loss of one frame in terms of the rows: the rate with the absent workers back, less
      the rate without them, over the length of a frame, shared equally. */
  lemma {:induction false} LossOnRows(inp: Input, e: Economy, f: int, w: Id)
    requires WellFormed(inp) && Consistent(inp) && e in inp.economics && Within(e.start, e.end, f)
    ensures var absent := set a | a in inp.absences && a.base == e.base && Within(a.start, a.end, f);
            && LossAt(inp, e.base, f)
               == (Curve.Rate(inp.model, e.active + |absent|, e.patches) - Curve.Rate(inp.model, e.active, e.patches)) * 0.042
            && WorkerLossAt(inp, e.base, w, f)
               == if exists a :: a in absent && a.worker == w then LossAt(inp, e.base, f) / |absent| as real else 0.0
  {
    StateIsUnique(inp, e, e.base, f);
    var absent := set a | a in inp.absences && a.base == e.base && Within(a.start, a.end, f);
    assert AbsentAt(inp, e.base, f) == absent;
    hide Curve.Rate, Curve.ValidModel, Consistent;
    if a :| a in absent && a.worker == w {
      assert |absent| > 0 by {
        assert {a} <= absent;
      }
    }
  }

  /** A category carries one share for each of its absentees at the base. */
  lemma {:induction false} CategoryLossOnRows(inp: Input, b: Id, f: int, k: Id)
    requires Curve.ValidModel(inp.model)
    ensures var absent := set a | a in inp.absences && a.base == b && Within(a.start, a.end, f);
            var those := set a | a in inp.absences && a.base == b && Within(a.start, a.end, f) && a.category == k;
            CategoryLossAt(inp, b, k, f)
            == if |absent| == 0 then 0.0 else |those| as real * (LossAt(inp, b, f) / |absent| as real)
  {
    AbsentOnRows(inp, b, f);
    hide Curve.ValidModel, LossAt, AbsentAt;
    var absent := AbsentAt(inp, b, f);
    var those := set a | a in inp.absences && a.base == b && Within(a.start, a.end, f) && a.category == k;
    assert InCategory(absent, k) == those;
    if |absent| == 0 {
      ZeroShares(|those|);
    }
  }

  /** The calculation fails exactly on an overlap, on a frame without a state, or on an
      unsupported worker count, in that order; otherwise its result is exact. */
  method CalculateOpportunityCost(inp: Input, c: Coverage) returns (r: Outcome)
    requires WellFormed(inp) && c.start <= c.end
    ensures r.Computed? <==> Consistent(inp) && Covered(inp, c) && InRange(inp, c)
    ensures r.Computed? ==> CostIsExact(inp, c, r.cost)
    ensures r.Failed? ==> r.error == FirstError(inp, c)
    ensures r.Computed? && c.start < c.end ==>
              && (forall e, f :: e in inp.economics && Within(c.start, c.end, f) ==>
                    exists s :: s in inp.economics && s.base == e.base && Within(s.start, s.end, f))
              && (forall a, f :: a in inp.absences && Within(c.start, c.end, f) ==>
                    exists s :: s in inp.economics && s.base == a.base && Within(s.start, s.end, f))
    ensures r.Computed? && c.start < c.end ==>
              && (forall b :: b in r.cost.byBase <==>
                    (exists e :: e in inp.economics && e.base == b) || (exists a :: a in inp.absences && a.base == b))
              && (forall w :: w in r.cost.byWorker <==>
                    exists a :: a in inp.absences && a.worker == w && a.start < c.end && c.start < a.end)
              && (forall k :: k in r.cost.byCategory <==>
                    exists a :: a in inp.absences && a.category == k && a.start < c.end && c.start < a.end)
    ensures r.Computed? && c.start == c.end ==> r.cost == Cost(0.0, map[], map[], map[], [])
  {
    hide *;
    ModelIsValid(inp);
    EmptyCoverageIsCovered(inp, c);
    ErrorOrder(inp, c);
    var error, ok := ValidateTables(inp);
    if !ok {
      return Failed(error);
    }
    if c.start == c.end {
      EmptyCoverage(inp, c);
      return Computed(Cost(0.0, map[], map[], map[], []));
    }
    ok := ValidateCoverage(inp, c);
    if !ok {
      return Failed(MissingState);
    }
    r := SweepAll(inp, c);
    if r.Computed? {
      CoveredOnRows(inp, c);
      KeysOnRows(inp, c, r.cost);
    }
  }

  lemma {:induction false} ModelIsValid(inp: Input)
    requires WellFormed(inp)
    ensures Curve.ValidModel(inp.model)
  {
  }

  lemma {:induction false} EmptyCoverageIsCovered(inp: Input, c: Coverage)
    requires c.start == c.end || c.start < c.end
    ensures c.start == c.end ==> Covered(inp, c) && InRange(inp, c)
  {
  }

  lemma {:induction false} ErrorOrder(inp: Input, c: Coverage)
    ensures !Consistent(inp) ==> FirstError(inp, c) == if EconomyConsistent(inp) then OverlappingWorker else OverlappingEconomy
    ensures Consistent(inp) ==> FirstError(inp, c) == if Covered(inp, c) then CountOutOfRange else MissingState
  {
    hide Disjoint, Covered;
  }

  lemma {:induction false} EmptyCoverage(inp: Input, c: Coverage)
    requires Curve.ValidModel(inp.model) && c.start == c.end
    ensures InRange(inp, c) && Covered(inp, c) && CostIsExact(inp, c, Cost(0.0, map[], map[], map[], []))
  {
    MapSumEmpty<Id>();
  }

  /** What the sweep has established after the bases in `done`. */
  ghost predicate Progress(inp: Input, c: Coverage, done: seq<Id>, cost: Cost)
    requires Curve.ValidModel(inp.model)
  {
    && TotalsAre(inp, c, done, cost)
    && AllExact(inp, cost.segments) && AllFramesCovered(cost.segments, done, c)
    && LaidOut(inp, c, cost.segments, done)
    && forall b :: b in done ==> InRangeUpTo(inp, b, c.start, c.end)
  }

  /** Sweep one more base and add its amounts. */
  method SweepNext(inp: Input, c: Coverage, ghost done: seq<Id>, b: Id, cost: Cost) returns (r: Outcome)
    requires WellFormed(inp) && Consistent(inp) && c.start < c.end && Covered(inp, c)
    requires b in BaseIds(inp) && b !in done && Progress(inp, c, done, cost)
    ensures r.Computed? ==> Progress(inp, c, done + [b], r.cost)
    ensures r.Failed? ==> r.error == CountOutOfRange && !InRange(inp, c)
  {
    assert Complete(inp, b, c);
    assert Curve.ValidModel(inp.model);
    hide *;
    var swept := SweepBase(inp, b, c);
    if swept.SweepFailed? {
      NotInRange(inp, c, b);
      return Failed(swept.error);
    }
    ghost var loss;
    var next;
    next, loss := AddBase(inp, b, c, swept.segments, cost);
    ProgressStep(inp, c, done, b, cost, swept.segments, loss, next);
    r := Computed(next);
  }

  lemma {:induction false} ProgressStep(inp: Input, c: Coverage, done: seq<Id>, b: Id, cost: Cost, more: seq<Segment>, loss: real, next: Cost)
    requires Curve.ValidModel(inp.model) && Progress(inp, c, done, cost) && b !in done
    requires Tiles(more, b, c.start, c.end) && AllExact(inp, more) && AllBetween(inp, c, more)
    requires InRangeUpTo(inp, b, c.start, c.end)
    requires BaseAdded(inp, c, b, cost, loss, next) && next.segments == cost.segments + more
    ensures Progress(inp, c, done + [b], next)
  {
    hide Curve.ValidModel, TotalsAre, AllExact, AllFramesCovered, LaidOut, AllBetween, InRangeUpTo, BaseAdded, Tiles;
    TotalsGrow(inp, c, done, b, cost, loss, next);
    MoreFramesCovered(cost.segments, more, done, b, c);
    MoreLaidOut(inp, c, cost.segments, more, done, b);
    AllExactOfBoth(inp, cost.segments, more);
    assert forall x :: x in done + [b] <==> x in done || x == b;
  }

  method SweepAll(inp: Input, c: Coverage) returns (r: Outcome)
    requires WellFormed(inp) && Consistent(inp) && c.start < c.end && Covered(inp, c)
    ensures r.Computed? <==> InRange(inp, c)
    ensures r.Computed? ==> CostIsExact(inp, c, r.cost)
    ensures r.Failed? ==> r.error == CountOutOfRange
  {
    hide *;
    var bases := Bases(inp);
    var cost := Cost(0.0, map[], map[], map[], []);
    NothingYet(inp, c);
    for i := 0 to |bases|
      invariant Progress(inp, c, bases[..i], cost)
    {
      NextBase(inp, i);
      r := SweepNext(inp, c, bases[..i], bases[i], cost);
      if r.Failed? {
        return;
      }
      cost := r.cost;
    }
    assert bases[..|bases|] == bases;
    r := Computed(cost.(segments := Sort(SegmentBefore, cost.segments)));
    Conclude(inp, c, cost, r.cost);
  }

  lemma {:induction false} NothingYet(inp: Input, c: Coverage)
    requires WellFormed(inp)
    ensures Curve.ValidModel(inp.model)
    ensures Progress(inp, c, [], Cost(0.0, map[], map[], map[], []))
  {
    hide Curve.ValidModel;
    MapSumEmpty<Id>();
  }

  lemma {:induction false} NextBase(inp: Input, i: nat)
    requires i < |Bases(inp)|
    ensures Bases(inp)[i] in BaseIds(inp) && Bases(inp)[i] !in Bases(inp)[..i]
    ensures Bases(inp)[..i + 1] == Bases(inp)[..i] + [Bases(inp)[i]]
  {
    hide BaseIds;
    assert Bases(inp)[i] in Bases(inp);
  }

  lemma {:induction false} NotInRange(inp: Input, c: Coverage, b: Id)
    requires b in BaseIds(inp) && !InRangeUpTo(inp, b, c.start, c.end)
    ensures !InRange(inp, c)
  {
    hide InRangeUpTo, BaseIds;
  }

  lemma {:induction false} Conclude(inp: Input, c: Coverage, swept: Cost, cost: Cost)
    requires Curve.ValidModel(inp.model) && c.start < c.end && Progress(inp, c, Bases(inp), swept)
    requires cost == swept.(segments := Sort(SegmentBefore, swept.segments))
    ensures InRange(inp, c) && CostIsExact(inp, c, cost)
  {
    hide BaseTotals, WorkerTotals, CategoryTotals, MapSum, SumOver, AllExact, AllFramesCovered, LaidOut, InRangeUpTo, Curve.ValidModel, BaseIds;
    SortLaidOut(inp, c, swept.segments, Bases(inp));
    SortKeepsSegments(inp, swept.segments, Bases(inp), c);
    forall b | b in BaseIds(inp)
      ensures InRangeUpTo(inp, b, c.start, c.end)
    {
      assert b in Bases(inp);
    }
  }

  lemma {:induction false} AllExactOfBoth(inp: Input, segments: seq<Segment>, more: seq<Segment>)
    requires Curve.ValidModel(inp.model) && AllExact(inp, segments) && AllExact(inp, more)
    ensures AllExact(inp, segments + more)
  {
    hide SegmentIsExact;
  }

  lemma {:induction false} MoreFramesCovered(segments: seq<Segment>, more: seq<Segment>, bases: seq<Id>, b: Id, c: Coverage)
    requires AllFramesCovered(segments, bases, c) && Tiles(more, b, c.start, c.end)
    ensures AllFramesCovered(segments + more, bases + [b], c)
  {
    forall x, f | x in bases + [b] && c.start <= f < c.end
      ensures FrameCovered(segments + more, x, f)
    {
      if x in bases {
        assert FrameCovered(segments, x, f);
      } else {
        TilesReach(more, b, c.start, c.end, f);
        assert FrameCovered(more, x, f);
      }
      assert forall s :: s in segments || s in more <==> s in segments + more;
    }
  }

  lemma {:induction false} SortKeepsSegments(inp: Input, segments: seq<Segment>, bases: seq<Id>, c: Coverage)
    requires Curve.ValidModel(inp.model) && AllExact(inp, segments) && AllFramesCovered(segments, bases, c)
    ensures AllExact(inp, Sort(SegmentBefore, segments)) && AllFramesCovered(Sort(SegmentBefore, segments), bases, c)
    ensures SortedBy(SegmentBefore, Sort(SegmentBefore, segments))
  {
    hide SegmentIsExact, Curve.ValidModel;
    SortSorts(SegmentBefore, segments);
    var ordered := Sort(SegmentBefore, segments);
    forall s
      ensures s in ordered <==> s in segments
    {
      SameMember(ordered, segments, s);
    }
    forall b, f | b in bases && c.start <= f < c.end
      ensures FrameCovered(ordered, b, f)
    {
      assert FrameCovered(segments, b, f);
    }
  }
}
