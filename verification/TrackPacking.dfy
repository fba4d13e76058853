/** The build-order timeline packer of apps/sc-forge/build-order.override.js: first-fit
    packing of items into tracks is a permutation, never overlaps and uses as few tracks as
    any packing could; packing again puts every item back on its track. */
module TrackPacking {
  import opened Sorting

  /** A timeline item.  Repacking rewrites only its track index and its set. */
  class Item {
    const id: int
    const isUnit: bool
    const start: real
    const build: real
    var trackIndex: int
    var trackSetId: int

    constructor (id: int, isUnit: bool, start: real, build: real, trackIndex: int, trackSetId: int)
      ensures this.id == id && this.isUnit == isUnit && this.start == start && this.build == build
      ensures this.trackIndex == trackIndex && this.trackSetId == trackSetId
    {
      this.id, this.isUnit, this.start, this.build := id, isUnit, start, build;
      this.trackIndex, this.trackSetId := trackIndex, trackSetId;
    }
  }

  type Track = seq<Item>

  predicate Overlap(a: Item, b: Item) {
    a.start < b.start + b.build && a.start + a.build > b.start
  }

  /** `overlaps2` for an item that excludes its own id. */
  predicate OverlapsTrack(track: Track, x: Item) {
    exists i :: 0 <= i < |track| && track[i].id != x.id && Overlap(x, track[i])
  }

  ghost predicate UniqueIds(g: seq<Item>) {
    forall i, j :: 0 <= i < j < |g| ==> g[i].id != g[j].id
  }

  ghost predicate StartsAscend(g: seq<Item>) {
    forall i, j :: 0 <= i < j < |g| ==> g[i].start <= g[j].start
  }

  // ----- First fit -----

  /** The first track from `from` on that has room for `x`. */
  function FirstFit(tracks: seq<Track>, x: Item, from: nat): (r: nat)
    requires from <= |tracks|
    ensures from <= r <= |tracks|
    ensures forall ti :: from <= ti < r ==> OverlapsTrack(tracks[ti], x)
    ensures r < |tracks| ==> !OverlapsTrack(tracks[r], x)
    decreases |tracks| - from
  {
    if from == |tracks| || !OverlapsTrack(tracks[from], x) then from else FirstFit(tracks, x, from + 1)
  }

  function Place(tracks: seq<Track>, x: Item): seq<Track> {
    var ti := FirstFit(tracks, x, 0);
    if ti < |tracks| then tracks[ti := tracks[ti] + [x]] else tracks + [[x]]
  }

  /** The tracks after packing the first `n` items. */
  function PackFirst(g: seq<Item>, n: nat): seq<Track>
    requires n <= |g|
  {
    if n == 0 then [] else Place(PackFirst(g, n - 1), g[n - 1])
  }

  function PackAll(g: seq<Item>): seq<Track> { PackFirst(g, |g|) }

  /** The track that item `k` is put on. */
  function TrackAt(g: seq<Item>, k: nat): nat
    requires k < |g|
  {
    FirstFit(PackFirst(g, k), g[k], 0)
  }

  /** `pack`: for each item, try the tracks in order, else open a new one. */
  method Pack(g: seq<Item>) returns (tracks: seq<Track>)
    ensures tracks == PackAll(g)
  {
    tracks := [];
    for n := 0 to |g|
      invariant tracks == PackFirst(g, n)
    {
      var item, placed, ti := g[n], false, 0;
      while ti < |tracks| && !placed
        invariant ti <= |tracks|
        invariant !placed ==> tracks == PackFirst(g, n) && FirstFit(tracks, item, 0) == FirstFit(tracks, item, ti)
        invariant placed ==> tracks == PackFirst(g, n + 1)
        decreases |tracks| - ti, !placed
      {
        if !OverlapsTrack(tracks[ti], item) {
          tracks := tracks[ti := tracks[ti] + [item]];
          placed := true;
        } else {
          ti := ti + 1;
        }
      }
      if !placed {
        tracks := tracks + [[item]];
      }
    }
  }

  // ----- Where items end up -----

  lemma {:induction false} TracksGrow(g: seq<Item>, n: nat, m: nat, ti: nat, x: Item)
    requires n <= m <= |g|
    ensures |PackFirst(g, n)| <= |PackFirst(g, m)|
    ensures ti < |PackFirst(g, n)| && x in PackFirst(g, n)[ti] ==> x in PackFirst(g, m)[ti]
  {
    if n < m {
      TracksGrow(g, n, m - 1, ti, x);
      hide OverlapsTrack;
    }
  }

  lemma {:induction false} PlacedOnTrack(g: seq<Item>, k: nat, n: nat)
    requires k < n <= |g|
    ensures TrackAt(g, k) < |PackFirst(g, n)| && g[k] in PackFirst(g, n)[TrackAt(g, k)]
  {
    var ti := TrackAt(g, k);
    assert PackFirst(g, k + 1) == Place(PackFirst(g, k), g[k]);
    assert PackFirst(g, k + 1)[ti][|PackFirst(g, k + 1)[ti]| - 1] == g[k];
    TracksGrow(g, k + 1, n, ti, g[k]);
  }

  /** Whatever lies on a track was put there. */
  lemma {:induction false} Origin(g: seq<Item>, n: nat, ti: nat, x: Item) returns (k: nat)
    requires n <= |g| && ti < |PackFirst(g, n)| && x in PackFirst(g, n)[ti]
    ensures k < n && g[k] == x && TrackAt(g, k) == ti
  {
    hide OverlapsTrack;
    var before := PackFirst(g, n - 1);
    if ti < |before| && x in before[ti] {
      k := Origin(g, n - 1, ti, x);
    } else {
      k := n - 1;
    }
  }

  /** Two items on one track do not overlap. */
  lemma {:induction false} NoOverlapOnTrack(g: seq<Item>, a: nat, b: nat)
    requires UniqueIds(g) && a < b < |g| && TrackAt(g, a) == TrackAt(g, b)
    ensures !Overlap(g[a], g[b])
  {
    var tracks, ti := PackFirst(g, b), TrackAt(g, b);
    PlacedOnTrack(g, a, b);
    var i :| 0 <= i < |tracks[ti]| && tracks[ti][i] == g[a];
    assert !OverlapsTrack(tracks[ti], g[b]);
    hide PackFirst, TrackAt, FirstFit;
  }

  // ----- Permutation -----

  function Flatten(tracks: seq<Track>): seq<Item> {
    if tracks == [] then [] else Flatten(tracks[..|tracks| - 1]) + tracks[|tracks| - 1]
  }

  lemma {:induction false} FlattenPush(tracks: seq<Track>, ti: nat, x: Item)
    requires ti < |tracks|
    ensures multiset(Flatten(tracks[ti := tracks[ti] + [x]])) == multiset(Flatten(tracks)) + multiset{x}
  {
    hide Flatten;
    var front, last := tracks[..|tracks| - 1], tracks[|tracks| - 1];
    assert tracks == front + [last];
    FlattenSnoc(front, last);
    if ti < |front| {
      FlattenPush(front, ti, x);
      var pushed := front[ti := front[ti] + [x]];
      assert tracks[ti := tracks[ti] + [x]] == pushed + [last];
      FlattenSnoc(pushed, last);
    } else {
      assert tracks[ti := tracks[ti] + [x]] == front + [last + [x]];
      FlattenSnoc(front, last + [x]);
      assert Flatten(front) + (last + [x]) == Flatten(tracks) + [x];
    }
  }

  lemma {:induction false} PackIsPermutation(g: seq<Item>, n: nat)
    requires n <= |g|
    ensures multiset(Flatten(PackFirst(g, n))) == multiset(g[..n])
  {
    hide *;
    PackUnfolds(g, n);
    if n > 0 {
      PackIsPermutation(g, n - 1);
      PlaceAdds(PackFirst(g, n - 1), g[n - 1]);
      FirstItems(g, n);
    } else {
      NothingPacked();
      assert g[..0] == [];
    }
  }

  lemma {:induction false} PackUnfolds(g: seq<Item>, n: nat)
    requires n <= |g|
    ensures PackFirst(g, n) == if n == 0 then [] else Place(PackFirst(g, n - 1), g[n - 1])
  {
  }

  lemma {:induction false} NothingPacked()
    ensures Flatten([]) == []
  {
  }

  lemma {:induction false} FirstItems(g: seq<Item>, n: nat)
    requires 0 < n <= |g|
    ensures multiset(g[..n]) == multiset(g[..n - 1]) + multiset{g[n - 1]}
  {
    assert g[..n] == g[..n - 1] + [g[n - 1]];
  }

  lemma {:induction false} FlattenSnoc(tracks: seq<Track>, track: Track)
    ensures Flatten(tracks + [track]) == Flatten(tracks) + track
  {
    assert (tracks + [track])[..|tracks|] == tracks;
  }

  lemma {:induction false} PlaceAdds(tracks: seq<Track>, x: Item)
    ensures multiset(Flatten(Place(tracks, x))) == multiset(Flatten(tracks)) + multiset{x}
  {
    hide Flatten, OverlapsTrack;
    var ti := FirstFit(tracks, x, 0);
    if ti < |tracks| {
      FlattenPush(tracks, ti, x);
    } else {
      FlattenSnoc(tracks, [x]);
    }
  }

  // ----- Optimality -----

  /** Pairwise distinct and pairwise overlapping items of `g`. */
  ghost predicate IsClique(g: seq<Item>, c: seq<Item>) {
    && (forall i :: 0 <= i < |c| ==> c[i] in g)
    && (forall i, j :: 0 <= i < j < |c| ==> c[i] != c[j] && Overlap(c[i], c[j]))
  }

  /** The item that opened the last of `m` tracks. */
  lemma {:induction false} Opener(g: seq<Item>, n: nat) returns (k: nat)
    requires n <= |g| && PackFirst(g, n) != []
    ensures k < n && TrackAt(g, k) == |PackFirst(g, k)| == |PackFirst(g, n)| - 1
  {
    hide OverlapsTrack;
    if TrackAt(g, n - 1) == |PackFirst(g, n - 1)| {
      k := n - 1;
    } else {
      k := Opener(g, n - 1);
    }
  }

  /** On each of the first `m` tracks some item overlaps `g[k]`. */
  lemma {:induction false} Witnesses(g: seq<Item>, k: nat, m: nat) returns (ws: seq<Item>)
    requires UniqueIds(g) && StartsAscend(g) && k < |g| && m <= TrackAt(g, k)
    ensures |ws| == m
    ensures forall i :: 0 <= i < m ==>
              ws[i] in PackFirst(g, k)[i] && ws[i] in g && ws[i] != g[k]
              && ws[i].start <= g[k].start && Overlap(g[k], ws[i])
  {
    if m == 0 {
      ws := [];
    } else {
      var front := Witnesses(g, k, m - 1);
      var track := PackFirst(g, k)[m - 1];
      assert OverlapsTrack(track, g[k]);
      var i :| 0 <= i < |track| && track[i].id != g[k].id && Overlap(g[k], track[i]);
      var o := Origin(g, k, m - 1, track[i]);
      assert g[o].start <= g[k].start;
      ws := front + [track[i]];
    }
  }

  lemma {:induction false} TracksDisjoint(g: seq<Item>, n: nat, a: nat, b: nat, x: Item)
    requires UniqueIds(g) && n <= |g| && a < |PackFirst(g, n)| && b < |PackFirst(g, n)|
    requires x in PackFirst(g, n)[a] && x in PackFirst(g, n)[b]
    ensures a == b
  {
    var i := Origin(g, n, a, x);
    var j := Origin(g, n, b, x);
    assert i == j;
  }

  /** As many items as there are tracks overlap one another... */
  lemma {:induction false} CliqueOfTracks(g: seq<Item>) returns (c: seq<Item>)
    requires UniqueIds(g) && StartsAscend(g)
    ensures IsClique(g, c) && |c| == |PackAll(g)|
  {
    if PackAll(g) == [] {
      c := [];
      return;
    }
    var k := Opener(g, |g|);
    var ws := Witnesses(g, k, TrackAt(g, k));
    c := ws + [g[k]];
    forall i, j | 0 <= i < j < |c|
      ensures c[i] != c[j] && Overlap(c[i], c[j])
    {
      if j < |ws| {
        if ws[i] == ws[j] {
          TracksDisjoint(g, k, i, j, ws[i]);
        }
      }
    }
  }

  lemma {:induction false} Pigeonhole(ts: seq<nat>, m: nat)
    requires forall i :: 0 <= i < |ts| ==> ts[i] < m
    requires forall i, j :: 0 <= i < j < |ts| ==> ts[i] != ts[j]
    ensures |ts| <= m
    decreases m
  {
    if ts != [] {
      assert ts[0] < m;
      if exists i :: 0 <= i < |ts| && ts[i] == m - 1 {
        var i :| 0 <= i < |ts| && ts[i] == m - 1;
        Pigeonhole(ts[..i] + ts[i + 1..], m - 1);
      } else {
        Pigeonhole(ts, m - 1);
      }
    }
  }

  /** ... and no more than that many items ever do: the track count is the least possible. */
  lemma {:induction false} CliqueFitsTracks(g: seq<Item>, c: seq<Item>)
    requires UniqueIds(g) && IsClique(g, c)
    ensures |c| <= |PackAll(g)|
  {
    var ts := TracksOf(g, c);
    Pigeonhole(ts, |PackAll(g)|);
  }

  lemma {:induction false} TracksOf(g: seq<Item>, c: seq<Item>) returns (ts: seq<nat>)
    requires UniqueIds(g) && IsClique(g, c)
    ensures |ts| == |c|
    ensures forall i :: 0 <= i < |ts| ==> ts[i] < |PackAll(g)| && c[i] in PackAll(g)[ts[i]]
    ensures forall i, j :: 0 <= i < j < |ts| ==> ts[i] != ts[j]
  {
    hide PackAll, PackFirst, TrackAt;
    if c == [] {
      ts := [];
    } else {
      var n := |c| - 1;
      var front := TracksOf(g, c[..n]);
      var k :| 0 <= k < |g| && g[k] == c[n];
      var t := TrackOfItem(g, k);
      forall i | 0 <= i < n
        ensures front[i] != t
      {
        assert c[i] != c[n] && Overlap(c[i], c[n]);
        hide IsClique;
        if front[i] == t {
          OverlapsApart(g, k, t, c[i]);
        }
      }
      ts := front + [t];
    }
  }

  lemma {:induction false} TrackOfItem(g: seq<Item>, k: nat) returns (t: nat)
    requires k < |g|
    ensures t == TrackAt(g, k) < |PackAll(g)| && g[k] in PackAll(g)[t]
  {
    PlacedOnTrack(g, k, |g|);
    t := TrackAt(g, k);
  }

  lemma {:induction false} OverlapsApart(g: seq<Item>, k: nat, t: nat, x: Item)
    requires UniqueIds(g) && k < |g| && t < |PackAll(g)| && x in PackAll(g)[t]
    requires x != g[k] && Overlap(x, g[k])
    ensures TrackAt(g, k) != t
  {
    var o := Origin(g, |g|, t, x);
    if TrackAt(g, k) == t {
      NoOverlapOnTrack(g, if o < k then o else k, if o < k then k else o);
    }
  }

  // ----- Normalizing a set -----

  /** The sort key: start time, then recorded track index, then id. */
  predicate SortsBefore(index: map<Item, int>, a: Item, b: Item) {
    var ia, ib := if a in index then index[a] else 0, if b in index then index[b] else 0;
    a.start < b.start || (a.start == b.start && (ia < ib || (ia == ib && a.id <= b.id)))
  }

  function SortKey(index: map<Item, int>): (Item, Item) -> bool {
    (a: Item, b: Item) => SortsBefore(index, a, b)
  }

  function Ordered(index: map<Item, int>, g: seq<Item>): seq<Item> { Sort(SortKey(index), g) }

  function OfKind(all: seq<Item>, units: bool): seq<Item> {
    if all == [] then []
    else OfKind(all[..|all| - 1], units) + if all[|all| - 1].isUnit == units then [all[|all| - 1]] else []
  }

  /** The new tracks: non-units packed first, then units. */
  function Arranged(all: seq<Item>, index: map<Item, int>): seq<Track> {
    if all == [] then [[]] else PackAll(Ordered(index, OfKind(all, false))) + PackAll(Ordered(index, OfKind(all, true)))
  }

  /** Every item's recorded index is the position of its track. */
  ghost predicate IndexMatches(tracks: seq<Track>, index: map<Item, int>) {
    forall ti, x :: 0 <= ti < |tracks| && x in tracks[ti] ==> x in index && index[x] == ti
  }

  lemma {:induction false} KeyOrders(index: map<Item, int>, g: seq<Item>)
    ensures Orders(SortKey(index), g)
  {
  }

  lemma {:induction false} OrderedFacts(index: map<Item, int>, g: seq<Item>)
    ensures multiset(Ordered(index, g)) == multiset(g)
    ensures SortedBy(SortKey(index), Ordered(index, g))
    ensures StartsAscend(Ordered(index, g))
    ensures UniqueIds(g) ==> UniqueIds(Ordered(index, g))
  {
    var o := Ordered(index, g);
    KeyOrders(index, g);
    SortSorts(SortKey(index), g);
    hide Ordered, Orders;
    forall i, j | 0 <= i < j < |o|
      ensures o[i].start <= o[j].start
    {
      assert SortKey(index)(o[i], o[j]);
    }
    if UniqueIds(g) {
      UniqueIdsPermuted(g, o);
    }
  }

  ghost predicate IdsDistinguish(g: seq<Item>) {
    forall x, y :: x in g && y in g && x.id == y.id ==> x == y
  }

  ghost predicate OnceEach(g: seq<Item>) {
    forall x :: x in g ==> multiset(g)[x] == 1
  }

  lemma {:induction false} UniqueByCount(g: seq<Item>)
    requires OnceEach(g) && IdsDistinguish(g)
    ensures UniqueIds(g)
  {
    if g != [] {
      var n := |g| - 1;
      assert g == g[..n] + [g[n]];
      assert multiset(g) == multiset(g[..n]) + multiset{g[n]};
      assert g[n] in g && multiset(g[..n])[g[n]] == 0;
      assert g[n] !in g[..n];
      forall x | x in g[..n] ensures multiset(g[..n])[x] == 1 {
        assert x in g && x in multiset(g[..n]);
      }
      UniqueByCount(g[..n]);
      forall i, j | 0 <= i < j < |g| ensures g[i].id != g[j].id {
        assert g[i] in g && g[j] in g && g[i] in g[..n];
        assert j < n ==> g[..n][j] == g[j] && g[..n][i] == g[i];
      }
    }
  }

  lemma {:induction false} CountOfUnique(g: seq<Item>)
    requires UniqueIds(g)
    ensures OnceEach(g) && IdsDistinguish(g)
  {
    if g != [] {
      var n := |g| - 1;
      assert g == g[..n] + [g[n]];
      CountOfUnique(g[..n]);
      assert g[n] !in g[..n];
    }
  }

  lemma {:induction false} UniqueIdsPermuted(g: seq<Item>, h: seq<Item>)
    requires multiset(g) == multiset(h) && UniqueIds(g)
    ensures UniqueIds(h)
  {
    CountOfUnique(g);
    forall x | x in h ensures x in g {
      SameMember(g, h, x);
    }
    UniqueByCount(h);
  }

  // ----- Packing again -----

  /** `index` holds the tracks of `g`, counted from `offset` on. */
  ghost predicate Records(g: seq<Item>, index: map<Item, int>, offset: int) {
    forall j :: 0 <= j < |g| ==> g[j] in index && index[g[j]] == TrackAt(g, j) + offset
  }

  /** `h` is `g` in the order of a second pass. */
  ghost predicate Reordered(g: seq<Item>, h: seq<Item>, index: map<Item, int>, offset: int) {
    && UniqueIds(g) && StartsAscend(g) && Records(g, index, offset)
    && multiset(h) == multiset(g) && SortedBy(SortKey(index), h)
  }

  /** The first `n` items of `h` lie on the same tracks of both packings. */
  ghost predicate SameTracks(g: seq<Item>, h: seq<Item>, n: nat)
    requires n <= |h|
  {
    forall j, k :: 0 <= j < |g| && 0 <= k < n && g[j] == h[k] ==> TrackAt(g, j) == TrackAt(h, k)
  }

  /** The item's own track is free for it again. */
  lemma {:induction false} OwnTrackIsFree(g: seq<Item>, h: seq<Item>, j: nat, k: nat)
    requires UniqueIds(g) && multiset(h) == multiset(g)
    requires j < |g| && k < |h| && g[j] == h[k] && SameTracks(g, h, k)
    ensures TrackAt(h, k) <= TrackAt(g, j)
  {
    var tracks: seq<Track>, ti := PackFirst(h, k), TrackAt(g, j);
    if ti < |tracks| {
      forall i: nat | i < |tracks[ti]| && tracks[ti][i].id != h[k].id
        ensures !Overlap(h[k], tracks[ti][i])
      {
        var o := Origin(h, k, ti, tracks[ti][i]);
        SameMember(g, h, h[o]);
        var m :| 0 <= m < |g| && g[m] == h[o];
        NoOverlapOnTrack(g, if m < j then m else j, if m < j then j else m);
      }
      assert !OverlapsTrack(tracks[ti], h[k]);
    }
    hide OverlapsTrack;
  }

  /** An item on an earlier track that starts no later still comes first. */
  lemma {:induction false} StillBefore(h: seq<Item>, index: map<Item, int>, i: nat, k: nat)
    requires SortedBy(SortKey(index), h) && i < |h| && k < |h|
    requires h[i] in index && h[k] in index && h[i].start <= h[k].start && index[h[i]] < index[h[k]]
    ensures i < k
  {
    assert !SortKey(index)(h[k], h[i]);
  }

  predicate Taken(tracks: seq<Track>, t: nat, x: Item) { t < |tracks| && OverlapsTrack(tracks[t], x) }

  /** An earlier track is taken again, by an item that the new order still puts first. */
  lemma {:induction false} TakenAgain(g: seq<Item>, h: seq<Item>, index: map<Item, int>, offset: int, j: nat, k: nat, t: nat)
    requires Reordered(g, h, index, offset)
    requires j < |g| && k < |h| && g[j] == h[k] && SameTracks(g, h, k) && t < TrackAt(g, j)
    ensures Taken(PackFirst(h, k), t, h[k])
  {
    var before, x := PackFirst(g, j)[t], h[k];
    assert OverlapsTrack(before, x);
    var n :| 0 <= n < |before| && before[n].id != x.id && Overlap(x, before[n]);
    var m := Origin(g, j, t, before[n]);
    SameMember(g, h, g[m]);
    var i :| 0 <= i < |h| && h[i] == g[m];
    hide SortedBy, UniqueIds;
    StillBefore(h, index, i, k);
    PlacedOnTrack(h, i, k);
  }

  lemma {:induction false} FitsNoEarlier(tracks: seq<Track>, x: Item, m: nat)
    requires forall t: nat :: t < m ==> Taken(tracks, t, x)
    ensures m <= FirstFit(tracks, x, 0)
  {
    var r := FirstFit(tracks, x, 0);
    assert !Taken(tracks, r, x);
  }

  lemma {:induction false} EarlierTracksAreTaken(g: seq<Item>, h: seq<Item>, index: map<Item, int>, offset: int, j: nat, k: nat)
    requires Reordered(g, h, index, offset)
    requires j < |g| && k < |h| && g[j] == h[k] && SameTracks(g, h, k)
    ensures TrackAt(g, j) <= TrackAt(h, k)
  {
    var tracks := PackFirst(h, k);
    hide Reordered, SameTracks, PackFirst, Taken;
    forall t: nat | t < TrackAt(g, j)
      ensures Taken(tracks, t, h[k])
    {
      TakenAgain(g, h, index, offset, j, k, t);
    }
    FitsNoEarlier(tracks, h[k], TrackAt(g, j));
  }

  /** Whatever the build times, the second pass puts every item back on its track. */
  lemma {:induction false} BackOnTrack(g: seq<Item>, h: seq<Item>, index: map<Item, int>, offset: int, n: nat)
    requires Reordered(g, h, index, offset) && n <= |h|
    ensures SameTracks(g, h, n)
  {
    hide *;
    if n == 0 {
      NothingPlaced(g, h);
    } else {
      BackOnTrack(g, h, index, offset, n - 1);
      forall j: nat | j < |g| && g[j] == h[n - 1]
        ensures TrackAt(g, j) == TrackAt(h, n - 1)
      {
        OneBackOnTrack(g, h, index, offset, j, n - 1);
      }
      OneMore(g, h, n);
    }
  }

  lemma {:induction false} NothingPlaced(g: seq<Item>, h: seq<Item>)
    ensures SameTracks(g, h, 0)
  {
  }

  lemma {:induction false} OneBackOnTrack(g: seq<Item>, h: seq<Item>, index: map<Item, int>, offset: int, j: nat, k: nat)
    requires Reordered(g, h, index, offset)
    requires j < |g| && k < |h| && g[j] == h[k] && SameTracks(g, h, k)
    ensures TrackAt(g, j) == TrackAt(h, k)
  {
    hide *;
    ReorderedUnique(g, h, index, offset);
    OwnTrackIsFree(g, h, j, k);
    EarlierTracksAreTaken(g, h, index, offset, j, k);
  }

  lemma {:induction false} ReorderedUnique(g: seq<Item>, h: seq<Item>, index: map<Item, int>, offset: int)
    requires Reordered(g, h, index, offset)
    ensures UniqueIds(g) && multiset(h) == multiset(g)
  {
  }

  lemma {:induction false} OneMore(g: seq<Item>, h: seq<Item>, n: nat)
    requires 0 < n <= |h| && SameTracks(g, h, n - 1)
    requires forall j: nat :: j < |g| && g[j] == h[n - 1] ==> TrackAt(g, j) == TrackAt(h, n - 1)
    ensures SameTracks(g, h, n)
  {
    hide TrackAt;
  }

  lemma {:induction false} Carry(g: seq<Item>, h: seq<Item>, t: nat, x: Item)
    requires multiset(h) == multiset(g) && SameTracks(g, h, |h|) && t < |PackAll(h)| && x in PackAll(h)[t]
    ensures t < |PackAll(g)| && x in PackAll(g)[t]
  {
    var k := Origin(h, |h|, t, x);
    SameMember(g, h, x);
    var j :| 0 <= j < |g| && g[j] == x;
    PlacedOnTrack(g, j, |g|);
    hide TrackAt, PackFirst;
  }

  lemma {:induction false} NoMoreTracks(g: seq<Item>, h: seq<Item>)
    requires multiset(h) == multiset(g) && SameTracks(g, h, |h|)
    ensures |PackAll(h)| <= |PackAll(g)|
  {
    if PackAll(h) != [] {
      var k := Opener(h, |h|);
      PlacedOnTrack(h, k, |h|);
      Carry(g, h, |PackAll(h)| - 1, h[k]);
    }
  }

  /** The items of a track lie there in the order in which they were packed. */
  lemma {:induction false} TracksKeepOrder(g: seq<Item>, n: nat, r: (Item, Item) -> bool, t: nat)
    requires n <= |g| && t < |PackFirst(g, n)|
    requires forall i, j :: 0 <= i < j < n ==> r(g[i], g[j])
    ensures SortedBy(r, PackFirst(g, n)[t])
  {
    var before, x := PackFirst(g, n - 1), g[n - 1];
    if t < |before| {
      TracksKeepOrder(g, n - 1, r, t);
      forall y | y in before[t]
        ensures r(y, x)
      {
        var k := Origin(g, n - 1, t, y);
      }
    }
    hide FirstFit, SortedBy;
    var track := PackFirst(g, n)[t];
    if t < |before| {
      assert track == before[t] || track == before[t] + [x];
      SnocSorted(r, before[t], x);
    } else {
      assert track == [x];
      SnocSorted(r, [], x);
      assert [] + [x] == [x];
    }
  }

  lemma {:induction false} SnocSorted(r: (Item, Item) -> bool, s: seq<Item>, x: Item)
    requires (s == [] || SortedBy(r, s)) && forall y :: y in s ==> r(y, x)
    ensures SortedBy(r, s + [x])
  {
  }

  /** The order of starts, items that start together by id. */
  function ByStart(): (Item, Item) -> bool {
    (a: Item, b: Item) => a.start < b.start || (a.start == b.start && a.id <= b.id)
  }

  lemma {:induction false} StartOrders(g: seq<Item>)
    ensures Orders(ByStart(), g)
  {
  }

  function EachSorted(tracks: seq<Track>): seq<Track> {
    if tracks == [] then [] else EachSorted(tracks[..|tracks| - 1]) + [Sort(ByStart(), tracks[|tracks| - 1])]
  }

  lemma {:induction false} EachSortedAt(tracks: seq<Track>, t: nat)
    requires t < |tracks|
    ensures |EachSorted(tracks)| == |tracks| && EachSorted(tracks)[t] == Sort(ByStart(), tracks[t])
  {
    hide Sort, ByStart;
    var n := |tracks| - 1;
    var front := tracks[..n];
    assert EachSorted(tracks) == EachSorted(front) + [Sort(ByStart(), tracks[n])];
    if n > 0 {
      EachSortedAt(front, if t < n then t else 0);
      hide EachSorted;
    }
  }

  lemma {:induction false} EachSortedConcat(a: seq<Track>, b: seq<Track>)
    ensures EachSorted(a + b) == EachSorted(a) + EachSorted(b)
  {
    hide Sort, ByStart;
    if b == [] {
      assert a + b == a;
    } else {
      var n := |b| - 1;
      EachSortedConcat(a, b[..n]);
      assert (a + b)[..|a + b| - 1] == a + b[..n];
    }
  }

  lemma {:induction false} TrackIdsDiffer(g: seq<Item>, t: nat)
    requires UniqueIds(g) && t < |PackAll(g)|
    ensures UniqueIds(PackAll(g)[t])
  {
    var differ := (a: Item, b: Item) => a.id != b.id;
    TracksKeepOrder(g, |g|, differ, t);
    hide PackFirst;
    var track := PackAll(g)[t];
    forall i, j | 0 <= i < j < |track|
      ensures track[i].id != track[j].id
    {
      assert differ(track[i], track[j]);
    }
  }

  lemma {:induction false} SecondTrackIsOrdered(g: seq<Item>, h: seq<Item>, index: map<Item, int>, offset: int, t: nat)
    requires Reordered(g, h, index, offset) && SameTracks(g, h, |h|) && t < |PackAll(h)|
    ensures SortedBy(ByStart(), PackAll(h)[t])
  {
    var track := PackAll(h)[t];
    TracksKeepOrder(h, |h|, SortKey(index), t);
    forall x | x in track
      ensures x in index && index[x] == t + offset
    {
      var k := Origin(h, |h|, t, x);
      SameMember(g, h, x);
      var j :| 0 <= j < |g| && g[j] == x;
      assert g[j] == h[k];
    }
    hide PackFirst, TrackAt, Reordered, SameTracks;
    forall i, j | 0 <= i < j < |track|
      ensures ByStart()(track[i], track[j])
    {
      assert SortKey(index)(track[i], track[j]);
    }
  }

  lemma {:induction false} SortIsUnique(a: Track, b: Track)
    requires UniqueIds(a) && UniqueIds(b) && SortedBy(ByStart(), b) && forall x :: x in a <==> x in b
    ensures Sort(ByStart(), a) == b
  {
    var s := Sort(ByStart(), a);
    StartOrders(a);
    SortSorts(ByStart(), a);
    UniqueIdsPermuted(a, s);
    CountOfUnique(s);
    hide Sort, SortedBy, OnceEach, Orders;
    forall x
      ensures x in s <==> x in b
    {
      SameMember(s, a, x);
    }
    SameMembersSorted(ByStart(), s, b);
  }

  /** The second packing is the first one with every track put in order. */
  lemma {:induction false} SecondPacking(g: seq<Item>, h: seq<Item>, index: map<Item, int>, offset: int)
    requires Reordered(g, h, index, offset)
    ensures PackAll(h) == EachSorted(PackAll(g))
  {
    BackOnTrack(g, h, index, offset, |h|);
    UniqueIdsPermuted(g, h);
    assert SameTracks(h, g, |g|);
    NoMoreTracks(g, h);
    NoMoreTracks(h, g);
    var a, b := PackAll(g), PackAll(h);
    assert |EachSorted(a)| == |a| by {
      if a != [] {
        EachSortedAt(a, 0);
      }
    }
    forall t | 0 <= t < |b|
      ensures b[t] == EachSorted(a)[t]
    {
      hide *;
      SecondTrack(g, h, index, offset, t);
    }
    hide *;
  }

  lemma {:induction false} SecondTrack(g: seq<Item>, h: seq<Item>, index: map<Item, int>, offset: int, t: nat)
    requires Reordered(g, h, index, offset) && SameTracks(g, h, |h|) && SameTracks(h, g, |g|) && UniqueIds(h)
    requires t < |PackAll(h)| == |PackAll(g)|
    ensures |EachSorted(PackAll(g))| == |PackAll(g)| && PackAll(h)[t] == EachSorted(PackAll(g))[t]
  {
    var a, b := PackAll(g), PackAll(h);
    EachSortedAt(a, t);
    TrackIdsDiffer(g, t);
    TrackIdsDiffer(h, t);
    SecondTrackIsOrdered(g, h, index, offset, t);
    hide PackAll, SameTracks, SortedBy;
    forall x
      ensures x in a[t] <==> x in b[t]
    {
      if x in a[t] {
        Carry(h, g, t, x);
      }
      if x in b[t] {
        Carry(g, h, t, x);
      }
    }
    SortIsUnique(a[t], b[t]);
  }

  // ----- Positive build times -----

  ghost predicate PositiveBuilds(g: seq<Item>) {
    forall i :: 0 <= i < |g| ==> 0.0 < g[i].build
  }

  /** Items that start together get strictly increasing track numbers, in processing order. */
  lemma {:induction false} SameStartRises(g: seq<Item>, i: nat, j: nat)
    requires UniqueIds(g) && StartsAscend(g) && PositiveBuilds(g)
    requires i < j < |g| && g[i].start == g[j].start
    ensures TrackAt(g, i) < TrackAt(g, j)
  {
    var tracks, ti := PackFirst(g, j), TrackAt(g, i);
    PlacedOnTrack(g, i, j);
    forall t: nat | t <= ti
      ensures t < |tracks| && OverlapsTrack(tracks[t], g[j])
    {
      var w := g[i];
      if t < ti {
        assert OverlapsTrack(PackFirst(g, i)[t], g[i]);
        var n :| 0 <= n < |PackFirst(g, i)[t]| && PackFirst(g, i)[t][n].id != g[i].id && Overlap(g[i], PackFirst(g, i)[t][n]);
        w := PackFirst(g, i)[t][n];
        TracksGrow(g, i, j, t, w);
      }
      var o := Origin(g, j, t, w);
      assert g[o].start <= g[j].start && g[o].id != g[j].id && 0.0 < g[o].build && 0.0 < g[j].build;
      assert Overlap(g[j], w);
      var m :| 0 <= m < |tracks[t]| && tracks[t][m] == w;
    }
  }

  /** ... so every track is in order from the start. */
  lemma {:induction false} PositiveTracksAreOrdered(g: seq<Item>, t: nat)
    requires UniqueIds(g) && StartsAscend(g) && PositiveBuilds(g) && t < |PackAll(g)|
    ensures SortedBy(ByStart(), PackAll(g)[t])
  {
    var track := PackAll(g)[t];
    var ascends := (a: Item, b: Item) => a.start <= b.start;
    TracksKeepOrder(g, |g|, ascends, t);
    hide PackFirst, TrackAt;
    forall i, j | 0 <= i < j < |track|
      ensures ByStart()(track[i], track[j])
    {
      assert ascends(track[i], track[j]);
      if track[i].start == track[j].start {
        var m := Origin(g, |g|, t, track[i]);
        var n := Origin(g, |g|, t, track[j]);
        TrackIdsDiffer(g, t);
        SameStartRises(g, if m < n then m else n, if m < n then n else m);
        assert false;
      }
    }
  }

  // ----- The arranged set -----

  lemma {:induction false} FlattenConcat(a: seq<Track>, b: seq<Track>)
    ensures Flatten(a + b) == Flatten(a) + Flatten(b)
  {
    if b == [] {
      assert a + b == a;
    } else {
      var front, last := b[..|b| - 1], b[|b| - 1];
      hide Flatten;
      FlattenConcat(a, front);
      FlattenSnoc(front, last);
      FlattenSnoc(a + front, last);
      assert b == front + [last] && a + b == a + front + [last];
    }
  }

  lemma {:induction false} OfKindCounts(all: seq<Item>, units: bool, x: Item)
    ensures multiset(OfKind(all, units))[x] == if x.isUnit == units then multiset(all)[x] else 0
  {
    if all != [] {
      var front, last := all[..|all| - 1], all[|all| - 1];
      OfKindCounts(front, units, x);
      OfKindSnoc(front, last, units);
      hide OfKind;
      assert all == front + [last];
    }
  }

  lemma {:induction false} OfKindConcat(a: seq<Item>, b: seq<Item>, units: bool)
    ensures OfKind(a + b, units) == OfKind(a, units) + OfKind(b, units)
  {
    if b == [] {
      assert a + b == a;
    } else {
      var n := |b| - 1;
      OfKindConcat(a, b[..n], units);
      assert (a + b)[..|a + b| - 1] == a + b[..n];
    }
  }

  function Without(s: seq<Item>, j: nat): (r: seq<Item>)
    requires j < |s|
    ensures |r| == |s| - 1
  {
    s[..j] + s[j + 1..]
  }

  lemma {:induction false} MultisetWithout(s: seq<Item>, j: nat)
    requires j < |s|
    ensures multiset(Without(s, j)) == multiset(s) - multiset{s[j]}
  {
    assert s == s[..j] + [s[j]] + s[j + 1..];
  }

  lemma {:induction false} OfKindWithout(s: seq<Item>, j: nat, units: bool)
    requires j < |s|
    ensures multiset(OfKind(s, units)) == multiset(OfKind(Without(s, j), units)) + multiset(OfKind([s[j]], units))
  {
    assert s == s[..j] + ([s[j]] + s[j + 1..]);
    OfKindConcat(s[..j], [s[j]] + s[j + 1..], units);
    OfKindConcat([s[j]], s[j + 1..], units);
    OfKindConcat(s[..j], s[j + 1..], units);
  }

  lemma {:induction false} OfKindPermuted(a: seq<Item>, b: seq<Item>, units: bool)
    requires multiset(a) == multiset(b)
    ensures multiset(OfKind(a, units)) == multiset(OfKind(b, units))
    decreases |a|
  {
    hide *;
    assert |a| == |multiset(a)| == |multiset(b)| == |b|;
    if |a| > 0 {
      SameMember(a, b, a[0]);
      var j :| 0 <= j < |b| && b[j] == a[0];
      MultisetWithout(a, 0);
      MultisetWithout(b, j);
      OfKindPermuted(Without(a, 0), Without(b, j), units);
      OfKindWithout(a, 0, units);
      OfKindWithout(b, j, units);
    } else {
      assert a == b;
    }
  }

  lemma {:induction false} KindsMakeAll(all: seq<Item>)
    ensures multiset(OfKind(all, false)) + multiset(OfKind(all, true)) == multiset(all)
  {
    if all != [] {
      var front, x := all[..|all| - 1], all[|all| - 1];
      KindsMakeAll(front);
      OfKindSnoc(front, x, false);
      OfKindSnoc(front, x, true);
      hide OfKind;
      assert all == front + [x];
    }
  }

  lemma {:induction false} OfKindSnoc(front: seq<Item>, x: Item, units: bool)
    ensures OfKind(front + [x], units) == OfKind(front, units) + if x.isUnit == units then [x] else []
  {
    assert (front + [x])[..|front|] == front;
  }

  /** Items of one kind in sort order. */
  function Group(all: seq<Item>, index: map<Item, int>, units: bool): seq<Item> {
    Ordered(index, OfKind(all, units))
  }

  /** Repacking loses and duplicates nothing. */
  lemma {:induction false} ArrangedIsPermutation(all: seq<Item>, index: map<Item, int>)
    ensures multiset(Flatten(Arranged(all, index))) == multiset(all)
  {
    if all == [] {
      assert Flatten([[]]) == Flatten([[]][..0]) + [];
    } else {
      GroupIsPacked(all, index, false);
      GroupIsPacked(all, index, true);
      FlattenConcat(PackAll(Group(all, index, false)), PackAll(Group(all, index, true)));
      KindsMakeAll(all);
    }
  }

  lemma {:induction false} GroupIsPacked(all: seq<Item>, index: map<Item, int>, units: bool)
    ensures multiset(Flatten(PackAll(Group(all, index, units)))) == multiset(OfKind(all, units))
  {
    var g := Group(all, index, units);
    OrderedFacts(index, OfKind(all, units));
    PackIsPermutation(g, |g|);
    assert g[..|g|] == g;
  }

  lemma {:induction false} GroupFacts(all: seq<Item>, index: map<Item, int>, units: bool)
    requires UniqueIds(all)
    ensures UniqueIds(Group(all, index, units)) && StartsAscend(Group(all, index, units))
    ensures multiset(Group(all, index, units)) == multiset(OfKind(all, units))
    ensures forall k :: 0 <= k < |Group(all, index, units)| ==>
              Group(all, index, units)[k].isUnit == units && Group(all, index, units)[k] in all
  {
    var g, h := Group(all, index, units), OfKind(all, units);
    OfKindUnique(all, units);
    OrderedFacts(index, h);
    forall k | 0 <= k < |g|
      ensures g[k].isUnit == units && g[k] in all
    {
      assert g[k] in multiset(g);
      OfKindCounts(all, units, g[k]);
      assert g[k] in multiset(all);
    }
  }

  lemma {:induction false} OfKindUnique(all: seq<Item>, units: bool)
    requires UniqueIds(all)
    ensures UniqueIds(OfKind(all, units))
    ensures forall x :: x in OfKind(all, units) ==> x in all
  {
    if all != [] {
      var n := |all| - 1;
      OfKindUnique(all[..n], units);
      var front := OfKind(all[..n], units);
      forall i | 0 <= i < |front|
        ensures front[i].id != all[n].id
      {
        assert front[i] in front && front[i] in all[..n];
      }
    }
  }

  /** The tracks of non-units come before the tracks of units. */
  lemma {:induction false} UnitsComeLast(all: seq<Item>, index: map<Item, int>, ti: nat, x: Item)
    requires all != [] && UniqueIds(all) && ti < |Arranged(all, index)| && x in Arranged(all, index)[ti]
    ensures x.isUnit <==> |PackAll(Group(all, index, false))| <= ti
  {
    GroupFacts(all, index, false);
    GroupFacts(all, index, true);
    var f, h := Group(all, index, false), Group(all, index, true);
    hide PackFirst, Ordered, TrackAt, StartsAscend;
    if ti < |PackAll(f)| {
      var k := Origin(f, |f|, ti, x);
    } else {
      var k := Origin(h, |h|, ti - |PackAll(f)|, x);
    }
  }

  /** Each group is packed without overlaps on as few tracks as any packing could use: as
      many items as there are tracks overlap one another, and no more than that ever do. */
  lemma {:induction false} GroupIsPackedTightly(all: seq<Item>, index: map<Item, int>, units: bool)
    requires UniqueIds(all)
    ensures var g := Group(all, index, units);
            && (exists c :: IsClique(g, c) && |c| == |PackAll(g)|)
            && (forall c :: IsClique(g, c) ==> |c| <= |PackAll(g)|)
            && (forall a, b :: 0 <= a < b < |g| && TrackAt(g, a) == TrackAt(g, b) ==> !Overlap(g[a], g[b]))
  {
    hide PackFirst, Ordered, TrackAt, StartsAscend;
    GroupFacts(all, index, units);
    var g := Group(all, index, units);
    var c := CliqueOfTracks(g);
    forall c | IsClique(g, c)
      ensures |c| <= |PackAll(g)|
    {
      CliqueFitsTracks(g, c);
    }
    forall a, b | 0 <= a < b < |g| && TrackAt(g, a) == TrackAt(g, b)
      ensures !Overlap(g[a], g[b])
    {
      NoOverlapOnTrack(g, a, b);
    }
  }

  lemma {:induction false} IndexOfGroup(tracks: seq<Track>, index: map<Item, int>, g: seq<Item>, offset: nat)
    requires IndexMatches(tracks, index) && offset + |PackAll(g)| <= |tracks|
    requires tracks[offset..offset + |PackAll(g)|] == PackAll(g)
    ensures forall k :: 0 <= k < |g| ==> g[k] in index && index[g[k]] == TrackAt(g, k) + offset
  {
    hide TrackAt, PackFirst;
    forall k | 0 <= k < |g|
      ensures g[k] in index && index[g[k]] == TrackAt(g, k) + offset
    {
      PlacedOnTrack(g, k, |g|);
      var ti := TrackAt(g, k);
      assert tracks[offset..offset + |PackAll(g)|][ti] == tracks[offset + ti];
      assert g[k] in tracks[offset + ti];
    }
  }

  /** Every track is in the order of starts, items that start together by id. */
  ghost predicate TracksOrdered(tracks: seq<Track>) {
    forall t :: 0 <= t < |tracks| ==> SortedBy(ByStart(), tracks[t])
  }

  lemma {:induction false} ArrangedCases(all: seq<Item>, index: map<Item, int>)
    ensures all == [] ==> Arranged(all, index) == [[]]
    ensures all != [] ==> Arranged(all, index) == PackAll(Group(all, index, false)) + PackAll(Group(all, index, true))
  {
  }

  /** What a second pass does, whatever the build times: with the track numbers recorded by the
      first pass it puts every item back on its track, and sorts each track. */
  lemma {:induction false} SecondPassSortsTracks(all: seq<Item>, index: map<Item, int>, recorded: map<Item, int>)
    requires UniqueIds(all) && IndexMatches(Arranged(all, index), recorded)
    ensures Arranged(Flatten(Arranged(all, index)), recorded) == EachSorted(Arranged(all, index))
  {
    hide *;
    var tracks := Arranged(all, index);
    ArrangedIsPermutation(all, index);
    ArrangedCases(all, index);
    ArrangedCases(Flatten(tracks), recorded);
    assert |multiset(Flatten(tracks))| == |multiset(all)|;
    if all == [] {
      EachSortedAt([[]], 0);
      SortFixesSorted(ByStart(), []) by {
        EmptyIsSorted();
      }
    } else {
      GroupAgain(all, index, recorded, false);
      GroupAgain(all, index, recorded, true);
      EachSortedConcat(PackAll(Group(all, index, false)), PackAll(Group(all, index, true)));
    }
  }

  lemma {:induction false} EmptyIsSorted()
    ensures SortedBy(ByStart(), [])
  {
  }

  lemma {:induction false} GroupAgain(all: seq<Item>, index: map<Item, int>, recorded: map<Item, int>, units: bool)
    requires all != [] && UniqueIds(all) && IndexMatches(Arranged(all, index), recorded)
    ensures PackAll(Group(Flatten(Arranged(all, index)), recorded, units)) == EachSorted(PackAll(Group(all, index, units)))
  {
    hide *;
    var tracks, g := Arranged(all, index), Group(all, index, units);
    var h := Group(Flatten(tracks), recorded, units);
    var offset := if units then |PackAll(Group(all, index, false))| else 0;
    GroupFacts(all, index, units);
    ArrangedCases(all, index);
    IndexOfGroup(tracks, recorded, g, offset);
    ArrangedIsPermutation(all, index);
    OfKindPermuted(Flatten(tracks), all, units);
    OrderedFacts(recorded, OfKind(Flatten(tracks), units));
    GroupUnfolds(Flatten(tracks), recorded, units);
    ReorderedHolds(g, h, recorded, offset);
    SecondPacking(g, h, recorded, offset);
  }

  lemma {:induction false} ReorderedHolds(g: seq<Item>, h: seq<Item>, index: map<Item, int>, offset: int)
    requires UniqueIds(g) && StartsAscend(g) && multiset(h) == multiset(g) && SortedBy(SortKey(index), h)
    requires forall k :: 0 <= k < |g| ==> g[k] in index && index[g[k]] == TrackAt(g, k) + offset
    ensures Reordered(g, h, index, offset)
  {
  }

  lemma {:induction false} GroupUnfolds(all: seq<Item>, index: map<Item, int>, units: bool)
    ensures Group(all, index, units) == Ordered(index, OfKind(all, units))
  {
  }

  /** Sorting the tracks changes nothing exactly when they are in order, and puts them in order. */
  lemma {:induction false} SortingTracks(tracks: seq<Track>)
    ensures EachSorted(tracks) == tracks <==> TracksOrdered(tracks)
    ensures TracksOrdered(EachSorted(tracks))
  {
    hide Orders, ByStart, Sort, SortedBy;
    var sorted := EachSorted(tracks);
    assert |sorted| == |tracks| by {
      if tracks != [] {
        EachSortedAt(tracks, 0);
      }
    }
    hide EachSorted;
    forall t | 0 <= t < |tracks|
      ensures SortedBy(ByStart(), sorted[t]) && (SortedBy(ByStart(), tracks[t]) ==> sorted[t] == tracks[t])
    {
      EachSortedAt(tracks, t);
      StartOrders(tracks[t]);
      SortSorts(ByStart(), tracks[t]);
      if SortedBy(ByStart(), tracks[t]) {
        SortFixesSorted(ByStart(), tracks[t]);
      }
    }
  }

  /** Normalizing a normalized set changes nothing exactly when its tracks are in order. */
  lemma {:induction false} IdempotentIffOrdered(all: seq<Item>, index: map<Item, int>, recorded: map<Item, int>)
    requires UniqueIds(all) && IndexMatches(Arranged(all, index), recorded)
    ensures Arranged(Flatten(Arranged(all, index)), recorded) == Arranged(all, index) <==> TracksOrdered(Arranged(all, index))
  {
    hide *;
    SecondPassSortsTracks(all, index, recorded);
    SortingTracks(Arranged(all, index));
  }

  /** A third pass never changes anything. */
  lemma {:induction false} ThirdPassIsStable(all: seq<Item>, index: map<Item, int>, second: map<Item, int>, third: map<Item, int>)
    requires UniqueIds(all) && IndexMatches(Arranged(all, index), second)
    requires IndexMatches(Arranged(Flatten(Arranged(all, index)), second), third)
    ensures var once := Arranged(all, index); var twice := Arranged(Flatten(once), second);
            Arranged(Flatten(twice), third) == twice
  {
    hide *;
    var once := Arranged(all, index);
    SecondPassSortsTracks(all, index, second);
    SortingTracks(once);
    ArrangedIsPermutation(all, index);
    UniqueIdsPermuted(all, Flatten(once));
    IdempotentIffOrdered(Flatten(once), second, third);
  }

  /** In particular, with positive build times one pass is enough. */
  lemma {:induction false} NormalizingIsIdempotent(all: seq<Item>, index: map<Item, int>, recorded: map<Item, int>)
    requires UniqueIds(all) && PositiveBuilds(all)
    requires IndexMatches(Arranged(all, index), recorded)
    ensures Arranged(Flatten(Arranged(all, index)), recorded) == Arranged(all, index)
  {
    hide *;
    var tracks := Arranged(all, index);
    ArrangedCases(all, index);
    if all != [] {
      GroupIsOrdered(all, index, false);
      GroupIsOrdered(all, index, true);
    }
    ConcatOrdered(all, index);
    IdempotentIffOrdered(all, index, recorded);
  }

  lemma {:induction false} ConcatOrdered(all: seq<Item>, index: map<Item, int>)
    requires all != [] ==> TracksOrdered(PackAll(Group(all, index, false))) && TracksOrdered(PackAll(Group(all, index, true)))
    ensures TracksOrdered(Arranged(all, index))
  {
    hide PackAll, Ordered;
  }

  lemma {:induction false} GroupIsOrdered(all: seq<Item>, index: map<Item, int>, units: bool)
    requires UniqueIds(all) && PositiveBuilds(all)
    ensures TracksOrdered(PackAll(Group(all, index, units)))
  {
    var g := Group(all, index, units);
    GroupFacts(all, index, units);
    hide Group, UniqueIds, StartsAscend, PackAll, SortedBy;
    forall t | 0 <= t < |PackAll(g)|
      ensures SortedBy(ByStart(), PackAll(g)[t])
    {
      PositiveTracksAreOrdered(g, t);
    }
  }

  /** Items without a build time show that the condition can fail: the first pass puts `a` behind
      `b` on its track, the second sorts them by id, and the third leaves them so. */
  lemma {:induction false} ZeroBuildIsNotIdempotent(a: Item, b: Item)
    requires !a.isUnit && !b.isUnit && a.id < b.id && a.start == b.start && a.build == 0.0 && 0.0 < b.build
    ensures Arranged([b, a], map[b := 0, a := 1]) == [[b, a]]
    ensures IndexMatches([[b, a]], map[b := 0, a := 0])
    ensures Arranged([b, a], map[b := 0, a := 0]) == [[a, b]]
    ensures Arranged([a, b], map[b := 0, a := 0]) == [[a, b]]
  {
    hide Arranged;
    var first, again := map[b := 0, a := 1], map[b := 0, a := 0];
    assert SortsBefore(first, b, a) && !SortsBefore(first, a, b);
    assert SortsBefore(again, a, b) && !SortsBefore(again, b, a);
    assert !Overlap(a, b) && !Overlap(b, a);
    assert IndexMatches([[b, a]], again);
    hide *;
    ArrangedPair(b, a, b, a, first);
    ArrangedPair(b, a, a, b, again);
    ArrangedPair(a, b, a, b, again);
  }

  lemma {:induction false} ArrangedPair(x: Item, y: Item, first: Item, second: Item, index: map<Item, int>)
    requires !x.isUnit && !y.isUnit && ((first == x && second == y) || (first == y && second == x))
    requires first != second && !Overlap(second, first)
    requires SortsBefore(index, first, second) && !SortsBefore(index, second, first)
    ensures Arranged([x, y], index) == [[first, second]]
  {
    hide *;
    OrderedPair(x, y, first, second, index);
    PackedPair(first, second);
    NoTracks();
    PairOfKind(x, y);
    ArrangedCases([x, y], index);
    GroupUnfolds([x, y], index, false);
    GroupUnfolds([x, y], index, true);
  }

  lemma {:induction false} NoTracks()
    ensures PackAll([]) == []
  {
  }

  lemma {:induction false} PairOfKind(x: Item, y: Item)
    requires !x.isUnit && !y.isUnit
    ensures OfKind([x, y], false) == [x, y] && OfKind([x, y], true) == []
  {
    assert [x, y][..1] == [x] && [x][..0] == [];
    assert OfKind([x], false) == [] + [x] && OfKind([x], true) == [];
  }

  lemma {:induction false} OrderedPair(x: Item, y: Item, first: Item, second: Item, index: map<Item, int>)
    requires ((first == x && second == y) || (first == y && second == x)) && first != second
    requires SortsBefore(index, first, second) && !SortsBefore(index, second, first)
    ensures Ordered(index, [x, y]) == [first, second] && Ordered(index, []) == []
  {
    var le := SortKey(index);
    assert le(first, second) && !le(second, first);
    SortPair(le, x, y);
    hide SortsBefore, SortKey;
  }

  lemma {:induction false} SortPair(le: (Item, Item) -> bool, x: Item, y: Item)
    ensures Sort(le, [x, y]) == if le(x, y) then [x, y] else [y, x]
    ensures Sort(le, []) == []
  {
    InsertNext(le, y, []);
    InsertNext(le, x, []);
    InsertNext(le, x, [y]);
    assert [x, y][1..] == [y] && [y][1..] == [];
    hide Insert;
    assert Sort(le, [y]) == Insert(le, y, Sort(le, [])) == [y];
    assert Sort(le, [x, y]) == Insert(le, x, Sort(le, [y]));
  }

  lemma {:induction false} InsertNext(le: (Item, Item) -> bool, x: Item, s: seq<Item>)
    ensures Insert(le, x, s) == if s == [] || le(x, s[0]) then [x] + s else [s[0]] + Insert(le, x, s[1..])
  {
  }

  lemma {:induction false} PackedPair(first: Item, second: Item)
    requires !Overlap(second, first)
    ensures PackAll([first, second]) == [[first, second]]
  {
    var g := [first, second];
    assert PackFirst(g, 1) == [[first]];
    assert [[first]][0][0] == first && !OverlapsTrack([first], second);
    var both := [first] + [second];
    assert both == [first, second] && [[first]][0 := both] == [both];
    assert Place([[first]], second) == [both];
    assert PackFirst(g, 2) == [both];
  }

  // ----- The mutable set -----

  function Indexes(all: seq<Item>): map<Item, int>
    reads all
  {
    map x | x in all :: x.trackIndex
  }

  class TrackSet {
    const id: int
    var tracks: seq<Track>

    constructor (id: int, tracks: seq<Track>)
      ensures this.id == id && this.tracks == tracks
    {
      this.id, this.tracks := id, tracks;
    }

    /** `normalizeSet`: rebuild the tracks, then record every item's track and set. */
    method Normalize()
      modifies this, Flatten(tracks)
      ensures tracks == Arranged(old(Flatten(tracks)), old(Indexes(Flatten(tracks))))
      ensures old(UniqueIds(Flatten(tracks))) ==> IndexMatches(tracks, Indexes(Flatten(tracks)))
      ensures forall x :: x in Flatten(tracks) ==> x.trackSetId == id
    {
      hide Arranged, Group, OfKind, Ordered, PackAll, UniqueIds;
      var all := Flatten(tracks);
      var index := Indexes(all);
      ArrangedIsPermutation(all, index);
      ArrangedCases(all, index);
      if all == [] {
        tracks := [[]];
        assert Flatten(tracks) == [];
        return;
      }
      hide Flatten, Indexes;
      GroupUnfolds(all, index, false);
      GroupUnfolds(all, index, true);
      var nonUnits := Pack(Ordered(index, OfKind(all, false)));
      var units := Pack(Ordered(index, OfKind(all, true)));
      tracks := nonUnits + units;
      RecordTracks(all);
    }

    method RecordTracks(ghost all: seq<Item>)
      requires multiset(Flatten(tracks)) == multiset(all)
      modifies all
      ensures UniqueIds(all) ==> IndexMatches(tracks, Indexes(Flatten(tracks)))
      ensures forall x :: x in Flatten(tracks) ==> x.trackSetId == id
    {
      ghost var unique := UniqueIds(all);
      if unique {
        UniqueIdsPermuted(all, Flatten(tracks));
      }
      hide UniqueIds, Flatten;
      for ti := 0 to |tracks|
        invariant forall t, x :: 0 <= t < ti && x in tracks[t] ==> x.trackSetId == id
        invariant unique ==> forall t, x :: 0 <= t < ti && x in tracks[t] ==> x.trackIndex == t
      {
        var track := tracks[ti];
        for k := 0 to |track|
          invariant forall t, x :: 0 <= t < ti && x in tracks[t] ==> x.trackSetId == id
          invariant unique ==> forall t, x :: 0 <= t < ti && x in tracks[t] ==> x.trackIndex == t
          invariant forall n :: 0 <= n < k ==> track[n].trackIndex == ti && track[n].trackSetId == id
        {
          TrackMember(tracks, all, ti, track[k]);
          if unique {
            forall t | 0 <= t < ti ensures track[k] !in tracks[t] {
              ApartAt(tracks, t, ti, track[k]);
            }
          }
          track[k].trackIndex := ti;
          track[k].trackSetId := id;
        }
      }
      forall x | x in Flatten(tracks)
        ensures x.trackSetId == id
      {
        FlattenMembers(tracks, x);
      }
      forall ti, x | 0 <= ti < |tracks| && x in tracks[ti]
        ensures x in Flatten(tracks)
      {
        FlattenMembers(tracks, x);
      }
    }
  }

  lemma {:induction false} FlattenMembers(tracks: seq<Track>, x: Item)
    ensures x in Flatten(tracks) <==> exists t :: 0 <= t < |tracks| && x in tracks[t]
  {
    if tracks != [] {
      var n := |tracks| - 1;
      var front := tracks[..n];
      FlattenMembers(front, x);
      assert x in Flatten(tracks) <==> x in Flatten(front) || x in tracks[n];
      hide Flatten;
      if t :| 0 <= t < |front| && x in front[t] {
        assert x in tracks[t];
      }
      if t :| 0 <= t < |tracks| && x in tracks[t] {
        assert t < n ==> x in front[t];
      }
    }
  }

  lemma {:induction false} TrackMember(tracks: seq<Track>, all: seq<Item>, t: nat, x: Item)
    requires multiset(Flatten(tracks)) == multiset(all) && t < |tracks| && x in tracks[t]
    ensures x in all
  {
    FlattenMembers(tracks, x);
    SameMember(all, Flatten(tracks), x);
  }

  lemma {:induction false} ApartAt(tracks: seq<Track>, t: nat, u: nat, x: Item)
    requires UniqueIds(Flatten(tracks)) && t < u < |tracks| && x in tracks[u]
    ensures x !in tracks[t]
  {
    var n := |tracks| - 1;
    var front, last := Flatten(tracks[..n]), tracks[n];
    assert Flatten(tracks) == front + last;
    if u < n {
      assert UniqueIds(front) by {
        assert forall i :: 0 <= i < |front| ==> (front + last)[i] == front[i];
      }
      ApartAt(tracks[..n], t, u, x);
    } else {
      assert tracks[..n][t] == tracks[t];
      FlattenMembers(tracks[..n], x);
      var j :| 0 <= j < |last| && last[j] == x;
      forall i | 0 <= i < |front|
        ensures front[i] != x
      {
        assert (front + last)[i] == front[i] && (front + last)[|front| + j] == x;
      }
    }
  }

  // ----- Packing in terms of the items alone -----

  predicate Occupies(x: Item, t: real) { x.start <= t < x.start + x.build }

  /** Items with a build time overlap exactly when there is a moment at which both are built. */
  lemma {:induction false} OverlapIsSharedMoment(a: Item, b: Item)
    requires 0.0 < a.build && 0.0 < b.build
    ensures Overlap(a, b) <==> exists t :: Occupies(a, t) && Occupies(b, t)
  {
    if Overlap(a, b) {
      var t := if a.start < b.start then b.start else a.start;
      assert Occupies(a, t) && Occupies(b, t);
    }
  }

  /** First fit: an item shares no moment with the earlier items of its own track, and on every
      track before it shares one with some earlier item. */
  lemma {:induction false} FirstFitOnItems(g: seq<Item>, k: nat, t: nat)
    requires UniqueIds(g) && PositiveBuilds(g) && k < |g|
    ensures forall j :: 0 <= j < k && TrackAt(g, j) == TrackAt(g, k) ==> !exists x :: Occupies(g[j], x) && Occupies(g[k], x)
    ensures t < TrackAt(g, k) ==>
              exists j :: 0 <= j < k && TrackAt(g, j) == t && exists x :: Occupies(g[j], x) && Occupies(g[k], x)
  {
    forall j | 0 <= j < k && TrackAt(g, j) == TrackAt(g, k)
      ensures !exists x :: Occupies(g[j], x) && Occupies(g[k], x)
    {
      NoOverlapOnTrack(g, j, k);
      OverlapIsSharedMoment(g[j], g[k]);
    }
    if t < TrackAt(g, k) {
      var track := PackFirst(g, k)[t];
      assert OverlapsTrack(track, g[k]);
      var i :| 0 <= i < |track| && track[i].id != g[k].id && Overlap(g[k], track[i]);
      var j := Origin(g, k, t, track[i]);
      OverlapIsSharedMoment(g[k], g[j]);
    }
  }

  /** The items of each kind are packed in the order of start, recorded track and id. */
  lemma {:induction false} GroupOnItems(all: seq<Item>, index: map<Item, int>, units: bool)
    ensures forall x: Item :: multiset(Group(all, index, units))[x] == if x.isUnit == units then multiset(all)[x] else 0
    ensures var g := Group(all, index, units);
            forall i, j :: 0 <= i < j < |g| ==>
              g[i].start < g[j].start
              || (g[i].start == g[j].start
                  && (RecordedTrack(index, g[i]) < RecordedTrack(index, g[j])
                      || (RecordedTrack(index, g[i]) == RecordedTrack(index, g[j]) && g[i].id <= g[j].id)))
  {
    var g := Group(all, index, units);
    OrderedFacts(index, OfKind(all, units));
    hide Group, Ordered, OfKind;
    GroupUnfolds(all, index, units);
    forall x: Item
      ensures multiset(g)[x] == if x.isUnit == units then multiset(all)[x] else 0
    {
      OfKindCounts(all, units, x);
    }
    forall i, j | 0 <= i < j < |g|
      ensures g[i].start < g[j].start
              || (g[i].start == g[j].start
                  && (RecordedTrack(index, g[i]) < RecordedTrack(index, g[j])
                      || (RecordedTrack(index, g[i]) == RecordedTrack(index, g[j]) && g[i].id <= g[j].id)))
    {
      assert SortKey(index)(g[i], g[j]);
    }
  }

  function RecordedTrack(index: map<Item, int>, x: Item): int { if x in index then index[x] else 0 }

  /** A new set of tracks is that of the other items followed by that of the units; without items
      there is one empty track. */
  lemma {:induction false} ArrangedOnItems(all: seq<Item>, index: map<Item, int>)
    ensures all == [] ==> Arranged(all, index) == [[]]
    ensures all != [] ==>
              var n := |PackAll(Group(all, index, false))|;
              && |Arranged(all, index)| == n + |PackAll(Group(all, index, true))|
              && (forall t :: 0 <= t < n ==> Arranged(all, index)[t] == PackAll(Group(all, index, false))[t])
              && (forall t :: n <= t < |Arranged(all, index)| ==> Arranged(all, index)[t] == PackAll(Group(all, index, true))[t - n])
  {
    ArrangedCases(all, index);
    hide PackAll, Group, Arranged;
  }
}
