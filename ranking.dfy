/** Candidate collection and ranking: `convert` and `updateSelectionList`
    of the entity selector, and the stable sort they rely on. */
module Ranking {
  import opened Targets

  /** `MAX_TARGETS`: the most records a selection list holds. */
  const MaxTargets := 10

  /** `|min.z| + |max.z|` of the model's bounding box, or NaN (`None`). */
  function Height(e: Entity): (r: Option<int>)
    ensures r.Some? <==> e.dims.Some?
    ensures r.Some? ==> r.value >= 0
  {
    match e.dims
    case None => None
    case Some(b) => Some(Abs(b.minZ) + Abs(b.maxZ))
  }

  /** The self-exclusion test of `convert`: only for players, and it compares
      the entity's `id` with the local player's `scriptID`. */
  predicate Excluded(e: Entity, kind: Kind, me: LocalPlayer)
    ensures Excluded(e, kind, me) ==> kind == Player
  {
    kind == Player && e.id == me.scriptID
  }

  /** The record `convert` pushes for one entity. */
  function ToTarget(e: Entity, kind: Kind, me: LocalPlayer): (r: Target)
    ensures r.id == e.scriptID && r.pos == e.pos && r.kind == kind
    ensures r.dist == SqDist2D(me.pos, e.pos) && r.height == Height(e)
  {
    Target(e.scriptID, e.pos, kind, SqDist2D(me.pos, e.pos), Height(e))
  }

  /** What `convert` returns: the records of the entities that are not
      excluded, in input order. Defined from the back, as the loop pushes. */
  function Converted(ds: seq<Entity>, kind: Kind, me: LocalPlayer): (r: seq<Target>)
    ensures |r| <= |ds|
    ensures kind != Player ==>
      |r| == |ds| && forall i :: 0 <= i < |ds| ==> r[i] == ToTarget(ds[i], kind, me)
  {
    if ds == [] then []
    else
      var last := ds[|ds| - 1];
      Converted(ds[..|ds| - 1], kind, me) + (if Excluded(last, kind, me) then [] else [ToTarget(last, kind, me)])
  }

  /** `convert`: one pass over the entities, pushing a record for each that
      is not the local player. */
  method Convert(dataSet: seq<Entity>, kind: Kind, me: LocalPlayer) returns (entityInfo: seq<Target>)
    ensures entityInfo == Converted(dataSet, kind, me)
  {
    entityInfo := [];
    for i := 0 to |dataSet|
      invariant entityInfo == Converted(dataSet[..i], kind, me)
    {
      assert dataSet[..i + 1][..i] == dataSet[..i];
      if !(kind == Player && dataSet[i].id == me.scriptID) {
        var height := Height(dataSet[i]);
        var dist := SqDist2D(me.pos, dataSet[i].pos);
        entityInfo := entityInfo + [Target(dataSet[i].scriptID, dataSet[i].pos, kind, dist, height)];
      }
    }
    assert dataSet[..|dataSet|] == dataSet;
  }

  /** A record is produced exactly when some entity that is not excluded
      produces it. */
  lemma {:induction false} ConvertedMembership(ds: seq<Entity>, kind: Kind, me: LocalPlayer, t: Target)
    ensures t in Converted(ds, kind, me) <==>
      exists i :: 0 <= i < |ds| && !Excluded(ds[i], kind, me) && t == ToTarget(ds[i], kind, me)
  {
    if ds != [] {
      var init := ds[..|ds| - 1];
      ConvertedMembership(init, kind, me, t);
      assert forall i :: 0 <= i < |init| ==> init[i] == ds[i];
      if t in Converted(ds, kind, me) {
        if t !in Converted(init, kind, me) {
          assert !Excluded(ds[|ds| - 1], kind, me) && t == ToTarget(ds[|ds| - 1], kind, me);
        }
      }
    }
  }

  /** Converting preserves input order: converting a concatenation is the
      concatenation of the conversions. */
  lemma {:induction false} ConvertedAppend(a: seq<Entity>, b: seq<Entity>, kind: Kind, me: LocalPlayer)
    ensures Converted(a + b, kind, me) == Converted(a, kind, me) + Converted(b, kind, me)
    decreases |b|
  {
    if b == [] {
      assert a + b == a;
    } else {
      var b' := b[..|b| - 1];
      assert (a + b)[..|a + b| - 1] == a + b';
      ConvertedAppend(a, b', kind, me);
    }
  }

  /** Because the test reads `id` but the record stores `scriptID`, an entity
      whose `scriptID` is the local player's own handle is kept when its `id`
      differs from that handle. */
  lemma OwnHandleKeptWhenIdsDiffer(e: Entity, me: LocalPlayer)
    requires e.scriptID == me.scriptID && e.id != me.scriptID
    ensures var r := Converted([e], Player, me); |r| == 1 && r[0].id == me.scriptID
  {
    assert [e][..0] == [];
  }

  // ---------------------------------------------------------------------
  // The sort: `entityInfo.sort((a, b) => a.dist - b.dist)`, a stable sort.

  ghost predicate SortedByDist(s: seq<Target>)
  {
    forall i, j :: 0 <= i < j < |s| ==> s[i].dist <= s[j].dist
  }

  /** The records of `s` whose distance is `d`, in their order in `s`. */
  function KeyClass(s: seq<Target>, d: int): seq<Target>
  {
    if s == [] then []
    else (if s[0].dist == d then [s[0]] else []) + KeyClass(s[1..], d)
  }

  /** Inserts `x` before the first record that is not closer than it. */
  function InsertByDist(x: Target, r: seq<Target>): (q: seq<Target>)
    requires SortedByDist(r)
    ensures SortedByDist(q)
    ensures multiset(q) == multiset(r) + multiset{x}
  {
    if r == [] then [x]
    else if x.dist <= r[0].dist then [x] + r
    else
      SortedTail(r);
      var tail := InsertByDist(x, r[1..]);
      InsertPastHead(x, r, tail);
      [r[0]] + tail
  }

  /** Stable insertion sort by distance: the reference for the host's sort. */
  function SortByDist(s: seq<Target>): (r: seq<Target>)
    ensures SortedByDist(r)
    ensures multiset(r) == multiset(s)
    ensures |r| == |s|
  {
    if s == [] then []
    else
      assert s == [s[0]] + s[1..];
      var r := InsertByDist(s[0], SortByDist(s[1..]));
      assert |r| == |multiset(r)|;
      r
  }

  lemma KeyClassCons(y: Target, s: seq<Target>, d: int)
    ensures KeyClass([y] + s, d) == (if y.dist == d then [y] else []) + KeyClass(s, d)
  {
    assert ([y] + s)[1..] == s;
  }

  lemma {:induction false} InsertKeyClass(x: Target, r: seq<Target>, d: int)
    requires SortedByDist(r)
    ensures KeyClass(InsertByDist(x, r), d) == (if x.dist == d then [x] else []) + KeyClass(r, d)
  {
    if r == [] {
      assert InsertByDist(x, r) == [x] + [];
      KeyClassCons(x, [], d);
    } else if x.dist <= r[0].dist {
      assert InsertByDist(x, r) == [x] + r;
      KeyClassCons(x, r, d);
    } else {
      SortedTail(r);
      var tail := InsertByDist(x, r[1..]);
      InsertKeyClass(x, r[1..], d);
      assert InsertByDist(x, r) == [r[0]] + tail;
      assert [r[0]] + r[1..] == r;
      KeyClassPassOver(x, r[0], tail, r[1..], d);
    }
  }

  /** Putting the head of a sorted list in front of the insertion into its
      tail keeps the list sorted and adds exactly `x`. */
  lemma InsertPastHead(x: Target, r: seq<Target>, tail: seq<Target>)
    requires SortedByDist(r) && r != [] && r[0].dist < x.dist
    requires SortedByDist(tail) && multiset(tail) == multiset(r[1..]) + multiset{x}
    ensures SortedByDist([r[0]] + tail)
    ensures multiset([r[0]] + tail) == multiset(r) + multiset{x}
  {
    assert r == [r[0]] + r[1..];
    HeadIsLeast(r);
    forall k | 0 <= k < |tail| ensures r[0].dist <= tail[k].dist {
      assert tail[k] in multiset(tail);
    }
    var q := [r[0]] + tail;
    forall i, j | 0 <= i < j < |q| ensures q[i].dist <= q[j].dist {
      if i > 0 {
        assert q[i] == tail[i - 1] && q[j] == tail[j - 1];
      } else {
        assert q[j] == tail[j - 1];
      }
    }
  }

  /** The head of a sorted list is no farther than anything after it. */
  lemma HeadIsLeast(r: seq<Target>)
    requires SortedByDist(r) && r != []
    ensures forall u :: u in multiset(r[1..]) ==> r[0].dist <= u.dist
  {
    forall u | u in multiset(r[1..]) ensures r[0].dist <= u.dist {
      var j :| 0 <= j < |r[1..]| && r[1..][j] == u;
      assert r[j + 1] == u;
    }
  }

  lemma SortedTail(r: seq<Target>)
    requires SortedByDist(r) && r != []
    ensures SortedByDist(r[1..])
  {
  }

  /** Inserting past a record of another distance commutes with selecting
      one distance's records. */
  lemma KeyClassPassOver(x: Target, y: Target, tail: seq<Target>, rest: seq<Target>, d: int)
    requires x.dist != y.dist
    requires KeyClass(tail, d) == (if x.dist == d then [x] else []) + KeyClass(rest, d)
    ensures KeyClass([y] + tail, d) == (if x.dist == d then [x] else []) + KeyClass([y] + rest, d)
  {
    KeyClassCons(y, tail, d);
    KeyClassCons(y, rest, d);
  }

  /** Stability: for every distance, the records at that distance keep their
      relative input order. */
  lemma {:induction false} SortByDistStable(s: seq<Target>, d: int)
    ensures KeyClass(SortByDist(s), d) == KeyClass(s, d)
  {
    if s != [] {
      SortByDistStable(s[1..], d);
      InsertKeyClass(s[0], SortByDist(s[1..]), d);
    }
  }

  /** JavaScript's `slice(0, end)`: an end past the length is clamped. */
  function Slice(s: seq<Target>, end: nat): (r: seq<Target>)
    ensures |r| == Min(end, |s|) && r == s[..|r|]
  {
    s[..if end < |s| then end else |s|]
  }

  /** The concatenated player, vehicle and object records, in that order. */
  function Candidates(w: World): seq<Target>
  {
    Converted(w.players, Player, w.me) + Converted(w.vehicles, Vehicle, w.me) + Converted(w.objects, Object, w.me)
  }

  /** What `updateSelectionList` stores: the sorted candidates cut with the
      source's bound `length < 5 ? length : MAX_TARGETS`. */
  function Ranked(w: World): (r: seq<Target>)
    ensures |r| <= MaxTargets
  {
    var sorted := SortByDist(Candidates(w));
    Slice(sorted, if |sorted| < 5 then |sorted| else MaxTargets)
  }

  /** In a sorted list, nothing after position `n` is closer than anything
      before it. */
  lemma PrefixIsClosest(sorted: seq<Target>, n: nat)
    requires SortedByDist(sorted) && n <= |sorted|
    ensures forall t, u :: t in sorted[..n] && u in sorted[n..] ==> t.dist <= u.dist
  {
    forall t, u | t in sorted[..n] && u in sorted[n..] ensures t.dist <= u.dist {
      var i :| 0 <= i < n && sorted[..n][i] == t;
      var j :| 0 <= j < |sorted| - n && sorted[n..][j] == u;
      assert sorted[i] == t && sorted[n + j] == u;
    }
  }

  lemma PrefixMultiset(s: seq<Target>, n: nat)
    requires n <= |s|
    ensures multiset(s[..n]) <= multiset(s)
    ensures multiset(s) - multiset(s[..n]) == multiset(s[n..])
  {
    assert s == s[..n] + s[n..];
  }

  /** The ranked list is the stable sort of all candidates cut to
      `min(n, 10)`; it is sorted, drawn from the candidates, and no record
      left out is closer than one kept. */
  lemma RankedList(w: World)
    ensures var all := Candidates(w); var r := Ranked(w);
      && r == SortByDist(all)[..Min(|all|, MaxTargets)]
      && SortedByDist(r)
      && multiset(r) <= multiset(all)
      && forall t, u :: t in r && u in multiset(all) - multiset(r) ==> t.dist <= u.dist
  {
    var all := Candidates(w);
    var sorted := SortByDist(all);
    var n := Min(|all|, MaxTargets);
    assert Ranked(w) == sorted[..n];
    PrefixMultiset(sorted, n);
    PrefixIsClosest(sorted, n);
  }

  lemma SortTies(ta: Target, tb: Target, tc: Target)
    requires ta.dist == tc.dist < tb.dist
    ensures SortByDist([ta, tb, tc]) == [ta, tc, tb]
  {
    assert InsertByDist(tb, [tc]) == [tc, tb];
    assert SortByDist([tb, tc]) == [tc, tb] by {
      assert [tb, tc][1..] == [tc];
      assert SortByDist([tc]) == [tc];
    }
    assert [ta, tb, tc][1..] == [tb, tc];
  }

  lemma ObjectsOnly(me: LocalPlayer, a: Entity, b: Entity, c: Entity)
    ensures Candidates(World(me, [], [], [a, b, c], [], []))
         == [ToTarget(a, Object, me), ToTarget(b, Object, me), ToTarget(c, Object, me)]
  {
    assert Converted([], Player, me) == [] && Converted([], Vehicle, me) == [];
  }

  lemma ScenarioDistances(me: LocalPlayer, a: Entity, b: Entity, c: Entity)
    requires me.pos == Vec3(0, 0, 0)
    requires a.pos == Vec3(2, 0, 0) && b.pos == Vec3(5, 0, 0) && c.pos == Vec3(0, 2, 0)
    ensures ToTarget(a, Object, me).dist == 4 && ToTarget(b, Object, me).dist == 25
    ensures ToTarget(c, Object, me).dist == 4
  {
  }

  /** Equal distances keep their input order: three objects at squared
      distances 4, 25 and 4 rank as first, third, second. */
  lemma RankingScenario(me: LocalPlayer, a: Entity, b: Entity, c: Entity)
    requires me.pos == Vec3(0, 0, 0)
    requires a.pos == Vec3(2, 0, 0) && b.pos == Vec3(5, 0, 0) && c.pos == Vec3(0, 2, 0)
    ensures var w := World(me, [], [], [a, b, c], [], []);
      Ranked(w) == [ToTarget(a, Object, me), ToTarget(c, Object, me), ToTarget(b, Object, me)]
  {
    var ta, tb, tc := ToTarget(a, Object, me), ToTarget(b, Object, me), ToTarget(c, Object, me);
    ObjectsOnly(me, a, b, c);
    ScenarioDistances(me, a, b, c);
    SortTies(ta, tb, tc);
  }
}
