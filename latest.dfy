/** The latest-fix reducer: one feature per unit, the most recent report
    winning, units listed in the order they were first reported. */
module Latest {
  import opened Wrappers
  import opened Json
  import opened Feed
  import opened Normalizer
  import opened OrderedMaps

  /** A feature's map key: its id, which may be absent. */
  type Key = Option<Json>

  /** `new Date(x)` as a time value: `None` stands for an Invalid Date (an
      unparseable string, an absent field, ...). */
  type Clock = Option<Json> -> Option<int>

  function Stamp(toTime: Clock, f: Feature): Option<int> {
    toTime(f.metadata.posTime)
  }

  /** The replacement test: both position times are valid dates and the
      incoming one is strictly later. An invalid date on either side makes it
      false. */
  predicate Newer(toTime: Clock, previous: Feature, incoming: Feature): (r: bool)
    ensures Stamp(toTime, previous).None? || Stamp(toTime, incoming).None? ==> !r
    ensures Stamp(toTime, previous) == Stamp(toTime, incoming) ==> !r
  {
    && Stamp(toTime, previous).Some?
    && Stamp(toTime, incoming).Some?
    && Stamp(toTime, previous).value < Stamp(toTime, incoming).value
  }

  // ---------------------------------------------------------------------
  // The reduction as a fold over the map's value

  /** One iteration of the loop body. */
  function Step(toTime: Clock, t: Table<Key, Feature>, f: Feature): (r: Table<Key, Feature>)
    ensures t.Valid() ==> r.Valid()
    ensures r.Get(f.id).Some?
  {
    match t.Get(f.id)
    case None => t.Set(f.id, f)
    case Some(previous) => if Newer(toTime, previous, f) then t.Set(f.id, f) else t
  }

  /** The map after the loop has seen all of `fs`. */
  function Fold(toTime: Clock, fs: seq<Feature>): (t: Table<Key, Feature>)
    ensures t.Valid()
    decreases |fs|
  {
    if fs == [] then Table([], map[])
    else Step(toTime, Fold(toTime, fs[..|fs| - 1]), fs[|fs| - 1])
  }

  /** The emitted features: the map's values in insertion order. */
  function LatestFixes(toTime: Clock, fs: seq<Feature>): (r: seq<Feature>)
    ensures |r| <= |fs|
    ensures r == [] <==> fs == []
  {
    FoldSize(toTime, fs);
    Fold(toTime, fs).Values()
  }

  /** Each report adds at most one key, and the first one adds one. */
  lemma {:induction false} FoldSize(toTime: Clock, fs: seq<Feature>)
    ensures |Fold(toTime, fs).keys| <= |fs|
    ensures fs != [] ==> |Fold(toTime, fs).keys| > 0
    decreases |fs|
  {
    if fs != [] {
      var p, f := fs[..|fs| - 1], fs[|fs| - 1];
      FoldSize(toTime, p);
      var t := Fold(toTime, p);
      assert Fold(toTime, fs) == Step(toTime, t, f);
      assert f.id in Step(toTime, t, f).keys;
    }
  }

  // ---------------------------------------------------------------------
  // An independent description of which report is kept

  function Ids(fs: seq<Feature>): seq<Key> {
    seq(|fs|, i requires 0 <= i < |fs| => fs[i].id)
  }

  /** The position of the first report of unit `k`. */
  function FirstReport(fs: seq<Feature>, k: Key): (n: nat)
    requires k in Ids(fs)
    ensures n < |fs| && fs[n].id == k
    ensures forall i :: 0 <= i < n ==> fs[i].id != k
    decreases |fs|
  {
    var p := fs[..|fs| - 1];
    assert Ids(fs) == Ids(p) + [fs[|fs| - 1].id];
    if k in Ids(p) then FirstReport(p, k)
    else
      assert forall i :: 0 <= i < |p| ==> Ids(p)[i] == fs[i].id;
      |fs| - 1
  }

  /** The report at `j` is the one kept for its unit: when the unit's first
      report has an invalid date, that first report; otherwise the report
      with the latest valid date, and the earliest of those if several share
      it. */
  ghost predicate KeptAt(toTime: Clock, fs: seq<Feature>, j: int) {
    && 0 <= j < |fs|
    && var k := fs[j].id;
       assert Ids(fs)[j] == k;
       var first := FirstReport(fs, k);
       if Stamp(toTime, fs[first]).None? then j == first
       else
         && Stamp(toTime, fs[j]).Some?
         && (forall i :: 0 <= i < |fs| && fs[i].id == k && Stamp(toTime, fs[i]).Some? ==>
               Stamp(toTime, fs[i]).value <= Stamp(toTime, fs[j]).value)
         && (forall i :: 0 <= i < j && fs[i].id == k && Stamp(toTime, fs[i]).Some? ==>
               Stamp(toTime, fs[i]).value < Stamp(toTime, fs[j]).value)
  }

  /** `keys` lists units in the order of their first report in `fs`. */
  ghost predicate FirstSeenOrdered(fs: seq<Feature>, keys: seq<Key>) {
    forall a, b :: 0 <= a < b < |keys| ==>
      keys[a] in Ids(fs) && keys[b] in Ids(fs) && FirstReport(fs, keys[a]) < FirstReport(fs, keys[b])
  }

  // ---------------------------------------------------------------------
  // Facts about appending one report

  lemma IdsSnoc(p: seq<Feature>, f: Feature)
    ensures Ids(p + [f]) == Ids(p) + [f.id]
  {
  }

  lemma FirstReportSnoc(p: seq<Feature>, f: Feature, k: Key)
    requires k in Ids(p)
    ensures k in Ids(p + [f]) && FirstReport(p + [f], k) == FirstReport(p, k)
  {
    IdsSnoc(p, f);
    assert (p + [f])[..|p|] == p;
  }

  lemma FirstReportFresh(p: seq<Feature>, f: Feature)
    requires f.id !in Ids(p)
    ensures f.id in Ids(p + [f]) && FirstReport(p + [f], f.id) == |p|
  {
    IdsSnoc(p, f);
    assert (p + [f])[..|p|] == p;
  }

  /** A kept report stays kept when the next report is for another unit or
      is not newer. */
  lemma KeptAtExtend(toTime: Clock, p: seq<Feature>, f: Feature, j: int)
    requires KeptAt(toTime, p, j)
    requires f.id != p[j].id || !Newer(toTime, p[j], f)
    ensures KeptAt(toTime, p + [f], j)
  {
  }

  /** A newer report of the unit takes over. */
  lemma KeptAtNewer(toTime: Clock, p: seq<Feature>, f: Feature, j: int)
    requires KeptAt(toTime, p, j)
    requires f.id == p[j].id && Newer(toTime, p[j], f)
    ensures KeptAt(toTime, p + [f], |p|)
  {
  }

  /** The first report of a unit is kept for now. */
  lemma KeptAtFresh(toTime: Clock, p: seq<Feature>, f: Feature)
    requires f.id !in Ids(p)
    ensures KeptAt(toTime, p + [f], |p|)
  {
  }

  /** What one iteration does to the map. */
  lemma StepShape(toTime: Clock, t: Table<Key, Feature>, f: Feature)
    requires t.Valid()
    ensures var t' := Step(toTime, t, f);
      && t'.keys == (if f.id in t.entries then t.keys else t.keys + [f.id])
      && (forall k :: k != f.id ==> t'.Get(k) == t.Get(k))
      && f.id in t'.entries
      && t'.entries[f.id] == (if f.id !in t.entries || Newer(toTime, t.entries[f.id], f) then f else t.entries[f.id])
  {
  }

  /** The key order after one iteration: an absent unit goes last. */
  lemma StepKeys(toTime: Clock, t: Table<Key, Feature>, f: Feature)
    ensures Step(toTime, t, f).keys == (if f.id in t.entries then t.keys else t.keys + [f.id])
  {
  }

  /** The first report of a unit is simply added at the end. */
  lemma StepFresh(toTime: Clock, t: Table<Key, Feature>, f: Feature)
    requires f.id !in t.entries
    ensures Step(toTime, t, f) == Table(t.keys + [f.id], t.entries[f.id := f])
  {
  }

  lemma FoldSnoc(toTime: Clock, p: seq<Feature>, f: Feature)
    ensures Fold(toTime, p + [f]) == Step(toTime, Fold(toTime, p), f)
  {
    assert (p + [f])[..|p|] == p;
  }

  // ---------------------------------------------------------------------
  // What the fold computes

  /** The map holds an entry for exactly the units reported, each under its
      own id. */
  lemma {:induction false} FoldDomain(toTime: Clock, fs: seq<Feature>)
    ensures forall k :: k in Fold(toTime, fs).entries <==> k in Ids(fs)
    ensures forall k :: k in Fold(toTime, fs).entries ==> Fold(toTime, fs).entries[k].id == k
    decreases |fs|
  {
    if fs != [] {
      var p, f := fs[..|fs| - 1], fs[|fs| - 1];
      assert fs == p + [f];
      FoldDomain(toTime, p);
      IdsSnoc(p, f);
      FoldSnoc(toTime, p, f);
      StepShape(toTime, Fold(toTime, p), f);
    }
  }

  /** Each entry of the map is the report kept for its unit. */
  lemma {:induction false} FoldKeeps(toTime: Clock, fs: seq<Feature>)
    ensures forall k :: k in Fold(toTime, fs).entries ==>
      exists j :: KeptAt(toTime, fs, j) && fs[j].id == k && Fold(toTime, fs).entries[k] == fs[j]
    decreases |fs|
  {
    if fs != [] {
      var p, f := fs[..|fs| - 1], fs[|fs| - 1];
      assert fs == p + [f];
      FoldKeeps(toTime, p);
      FoldDomain(toTime, p);
      IdsSnoc(p, f);
      var t, t' := Fold(toTime, p), Fold(toTime, fs);
      FoldSnoc(toTime, p, f);
      StepShape(toTime, t, f);
      forall k | k in t'.entries
        ensures exists j :: KeptAt(toTime, fs, j) && fs[j].id == k && t'.entries[k] == fs[j]
      {
        if k == f.id && k !in t.entries {
          KeptAtFresh(toTime, p, f);
          assert KeptAt(toTime, fs, |p|) && fs[|p|] == f;
        } else {
          assert k in t.entries by {
            if k != f.id { assert t'.Get(k) == t.Get(k); }
          }
          assert f.id in t.entries ==> f.id in Ids(p);
          var j :| KeptAt(toTime, p, j) && p[j].id == k && t.entries[k] == p[j];
          if k == f.id && Newer(toTime, p[j], f) {
            KeptAtNewer(toTime, p, f, j);
            assert t'.entries[k] == f == fs[|p|];
          } else {
            KeptAtExtend(toTime, p, f, j);
            assert t'.Get(k) == t.Get(k);
            assert t'.entries[k] == p[j] == fs[j];
          }
        }
      }
    }
  }

  /** Appending a report keeps a first-seen order, and a new unit's key may
      follow every existing one. */
  lemma FirstSeenOrderedSnoc(p: seq<Feature>, f: Feature, keys: seq<Key>)
    requires FirstSeenOrdered(p, keys)
    requires forall a :: 0 <= a < |keys| ==> keys[a] in Ids(p)
    ensures FirstSeenOrdered(p + [f], keys)
    ensures f.id !in Ids(p) ==> FirstSeenOrdered(p + [f], keys + [f.id])
  {
    forall a | 0 <= a < |keys|
      ensures keys[a] in Ids(p + [f]) && FirstReport(p + [f], keys[a]) == FirstReport(p, keys[a])
    {
      FirstReportSnoc(p, f, keys[a]);
    }
    if f.id !in Ids(p) {
      FirstReportFresh(p, f);
      var ks := keys + [f.id];
      forall a, b | 0 <= a < b < |ks|
        ensures ks[a] in Ids(p + [f]) && ks[b] in Ids(p + [f])
                && FirstReport(p + [f], ks[a]) < FirstReport(p + [f], ks[b])
      {
        if b < |keys| {
          assert ks[a] == keys[a] && ks[b] == keys[b];
        } else {
          assert ks[a] == keys[a] && ks[b] == f.id;
        }
      }
    }
  }

  /** Keys enter the map in the order their units were first reported. */
  lemma {:induction false} FoldOrder(toTime: Clock, fs: seq<Feature>)
    ensures FirstSeenOrdered(fs, Fold(toTime, fs).keys)
    decreases |fs|
  {
    if fs != [] {
      var p, f := fs[..|fs| - 1], fs[|fs| - 1];
      assert fs == p + [f];
      FoldOrder(toTime, p);
      FoldDomain(toTime, p);
      var t := Fold(toTime, p);
      assert forall a :: 0 <= a < |t.keys| ==> t.keys[a] in t.entries;
      FoldSnoc(toTime, p, f);
      StepKeys(toTime, t, f);
      FirstSeenOrderedSnoc(p, f, t.keys);
    }
  }

  // ---------------------------------------------------------------------
  // What the emitted batch satisfies

  /** At most one feature per unit. */
  lemma OnePerUnit(toTime: Clock, fs: seq<Feature>)
    ensures var r := LatestFixes(toTime, fs);
      forall a, b :: 0 <= a < b < |r| ==> r[a].id != r[b].id
  {
    FoldDomain(toTime, fs);
  }

  /** The units in the batch are exactly the units reported. */
  lemma SameUnits(toTime: Clock, fs: seq<Feature>)
    ensures var r := LatestFixes(toTime, fs);
      forall k :: k in Ids(r) <==> k in Ids(fs)
  {
    var t, r := Fold(toTime, fs), LatestFixes(toTime, fs);
    FoldDomain(toTime, fs);
    assert forall a :: 0 <= a < |r| ==> Ids(r)[a] == t.keys[a];
    forall k ensures k in Ids(r) <==> k in t.keys {
      if k in t.keys {
        var a :| 0 <= a < |t.keys| && t.keys[a] == k;
        assert Ids(r)[a] == k;
      }
    }
  }

  /** Each feature in the batch is the report kept for its unit. */
  lemma EachKept(toTime: Clock, fs: seq<Feature>)
    ensures var r := LatestFixes(toTime, fs);
      forall a :: 0 <= a < |r| ==> exists j :: KeptAt(toTime, fs, j) && r[a] == fs[j]
  {
    var t, r := Fold(toTime, fs), LatestFixes(toTime, fs);
    FoldKeeps(toTime, fs);
    forall a | 0 <= a < |r| ensures exists j :: KeptAt(toTime, fs, j) && r[a] == fs[j] {
      var j :| KeptAt(toTime, fs, j) && fs[j].id == t.keys[a] && t.entries[t.keys[a]] == fs[j];
    }
  }

  /** Units appear in the order of their first report; replacing a unit's
      feature does not move it. */
  lemma FirstSeenOrder(toTime: Clock, fs: seq<Feature>)
    ensures FirstSeenOrdered(fs, Ids(LatestFixes(toTime, fs)))
  {
    var t, r := Fold(toTime, fs), LatestFixes(toTime, fs);
    FoldDomain(toTime, fs);
    FoldOrder(toTime, fs);
    forall a | 0 <= a < |r| ensures Ids(r)[a] == t.keys[a] {
      assert t.keys[a] in t.keys;
    }
    assert Ids(r) == t.keys;
  }

  /** The kept report is determined: a unit has only one. */
  lemma KeptAtUnique(toTime: Clock, fs: seq<Feature>, j1: int, j2: int)
    requires KeptAt(toTime, fs, j1) && KeptAt(toTime, fs, j2) && fs[j1].id == fs[j2].id
    ensures j1 == j2
  {
  }

  /** No report of a unit would replace the feature the batch holds for it:
      when that feature's position time is a valid date, it is at least the
      position time of every report of the unit that has one. */
  lemma NoNewerReport(toTime: Clock, fs: seq<Feature>)
    ensures var r := LatestFixes(toTime, fs);
      forall a, i :: 0 <= a < |r| && 0 <= i < |fs| && fs[i].id == r[a].id ==> !Newer(toTime, r[a], fs[i])
  {
    var r := LatestFixes(toTime, fs);
    EachKept(toTime, fs);
    forall a, i | 0 <= a < |r| && 0 <= i < |fs| && fs[i].id == r[a].id
      ensures !Newer(toTime, r[a], fs[i])
    {
      var j :| KeptAt(toTime, fs, j) && r[a] == fs[j];
      assert Ids(fs)[j] == fs[j].id;
    }
  }

  /** Replacement needs a strictly later valid date: of two reports of a
      unit with the same position time, or when the first one's is not a
      valid date, the first one stays. */
  lemma FirstOfTiedStays(toTime: Clock, x: Feature, y: Feature)
    requires x.id == y.id
    requires Stamp(toTime, x) == Stamp(toTime, y) || Stamp(toTime, x).None?
    ensures LatestFixes(toTime, [x, y]) == [x]
  {
    assert [x, y][..1] == [x];
    assert [x][..0] == [];
    FoldSnoc(toTime, [], x);
    FoldSnoc(toTime, [x], y);
    var t := Fold(toTime, [x]);
    assert t == Table([x.id], map[x.id := x]);
    assert t.Get(y.id) == Some(x) && !Newer(toTime, x, y);
    assert Fold(toTime, [x, y]) == Step(toTime, t, y) == t;
  }

  /** Two reports of one unit, the second newer: the map holds the second. */
  lemma NewerSecondReport(toTime: Clock, a: Feature, b: Feature)
    requires a.id == b.id && Newer(toTime, a, b)
    ensures Fold(toTime, [a, b]) == Table([a.id], map[a.id := b])
  {
    var t1 := Table([a.id], map[a.id := a]);
    FoldSnoc(toTime, [], a);
    assert [] + [a] == [a];
    StepFresh(toTime, Table([], map[]), a);
    FoldSnoc(toTime, [a], b);
    assert [a] + [b] == [a, b];
    assert Fold(toTime, [a, b]) == t1.Set(a.id, b);
  }

  /** The worked example of two units: the later fix of the first unit wins
      and keeps the first unit's place ahead of the second. */
  lemma TwoUnitsExample(toTime: Clock, u1a: Feature, u1b: Feature, u2: Feature)
    requires u1a.id == u1b.id != u2.id
    requires Stamp(toTime, u1a) == Some(0) && Stamp(toTime, u1b) == Some(3600000)
    requires Stamp(toTime, u2) == Some(1800000)
    ensures LatestFixes(toTime, [u1a, u1b, u2]) == [u1b, u2]
  {
    var k1, k2 := u1a.id, u2.id;
    var t2 := Table([k1], map[k1 := u1b]);
    var t3 := Table([k1, k2], map[k1 := u1b, k2 := u2]);
    assert Fold(toTime, [u1a, u1b]) == t2 by {
      assert Newer(toTime, u1a, u1b);
      NewerSecondReport(toTime, u1a, u1b);
    }
    assert Fold(toTime, [u1a, u1b, u2]) == t3 by {
      FoldSnoc(toTime, [u1a, u1b], u2);
      assert [u1a, u1b] + [u2] == [u1a, u1b, u2];
      StepFresh(toTime, t2, u2);
    }
    assert t3.Values() == [u1b, u2];
  }

  /** Adding a fresh key appends its value to the values. */
  lemma ValuesAppend(t: Table<Key, Feature>, k: Key, v: Feature)
    requires t.Valid() && k !in t.entries
    ensures Table(t.keys + [k], t.entries[k := v]).Valid()
    ensures Table(t.keys + [k], t.entries[k := v]).Values() == t.Values() + [v]
  {
    var t' := Table(t.keys + [k], t.entries[k := v]);
    assert t' == t.Set(k, v);
    forall a | 0 <= a < |t.keys| ensures t'.Values()[a] == t.Values()[a] {
      assert t.keys[a] in t.entries;
    }
  }

  /** A batch whose ids are already distinct comes out unchanged. */
  lemma {:induction false} DistinctUnchanged(toTime: Clock, fs: seq<Feature>)
    requires forall a, b :: 0 <= a < b < |fs| ==> fs[a].id != fs[b].id
    ensures LatestFixes(toTime, fs) == fs
    decreases |fs|
  {
    if fs != [] {
      var p, f := fs[..|fs| - 1], fs[|fs| - 1];
      assert fs == p + [f];
      DistinctUnchanged(toTime, p);
      FoldDomain(toTime, p);
      var t := Fold(toTime, p);
      assert f.id !in Ids(p) by {
        forall i | 0 <= i < |p| ensures Ids(p)[i] != f.id {
          assert fs[i] == p[i];
        }
      }
      FoldSnoc(toTime, p, f);
      StepFresh(toTime, t, f);
      ValuesAppend(t, f.id, f);
    }
  }

  /** Reducing a reduced batch changes nothing. */
  lemma Idempotent(toTime: Clock, fs: seq<Feature>)
    ensures LatestFixes(toTime, LatestFixes(toTime, fs)) == LatestFixes(toTime, fs)
  {
    OnePerUnit(toTime, fs);
    DistinctUnchanged(toTime, LatestFixes(toTime, fs));
  }

  // ---------------------------------------------------------------------
  // The loop

  /** The body of the `forEach` callback on the map object: store a unit's
      first report, and replace a retained report only by a newer one. */
  method Visit(toTime: Clock, latest: InsertionMap<Key, Feature>, feature: Feature)
    modifies latest
    ensures latest.Model() == Step(toTime, old(latest.Model()), feature)
  {
    var previous := latest.Get(feature.id);
    if previous.None? {
      latest.Set(feature.id, feature);
    } else if Newer(toTime, previous.value, feature) {
      latest.Set(feature.id, feature);
    }
  }

  /** The source's loop: each accepted feature is normalized and then either
      inserted (unit not seen yet) or allowed to replace the retained feature
      (strictly newer position time); the batch is the map's values. */
  method ReduceLatest(toTime: Clock, raws: seq<RawFeature>) returns (r: Result<seq<Feature>, Error>)
    ensures r.Err? <==> exists i :: 0 <= i < |raws| && raws[i].properties == JNull
    ensures r.Err? ==> r.error == NullProperties
    ensures r.Ok? ==> NormalizeEach(raws).Ok? && r.value == LatestFixes(toTime, NormalizeEach(raws).value)
  {
    var latest := new InsertionMap<Key, Feature>();
    ghost var seen: seq<Feature> := [];
    var i := 0;
    while i < |raws|
      invariant 0 <= i <= |raws|
      invariant |seen| == i
      invariant forall j {:trigger NormalizeFeature(raws[j])} :: 0 <= j < i ==> NormalizeFeature(raws[j]) == Some(seen[j])
      invariant latest.Model() == Fold(toTime, seen)
    {
      var processed := NormalizeFeature(raws[i]);
      if processed.None? {
        assert raws[i].properties == JNull;
        return Err(NullProperties);
      }
      var feature := processed.value;
      FoldSnoc(toTime, seen, feature);
      Visit(toTime, latest, feature);
      ghost var next := seen + [feature];
      forall j | 0 <= j < i + 1 ensures NormalizeFeature(raws[j]) == Some(next[j]) {
        if j < i {
          assert next[j] == seen[j];
        }
      }
      seen := next;
      i := i + 1;
    }
    NormalizeEachAll(raws, seen);
    var values := latest.Values();
    r := Ok(values);
  }

  /** When every feature normalizes, the batch normalizes to exactly those
      features. */
  lemma NormalizeEachAll(raws: seq<RawFeature>, done: seq<Feature>)
    requires |done| == |raws|
    requires forall j :: 0 <= j < |raws| ==> NormalizeFeature(raws[j]) == Some(done[j])
    ensures NormalizeEach(raws) == Ok(done)
  {
  }
}
