/** `refine_inventory`: four inclusive threshold filters on a copy of the
    inventory, then, when a period is given, at most one record per period:
    the one that comes first when the rows are sorted by day (ascending),
    score (descending), AOI overlap (descending) and cloud cover (ascending). */
module Refine {
  import opened Wrappers
  import opened Records
  import opened Seqs

  /** A calendar bucketing unit (`freq` of `pd.Grouper`): the ordinal of the
      period a day falls in. Which weekday ends a week, and the like, is the
      concern of this function and not of the model. Any function is
      allowed; the bins of `pd.Grouper` are monotone in time, and only for
      such a function does "sorted by period" below mean sorted in time. */
  type Period = Date -> int

  /** `a` sorts strictly before `b` under the deduplication order. */
  predicate Precedes(a: Record, b: Record) {
    var da, db := DayKey(a.timestamp.date), DayKey(b.timestamp.date);
    da < db ||
    (da == db &&
      (a.totalScore > b.totalScore ||
      (a.totalScore == b.totalScore &&
        (a.aoiOverlap > b.aoiOverlap ||
        (a.aoiOverlap == b.aoiOverlap && a.cloudCover < b.cloudCover)))))
  }

  /** The order is a strict weak order: irreflexive, asymmetric, and a row
      before `b` is before every row that `b` is not after. */
  lemma PrecedesStrictWeakOrder(a: Record, b: Record, c: Record)
    ensures !Precedes(a, a)
    ensures Precedes(a, b) ==> !Precedes(b, a)
    ensures Precedes(a, b) && !Precedes(c, b) ==> Precedes(a, c)
  {
  }

  // ----- the threshold filters -----

  /** The four inclusive thresholds. */
  predicate Passes(r: Record, maxCloud: real, minScene: real, minAoi: real, minScore: int) {
    r.cloudCover <= maxCloud && r.sceneOverlap >= minScene &&
    r.aoiOverlap >= minAoi && r.totalScore >= minScore
  }

  /** The selections of lines 217-220, one per threshold. */
  function CloudAtMost(maxCloud: real): Record -> bool { (r: Record) => r.cloudCover <= maxCloud }
  function SceneAtLeast(minScene: real): Record -> bool { (r: Record) => r.sceneOverlap >= minScene }
  function AoiAtLeast(minAoi: real): Record -> bool { (r: Record) => r.aoiOverlap >= minAoi }
  function ScoreAtLeast(minScore: int): Record -> bool { (r: Record) => r.totalScore >= minScore }
  function PassesAll(maxCloud: real, minScene: real, minAoi: real, minScore: int): Record -> bool {
    (r: Record) => Passes(r, maxCloud, minScene, minAoi, minScore)
  }

  /** The four selections, applied one after the other. */
  function Thresholds(s: seq<Record>, maxCloud: real, minScene: real, minAoi: real, minScore: int): seq<Record> {
    Keep(Keep(Keep(Keep(s, CloudAtMost(maxCloud)), SceneAtLeast(minScene)), AoiAtLeast(minAoi)), ScoreAtLeast(minScore))
  }

  /** The chain of filters selects exactly the rows that pass all four
      thresholds, in their original order. */
  lemma ThresholdsExact(s: seq<Record>, maxCloud: real, minScene: real, minAoi: real, minScore: int)
    ensures Thresholds(s, maxCloud, minScene, minAoi, minScore) ==
            Keep(s, PassesAll(maxCloud, minScene, minAoi, minScore))
  {
    var p1, p2, p3, p4 := CloudAtMost(maxCloud), SceneAtLeast(minScene), AoiAtLeast(minAoi), ScoreAtLeast(minScore);
    KeepKeep(s, p1, p2);
    KeepKeep(s, Both(p1, p2), p3);
    KeepKeep(s, Both(Both(p1, p2), p3), p4);
    KeepExt(s, Both(Both(Both(p1, p2), p3), p4), PassesAll(maxCloud, minScene, minAoi, minScore));
  }

  // ----- one record per period -----
  //
  // The deduplication is stated over any row type `T`, a period `key` and a
  // strict weak order `before`, and then used with records and `Precedes`.

  /** The strict-weak-order laws for three given rows. */
  predicate OrderedAt<T>(before: (T, T) -> bool, a: T, b: T, c: T) {
    !before(a, a) && (before(a, b) ==> !before(b, a)) &&
    (before(a, b) && !before(c, b) ==> before(a, c))
  }

  ghost predicate StrictWeak<T(!new)>(before: (T, T) -> bool) {
    forall a, b, c :: OrderedAt(before, a, b, c)
  }

  predicate StrictlyKeySorted<T>(s: seq<T>, key: T -> int) {
    forall i, j :: 0 <= i < j < |s| ==> key(s[i]) < key(s[j])
  }

  /** Adds a row to a result that holds at most one row per period, sorted by
      period: a new period gets its place, an existing one keeps its row unless
      the new row sorts strictly before it (so of fully tied rows the earlier
      one stays, as after a stable sort). */
  function Insert<T>(acc: seq<T>, r: T, key: T -> int, before: (T, T) -> bool): seq<T>
    decreases |acc|
  {
    if acc == [] then [r]
    else if key(r) < key(acc[0]) then [r] + acc
    else if key(r) == key(acc[0]) then
      (if before(r, acc[0]) then [r] + acc[1..] else acc)
    else [acc[0]] + Insert(acc[1..], r, key, before)
  }

  /** Sort, group by period, keep the first row of each group. */
  function Dedup<T>(s: seq<T>, key: T -> int, before: (T, T) -> bool): seq<T> {
    if s == [] then [] else Insert(Dedup(s[..|s| - 1], key, before), s[|s| - 1], key, before)
  }

  /** Every row of an insertion is the new row or a row that was there. */
  lemma {:induction false} InsertFrom<T>(acc: seq<T>, r: T, key: T -> int, before: (T, T) -> bool)
    ensures forall o :: o in Insert(acc, r, key, before) ==> o == r || o in acc
    decreases |acc|
  {
    if acc != [] && key(r) > key(acc[0]) {
      InsertFrom(acc[1..], r, key, before);
      assert acc == [acc[0]] + acc[1..];
    }
  }

  lemma {:induction false} InsertSorted<T>(acc: seq<T>, r: T, key: T -> int, before: (T, T) -> bool)
    requires StrictlyKeySorted(acc, key)
    ensures StrictlyKeySorted(Insert(acc, r, key, before), key)
    decreases |acc|
  {
    var res := Insert(acc, r, key, before);
    if acc != [] && key(r) > key(acc[0]) {
      var tail := acc[1..];
      InsertSorted(tail, r, key, before);
      InsertFrom(tail, r, key, before);
      var sub := Insert(tail, r, key, before);
      assert res == [acc[0]] + sub;
      forall k | 0 <= k < |sub| ensures key(acc[0]) < key(sub[k]) {
        assert sub[k] in sub;
        if sub[k] != r {
          var m :| 0 <= m < |tail| && tail[m] == sub[k];
          assert acc[m + 1] == sub[k];
        }
      }
      forall i, j | 0 <= i < j < |res| ensures key(res[i]) < key(res[j]) {
        assert res[j] == sub[j - 1];
        if i > 0 {
          assert res[i] == sub[i - 1];
        }
      }
    } else if acc != [] && key(r) < key(acc[0]) {
      assert res == [r] + acc;
      forall i, j | 0 <= i < j < |res| ensures key(res[i]) < key(res[j]) {
        assert res[j] == acc[j - 1];
        if i > 0 {
          assert res[i] == acc[i - 1];
        }
      }
    } else if acc != [] && key(r) == key(acc[0]) && before(r, acc[0]) {
      assert res == [r] + acc[1..];
      forall i, j | 0 <= i < j < |res| ensures key(res[i]) < key(res[j]) {
        assert res[j] == acc[j];
        if i > 0 {
          assert res[i] == acc[i];
        }
      }
    }
  }

  /** A row of an insertion is a kept row of another period, the new row
      (which then sorts before every row of its period that was there), or
      the row that was there for the new row's period (which then the new row
      does not sort before). */
  lemma {:induction false} InsertMembers<T>(acc: seq<T>, r: T, key: T -> int, before: (T, T) -> bool)
    requires StrictlyKeySorted(acc, key)
    ensures forall o :: o in Insert(acc, r, key, before) ==>
      (key(o) != key(r) && o in acc) ||
      (o == r && forall i :: 0 <= i < |acc| && key(acc[i]) == key(r) ==> before(r, acc[i])) ||
      (key(o) == key(r) && o in acc && !before(r, o))
    decreases |acc|
  {
    var res := Insert(acc, r, key, before);
    if acc == [] {
      assert res == [r];
    } else if key(r) < key(acc[0]) {
      assert res == [r] + acc;
      assert forall i :: 0 <= i < |acc| ==> key(acc[0]) <= key(acc[i]);
    } else if key(r) == key(acc[0]) {
      assert forall i :: 1 <= i < |acc| ==> key(acc[0]) < key(acc[i]);
      if before(r, acc[0]) {
        assert res == [r] + acc[1..];
        forall o | o in res && o != r ensures key(o) != key(r) && o in acc {
          var m :| 0 <= m < |acc[1..]| && acc[1..][m] == o;
          assert acc[m + 1] == o;
        }
      } else {
        assert res == acc;
        forall o | o in res && key(o) == key(r) ensures o == acc[0] {
          var m :| 0 <= m < |acc| && acc[m] == o;
        }
      }
    } else {
      var tail := acc[1..];
      InsertMembers(tail, r, key, before);
      assert res == [acc[0]] + Insert(tail, r, key, before);
      assert acc == [acc[0]] + tail;
    }
  }

  /** The periods that have rows in `s`. */
  function Periods<T>(s: seq<T>, key: T -> int): set<int> {
    set i | 0 <= i < |s| :: key(s[i])
  }

  lemma PeriodsCons<T>(x: T, u: seq<T>, key: T -> int)
    ensures Periods([x] + u, key) == {key(x)} + Periods(u, key)
  {
    var s := [x] + u;
    forall v | v in Periods(s, key) ensures v in {key(x)} + Periods(u, key) {
      var i :| 0 <= i < |s| && key(s[i]) == v;
      if i > 0 {
        assert s[i] == u[i - 1];
      }
    }
    forall v | v in Periods(u, key) ensures v in Periods(s, key) {
      var i :| 0 <= i < |u| && key(u[i]) == v;
      assert s[i + 1] == u[i];
    }
    assert key(s[0]) in Periods(s, key);
  }

  lemma PeriodsSnoc<T>(s: seq<T>, x: T, key: T -> int)
    ensures Periods(s + [x], key) == Periods(s, key) + {key(x)}
  {
    var t := s + [x];
    forall v | v in Periods(t, key) ensures v in Periods(s, key) + {key(x)} {
      var i :| 0 <= i < |t| && key(t[i]) == v;
      if i < |s| {
        assert t[i] == s[i];
      }
    }
    forall v | v in Periods(s, key) ensures v in Periods(t, key) {
      var i :| 0 <= i < |s| && key(s[i]) == v;
      assert t[i] == s[i];
    }
    assert key(t[|s|]) in Periods(t, key);
  }

  /** An insertion keeps a row for every period that had one, and for the new row's. */
  lemma {:induction false} InsertCovers<T>(acc: seq<T>, r: T, key: T -> int, before: (T, T) -> bool)
    ensures Periods(Insert(acc, r, key, before), key) == Periods(acc, key) + {key(r)}
    decreases |acc|
  {
    if acc == [] {
      PeriodsCons(r, [], key);
      assert [r] + [] == [r];
    } else if key(r) < key(acc[0]) {
      PeriodsCons(r, acc, key);
    } else {
      var tail := acc[1..];
      PeriodsCons(acc[0], tail, key);
      assert acc == [acc[0]] + tail;
      if key(r) == key(acc[0]) {
        if before(r, acc[0]) {
          PeriodsCons(r, tail, key);
        }
      } else {
        InsertCovers(tail, r, key, before);
        PeriodsCons(acc[0], Insert(tail, r, key, before), key);
      }
    }
  }

  /** Row `j` of `s` is the one kept for its period: no row of the period sorts
      before it, and every earlier row of the period sorts after it. */
  predicate KeptAt<T>(s: seq<T>, j: nat, key: T -> int, before: (T, T) -> bool)
    requires j < |s|
  {
    (forall i :: 0 <= i < j && key(s[i]) == key(s[j]) ==> before(s[j], s[i])) &&
    (forall i :: 0 <= i < |s| && key(s[i]) == key(s[j]) ==> !before(s[i], s[j]))
  }

  ghost predicate DedupInv<T>(acc: seq<T>, s: seq<T>, key: T -> int, before: (T, T) -> bool) {
    StrictlyKeySorted(acc, key) &&
    (forall o :: o in acc ==> exists j :: 0 <= j < |s| && s[j] == o && KeptAt(s, j, key, before)) &&
    Periods(acc, key) == Periods(s, key)
  }

  /** A new row that sorts before the kept row of its period is kept at the end. */
  lemma KeptNew<T(!new)>(acc: seq<T>, s: seq<T>, r: T, key: T -> int, before: (T, T) -> bool)
    requires StrictWeak(before)
    requires DedupInv(acc, s, key, before)
    requires forall i :: 0 <= i < |acc| && key(acc[i]) == key(r) ==> before(r, acc[i])
    ensures KeptAt(s + [r], |s|, key, before)
  {
    var s' := s + [r];
    forall i | 0 <= i < |s| && key(s[i]) == key(r) ensures before(r, s[i]) {
      assert key(s[i]) in Periods(s, key);
      var m :| 0 <= m < |acc| && key(acc[m]) == key(s[i]);
      assert acc[m] in acc;
      var je :| 0 <= je < |s| && s[je] == acc[m] && KeptAt(s, je, key, before);
      assert !before(s[i], acc[m]);
      assert OrderedAt(before, r, acc[m], s[i]);
    }
    forall i | 0 <= i < |s'| && key(s'[i]) == key(r) ensures !before(s'[i], r) {
      assert OrderedAt(before, r, s'[i], r);
      if i < |s| {
        assert s'[i] == s[i];
      }
    }
  }

  /** An old row kept for its period stays kept when the new row does not sort before it. */
  lemma KeptOld<T>(s: seq<T>, j: nat, r: T, key: T -> int, before: (T, T) -> bool)
    requires j < |s| && KeptAt(s, j, key, before)
    requires key(r) == key(s[j]) ==> !before(r, s[j])
    ensures KeptAt(s + [r], j, key, before)
  {
    var s' := s + [r];
    assert forall i :: 0 <= i < |s| ==> s'[i] == s[i];
  }

  /** After an insertion, every row kept is the kept row of its period in
      the extended input. */
  lemma DedupStepKept<T(!new)>(acc: seq<T>, s: seq<T>, r: T, key: T -> int, before: (T, T) -> bool)
    requires StrictWeak(before)
    requires DedupInv(acc, s, key, before)
    ensures forall o :: o in Insert(acc, r, key, before) ==>
      exists j :: 0 <= j < |s + [r]| && (s + [r])[j] == o && KeptAt(s + [r], j, key, before)
  {
    var s' := s + [r];
    InsertMembers(acc, r, key, before);
    forall o | o in Insert(acc, r, key, before)
      ensures exists j :: 0 <= j < |s'| && s'[j] == o && KeptAt(s', j, key, before)
    {
      if o == r && forall i :: 0 <= i < |acc| && key(acc[i]) == key(r) ==> before(r, acc[i]) {
        KeptNew(acc, s, r, key, before);
        assert s'[|s|] == o;
      } else {
        var j :| 0 <= j < |s| && s[j] == o && KeptAt(s, j, key, before);
        KeptOld(s, j, r, key, before);
        assert s'[j] == o;
      }
    }
  }

  lemma DedupStep<T(!new)>(acc: seq<T>, s: seq<T>, r: T, key: T -> int, before: (T, T) -> bool)
    requires StrictWeak(before)
    requires DedupInv(acc, s, key, before)
    ensures DedupInv(Insert(acc, r, key, before), s + [r], key, before)
  {
    var s' := s + [r];
    var acc' := Insert(acc, r, key, before);
    InsertSorted(acc, r, key, before);
    DedupStepKept(acc, s, r, key, before);
    InsertCovers(acc, r, key, before);
    PeriodsSnoc(s, r, key);
  }

  lemma {:induction false} DedupInvariant<T(!new)>(s: seq<T>, key: T -> int, before: (T, T) -> bool)
    requires StrictWeak(before)
    ensures DedupInv(Dedup(s, key, before), s, key, before)
  {
    if s != [] {
      var p := s[..|s| - 1];
      DedupInvariant(p, key, before);
      DedupStep(Dedup(p, key, before), p, s[|s| - 1], key, before);
      assert p + [s[|s| - 1]] == s;
    }
  }

  /** The result holds one row for each period that has rows, in period
      order; each is a row of the input that sorts first in its period and,
      of the rows tied with it, is the earliest. */
  lemma DedupSpec<T(!new)>(s: seq<T>, key: T -> int, before: (T, T) -> bool)
    requires StrictWeak(before)
    ensures var d := Dedup(s, key, before);
      StrictlyKeySorted(d, key) &&
      Periods(d, key) == Periods(s, key) &&
      (forall o :: o in d ==> exists j :: 0 <= j < |s| && s[j] == o && KeptAt(s, j, key, before))
  {
    DedupInvariant(s, key, before);
  }

  lemma {:induction false} InsertAtEnd<T>(acc: seq<T>, r: T, key: T -> int, before: (T, T) -> bool)
    requires forall k :: 0 <= k < |acc| ==> key(acc[k]) < key(r)
    ensures Insert(acc, r, key, before) == acc + [r]
    decreases |acc|
  {
    if acc != [] {
      InsertAtEnd(acc[1..], r, key, before);
      assert acc == [acc[0]] + acc[1..];
    }
  }

  /** A result with one row per period, in period order, deduplicates to itself. */
  lemma {:induction false} DedupOfDeduplicated<T>(s: seq<T>, key: T -> int, before: (T, T) -> bool)
    requires StrictlyKeySorted(s, key)
    ensures Dedup(s, key, before) == s
  {
    if s != [] {
      var p := s[..|s| - 1];
      assert StrictlyKeySorted(p, key);
      DedupOfDeduplicated(p, key, before);
      InsertAtEnd(p, s[|s| - 1], key, before);
      assert p + [s[|s| - 1]] == s;
    }
  }

  // ----- refine_inventory -----

  /** The period of a record's day. */
  function BucketOf(every: Period): Record -> int {
    (r: Record) => every(r.timestamp.date)
  }

  /** `refine_inventory(full, cloud_cover, scene_overlap, aoi_overlap, score, every)`;
      `full` itself is a value and so is never changed. */
  function RefineInventory(full: seq<Record>, maxCloud: real, minScene: real, minAoi: real,
                           minScore: int, every: Option<Period>): seq<Record>
  {
    var filtered := Thresholds(full, maxCloud, minScene, minAoi, minScore);
    if every.Some? then Dedup(filtered, BucketOf(every.value), Precedes) else filtered
  }

  lemma PrecedesIsStrictWeak()
    ensures StrictWeak(Precedes)
  {
    forall a: Record, b: Record, c: Record
      ensures OrderedAt(Precedes, a, b, c)
    {
      PrecedesStrictWeakOrder(a, b, c);
    }
  }

  /** Without a period: exactly the rows passing all four thresholds, in input order. */
  lemma RefineWithoutPeriod(full: seq<Record>, maxCloud: real, minScene: real, minAoi: real, minScore: int)
    ensures var r := RefineInventory(full, maxCloud, minScene, minAoi, minScore, None);
      r == Keep(full, PassesAll(maxCloud, minScene, minAoi, minScore)) &&
      (forall i :: 0 <= i < |r| ==> r[i] in full && Passes(r[i], maxCloud, minScene, minAoi, minScore)) &&
      (forall i :: 0 <= i < |full| && Passes(full[i], maxCloud, minScene, minAoi, minScore) ==> full[i] in r)
  {
    ThresholdsExact(full, maxCloud, minScene, minAoi, minScore);
  }

  /** With a period: the rows kept pass the thresholds, there is one for each
      period that has passing rows, in period order, and each sorts first in
      its period among the passing rows. */
  lemma RefineWithPeriod(full: seq<Record>, maxCloud: real, minScene: real, minAoi: real, minScore: int, every: Period)
    ensures var f := Thresholds(full, maxCloud, minScene, minAoi, minScore);
      var r := RefineInventory(full, maxCloud, minScene, minAoi, minScore, Some(every));
      var key := BucketOf(every);
      StrictlyKeySorted(r, key) &&
      (forall k :: 0 <= k < |r| ==> r[k] in full && Passes(r[k], maxCloud, minScene, minAoi, minScore)) &&
      Periods(r, key) == Periods(f, key) &&
      (forall o :: o in r ==> exists j :: 0 <= j < |f| && f[j] == o && KeptAt(f, j, key, Precedes))
  {
    var f := Thresholds(full, maxCloud, minScene, minAoi, minScore);
    var r := RefineInventory(full, maxCloud, minScene, minAoi, minScore, Some(every));
    ThresholdsExact(full, maxCloud, minScene, minAoi, minScore);
    PrecedesIsStrictWeak();
    DedupSpec(f, BucketOf(every), Precedes);
    forall k | 0 <= k < |r| ensures r[k] in full && Passes(r[k], maxCloud, minScene, minAoi, minScore) {
      assert r[k] in r;
      var j :| 0 <= j < |f| && f[j] == r[k] && KeptAt(f, j, BucketOf(every), Precedes);
    }
  }

  /** Refining a refined inventory with the same arguments changes nothing. */
  lemma RefineIdempotent(full: seq<Record>, maxCloud: real, minScene: real, minAoi: real,
                         minScore: int, every: Option<Period>)
    ensures var once := RefineInventory(full, maxCloud, minScene, minAoi, minScore, every);
      RefineInventory(once, maxCloud, minScene, minAoi, minScore, every) == once
  {
    var P := PassesAll(maxCloud, minScene, minAoi, minScore);
    var once := RefineInventory(full, maxCloud, minScene, minAoi, minScore, every);
    ThresholdsExact(once, maxCloud, minScene, minAoi, minScore);
    if every.Some? {
      RefineWithPeriod(full, maxCloud, minScene, minAoi, minScore, every.value);
      KeepAll(once, P);
      DedupOfDeduplicated(once, BucketOf(every.value), Precedes);
    } else {
      ThresholdsExact(full, maxCloud, minScene, minAoi, minScore);
      KeepIdempotent(full, P);
    }
  }
}
