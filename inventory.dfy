/** Building and scoring the inventory: the normalisation of catalog items
    into rows sorted by acquisition time, the overlap columns, and the
    integer desirability score. */
module Inventory {
  import opened Wrappers
  import opened Strings
  import opened Records
  import opened Seqs

  // ----- scoring -----

  /** Score of each provider item type. */
  const ItemTypeScore: map<string, int> := map[
    "PSScene4Band" := 9,
    "PSScene3Band" := 7,
    "PSOrthoTile" := 8,
    "REOrthoTile" := 0,
    "SkySatScene" := 0
  ]

  /** Season score: the same for every month. */
  const MonthsScore: map<int, int> := map[
    1 := 10, 7 := 10,
    2 := 10, 8 := 10,
    3 := 10, 9 := 10,
    4 := 10, 10 := 10,
    5 := 10, 11 := 10,
    6 := 10, 12 := 10
  ]

  lemma MonthsScoreCovers(m: Month)
    ensures m in MonthsScore && MonthsScore[m] == 10
  {
    assert m == 1 || m == 2 || m == 3 || m == 4 || m == 5 || m == 6 ||
           m == 7 || m == 8 || m == 9 || m == 10 || m == 11 || m == 12;
  }

  /** Cloud cover in percent (1 means 1%). */
  function CloudScore(cloudCover: real): int {
    if cloudCover == 0.0 then 10
    else if cloudCover <= 1.0 && cloudCover > 0.0 then 5
    else 0
  }

  /** Scene overlap with the AOI in percent. */
  function CoverScore(coveredArea: real): int {
    if coveredArea >= 99.0 then 10
    else if coveredArea >= 95.0 then 5
    else 0
  }

  /** The score of a row, or None when its item type is not in the table
      (the lookup raises KeyError). */
  function TotalScore(r: Record): Option<int> {
    if r.itemType in ItemTypeScore then
      MonthsScoreCovers(r.timestamp.date.month);
      Some(MonthsScore[r.timestamp.date.month] + ItemTypeScore[r.itemType]
           + CloudScore(r.cloudCover) + CoverScore(r.sceneOverlap))
    else None
  }

  /** The three cloud bands: none, at most 1%, and everything else
      (negative values included). */
  lemma CloudScoreBands(c: real)
    ensures CloudScore(c) == 10 <==> c == 0.0
    ensures CloudScore(c) == 5 <==> 0.0 < c <= 1.0
    ensures CloudScore(c) == 0 <==> c < 0.0 || c > 1.0
  {
  }

  /** The three cover bands: at least 99%, at least 95%, and below. */
  lemma CoverScoreBands(a: real)
    ensures CoverScore(a) == 10 <==> a >= 99.0
    ensures CoverScore(a) == 5 <==> 95.0 <= a < 99.0
    ensures CoverScore(a) == 0 <==> a < 95.0
  {
  }

  /** The score is defined exactly for the five known item types, and is then
      the month score 10 plus the item, cloud and cover parts. */
  lemma TotalScoreParts(r: Record)
    ensures TotalScore(r).Some? <==>
      r.itemType in {"PSScene4Band", "PSScene3Band", "PSOrthoTile", "REOrthoTile", "SkySatScene"}
    ensures TotalScore(r).Some? ==>
      TotalScore(r).value == 10 + ItemTypeScore[r.itemType] + CloudScore(r.cloudCover) + CoverScore(r.sceneOverlap)
  {
    if r.itemType in ItemTypeScore {
      MonthsScoreCovers(r.timestamp.date.month);
    }
  }

  /** Every score lies between 10 and 39. */
  lemma TotalScoreBounds(r: Record)
    requires TotalScore(r).Some?
    ensures 10 <= TotalScore(r).value <= 39
  {
    TotalScoreParts(r);
  }

  /** A four-band scene without clouds covering 99.5% of the AOI scores 39. */
  lemma TotalScoreBest(r: Record)
    requires r.itemType == "PSScene4Band" && r.cloudCover == 0.0 && r.sceneOverlap == 99.5
    ensures TotalScore(r) == Some(39)
  {
    TotalScoreParts(r);
  }

  /** Of two rows of the same item type, the one with less (non-negative)
      cloud and more scene overlap never scores lower. */
  lemma TotalScoreMonotone(a: Record, b: Record)
    requires a.itemType == b.itemType && TotalScore(a).Some?
    requires 0.0 <= a.cloudCover <= b.cloudCover && a.sceneOverlap >= b.sceneOverlap
    ensures TotalScore(b).Some? && TotalScore(a).value >= TotalScore(b).value
  {
    TotalScoreParts(a);
    TotalScoreParts(b);
  }

  // ----- items_to_gdf -----

  predicate SortedByTime(s: seq<Record>) {
    forall i, j :: 0 <= i < j < |s| ==> TimeKey(s[i].timestamp) <= TimeKey(s[j].timestamp)
  }

  /** A fresh row for a catalog item, before the columns derived from it. */
  function FromCatalog(f: CatalogItem): Record {
    Record(f.acquired, f.id, f.itemType, f.thumbnail, f.permissions, f.geometry,
           f.cloudCover, "", "", 0.0, 0.0, 0, 0.0)
  }

  /** `strftime('%Y-%m-%d')`. */
  function DateString(t: Timestamp): string {
    Pad4(t.date.year) + "-" + Pad2(t.date.month) + "-" + Pad2(t.date.day)
  }

  /** The satellite part of an item id: everything from character 16 on. */
  function Dove(id: string): string {
    DropChars(id, 16)
  }

  /** The column updates `items_to_gdf` makes after sorting. */
  function Normalise(r: Record): Record {
    r.(cloudCover := r.cloudCover * 100.0, date := DateString(r.timestamp), dove := Dove(r.id))
  }

  function NormaliseAll(s: seq<Record>): seq<Record> {
    seq(|s|, i requires 0 <= i < |s| => Normalise(s[i]))
  }

  function FromCatalogAll(items: seq<CatalogItem>): seq<Record> {
    seq(|items|, i requires 0 <= i < |items| => FromCatalog(items[i]))
  }

  /** The rows of the items, normalised, in item order. */
  function Imported(items: seq<CatalogItem>): seq<Record> {
    NormaliseAll(FromCatalogAll(items))
  }

  /** The date column reads back as the year, month and day of the timestamp,
      in the form YYYY-MM-DD. */
  lemma DateStringFormat(t: Timestamp)
    ensures var s := DateString(t);
      |s| == 10 && s[4] == '-' && s[7] == '-' &&
      DigitsValue(s[..4]) == t.date.year &&
      DigitsValue(s[5..7]) == t.date.month &&
      DigitsValue(s[8..]) == t.date.day
  {
    var s := DateString(t);
    assert s[..4] == Pad4(t.date.year);
    assert s[5..7] == Pad2(t.date.month);
    assert s[8..] == Pad2(t.date.day);
    Pad4Value(t.date.year);
    Pad2Value(t.date.month);
    Pad2Value(t.date.day);
  }

  /** The dove column is what follows the first 16 characters of the id, and
      is empty for shorter ids. */
  lemma DoveIsIdSuffix(id: string)
    ensures |id| >= 16 ==> id == id[..16] + Dove(id)
    ensures |id| <= 16 ==> Dove(id) == ""
  {
  }

  function Key(r: Record): int {
    TimeKey(r.timestamp)
  }

  /** Normalising every row of two permutations of each other gives two
      permutations of each other. */
  lemma NormaliseAllPermutation(s: seq<Record>, t: seq<Record>)
    requires multiset(s) == multiset(t)
    ensures multiset(NormaliseAll(s)) == multiset(NormaliseAll(t))
  {
    assert NormaliseAll(s) == MapSeq(s, Normalise);
    assert NormaliseAll(t) == MapSeq(t, Normalise);
    MapSeqPermutation(s, t, Normalise);
  }

  /** `sort_values(by=['timestamp'], inplace=True)` on the frame's rows. */
  method SortByTime(a: array<Record>)
    modifies a
    ensures SortedByTime(a[..])
    ensures multiset(a[..]) == multiset(old(a[..]))
  {
    SortByKey(a, Key);
  }

  /** `items_to_gdf`: the rows of the catalog items, sorted by acquisition
      time, with cloud cover in percent, the date column and the dove column.
      With no items the frame has no columns and naming its first one fails. */
  method ItemsToInventory(items: seq<CatalogItem>) returns (result: Result<seq<Record>, Error>)
    ensures result.Err? <==> |items| == 0
    ensures result.Err? ==> result.error == EmptySearch
    ensures result.Ok? ==>
      var inv := result.value;
      |inv| == |items| && SortedByTime(inv) && multiset(inv) == multiset(Imported(items))
  {
    if |items| == 0 {
      return Err(EmptySearch);
    }
    var a := new Record[|items|](i requires 0 <= i < |items| => FromCatalog(items[i]));
    assert a[..] == FromCatalogAll(items);
    SortByTime(a);
    ghost var sorted := a[..];
    for i := 0 to a.Length
      invariant forall k :: 0 <= k < i ==> a[k] == Normalise(sorted[k])
      invariant forall k :: i <= k < a.Length ==> a[k] == sorted[k]
    {
      a[i] := Normalise(a[i]);
    }
    var inv := a[..];
    assert inv == NormaliseAll(sorted);
    NormaliseAllPermutation(sorted, FromCatalogAll(items));
    return Ok(inv);
  }

  // ----- add_overlaps, add_score -----

  /** `add_overlaps`: writes the scene and AOI overlap columns. `overlaps`
      gives, for a footprint, the percentage of the footprint inside the AOI
      and the percentage of the AOI inside the footprint. */
  method AddOverlaps(t: Table, overlaps: Geometry -> (real, real))
    modifies t
    ensures |t.rows| == |old(t.rows)|
    ensures forall i :: 0 <= i < |t.rows| ==>
      t.rows[i] == old(t.rows[i]).(sceneOverlap := overlaps(old(t.rows[i]).footprint).0,
                                   aoiOverlap := overlaps(old(t.rows[i]).footprint).1)
  {
    var rows := t.rows;
    t.rows := seq(|rows|, i requires 0 <= i < |rows| =>
      rows[i].(sceneOverlap := overlaps(rows[i].footprint).0, aoiOverlap := overlaps(rows[i].footprint).1));
  }

  /** A row whose score column agrees with its other columns. */
  predicate Scored(r: Record) {
    TotalScore(r).Some? && r.totalScore == TotalScore(r).value
  }

  /** `add_score`: writes the score column in place. Row order and every other
      column stay as they were (the re-sorted frame on line 186 is discarded).
      An unknown item type raises before the column is written. */
  method AddScore(t: Table) returns (outcome: Outcome<Error>)
    modifies t
    ensures outcome.Pass? <==> forall i :: 0 <= i < |old(t.rows)| ==> old(t.rows)[i].itemType in ItemTypeScore
    ensures outcome.Pass? ==>
      |t.rows| == |old(t.rows)| &&
      forall i :: 0 <= i < |t.rows| ==>
        t.rows[i] == old(t.rows)[i].(totalScore := TotalScore(old(t.rows)[i]).value) && Scored(t.rows[i])
    ensures outcome.Fail? ==>
      t.rows == old(t.rows) &&
      exists i :: 0 <= i < |t.rows| && t.rows[i].itemType !in ItemTypeScore &&
                  outcome.error == UnknownItemType(t.rows[i].itemType)
  {
    var rows := t.rows;
    var scored: seq<Record> := [];
    var i := 0;
    while i < |rows|
      invariant 0 <= i <= |rows| && |scored| == i
      invariant forall k :: 0 <= k < i ==>
        rows[k].itemType in ItemTypeScore && scored[k] == rows[k].(totalScore := TotalScore(rows[k]).value)
    {
      var r := rows[i];
      var s := TotalScore(r);
      if s.None? {
        return Fail(UnknownItemType(r.itemType));
      }
      scored := scored + [r.(totalScore := s.value)];
      i := i + 1;
    }
    t.rows := scored;
    outcome := Pass;
  }

  /** A row with the columns of `add_overlaps` and `add_score` back at their defaults. */
  function WithoutScores(r: Record): Record {
    r.(sceneOverlap := 0.0, aoiOverlap := 0.0, totalScore := 0)
  }

  /** The rows built from catalog items still hold the defaults of the
      overlap and score columns. */
  lemma ImportedDefaults(items: seq<CatalogItem>, rows: seq<Record>)
    requires multiset(rows) == multiset(Imported(items))
    ensures forall i :: 0 <= i < |rows| ==> WithoutScores(rows[i]) == rows[i]
  {
    var imp := Imported(items);
    forall i | 0 <= i < |rows| ensures WithoutScores(rows[i]) == rows[i] {
      assert rows[i] in multiset(rows);
      assert rows[i] in imp;
      var k :| 0 <= k < |imp| && imp[k] == rows[i];
    }
  }

  /** `create_inventory` after the catalog search: build the rows, add the
      overlaps, add the score. The table is the items' rows (as a multiset,
      when the new columns are set aside), sorted by time, each with the
      overlaps of its footprint and its score. */
  method CreateInventory(items: seq<CatalogItem>, overlaps: Geometry -> (real, real))
    returns (result: Result<Table, Error>)
    ensures result.Ok? <==> |items| > 0 && forall i :: 0 <= i < |items| ==> items[i].itemType in ItemTypeScore
    ensures result.Err? && |items| == 0 ==> result.error == EmptySearch
    ensures result.Err? && |items| > 0 ==>
      exists i :: 0 <= i < |items| && items[i].itemType !in ItemTypeScore &&
                  result.error == UnknownItemType(items[i].itemType)
    ensures result.Ok? ==>
      var rows := result.value.rows;
      fresh(result.value) && |rows| == |items| &&
      SortedByTime(rows) &&
      multiset(MapSeq(rows, WithoutScores)) == multiset(Imported(items)) &&
      forall i :: 0 <= i < |rows| ==>
        Scored(rows[i]) &&
        rows[i].sceneOverlap == overlaps(rows[i].footprint).0 &&
        rows[i].aoiOverlap == overlaps(rows[i].footprint).1
  {
    var built := ItemsToInventory(items);
    if built.Err? {
      return Err(built.error);
    }
    var rows := built.value;
    var t := new Table(rows);
    AddOverlaps(t, overlaps);
    ghost var withOverlaps := t.rows;
    var outcome := AddScore(t);
    ItemTypesKept(items, rows, withOverlaps);
    if outcome.Fail? {
      ghost var i :| 0 <= i < |t.rows| && t.rows[i].itemType !in ItemTypeScore &&
                     outcome.error == UnknownItemType(t.rows[i].itemType);
      ItemTypeOfRow(items, rows, i);
      return Err(outcome.error);
    }
    assert forall i, j :: 0 <= i < j < |t.rows| ==>
      t.rows[i].timestamp == rows[i].timestamp && t.rows[j].timestamp == rows[j].timestamp;
    ImportedDefaults(items, rows);
    assert MapSeq(t.rows, WithoutScores) == rows by {
      forall i | 0 <= i < |rows| ensures WithoutScores(t.rows[i]) == rows[i] {
        assert WithoutScores(t.rows[i]) == WithoutScores(rows[i]);
      }
    }
    result := Ok(t);
  }

  /** Each built row has the item type of some catalog item. */
  lemma ItemTypeOfRow(items: seq<CatalogItem>, rows: seq<Record>, i: nat)
    requires multiset(rows) == multiset(Imported(items)) && i < |rows|
    ensures exists k :: 0 <= k < |items| && items[k].itemType == rows[i].itemType
  {
    var imp := Imported(items);
    assert rows[i] in multiset(rows);
    assert rows[i] in imp;
    var k :| 0 <= k < |imp| && imp[k] == rows[i];
    assert items[k].itemType == imp[k].itemType;
  }

  /** The item types of the built rows are those of the items. */
  lemma ItemTypesKept(items: seq<CatalogItem>, rows: seq<Record>, withOverlaps: seq<Record>)
    requires multiset(rows) == multiset(Imported(items))
    requires |withOverlaps| == |rows| && forall i :: 0 <= i < |rows| ==> withOverlaps[i].itemType == rows[i].itemType
    ensures (forall i :: 0 <= i < |items| ==> items[i].itemType in ItemTypeScore) <==>
            (forall i :: 0 <= i < |withOverlaps| ==> withOverlaps[i].itemType in ItemTypeScore)
  {
    var imp := Imported(items);
    forall i | 0 <= i < |items| ensures imp[i] in multiset(rows) && imp[i].itemType == items[i].itemType {
      assert imp[i] in multiset(imp);
    }
    forall i | 0 <= i < |rows| ensures rows[i] in multiset(imp) {
      assert rows[i] in multiset(rows);
    }
  }
}
