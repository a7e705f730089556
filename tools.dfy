/** Processing tools for Planet orders: the toolchain built from tool names,
    the choice of an anchor image for co-registration, and the inventory
    filtered by overlap with that anchor. */
module Tools {
  import opened Wrappers
  import opened Records
  import opened Seqs

  /** One entry of an order's `tools` list. */
  datatype Directive =
    | CoRegister(anchorItem: Option<string>)
    | BandMath(bands: seq<(string, string)>, pixelType: string)
    | Composite
    | Clip(aoi: Geometry)
    | Reproject(projection: string, kernel: string)

  /** Four bands kept and NDVI added as a fifth, as 32-bit floats. */
  const AddNdvi: Directive :=
    BandMath([("b1", "b1"), ("b2", "b2"), ("b3", "b3"), ("b4", "b4"), ("b5", "(b4-b3)/(b4+b3)")], "32R")

  /** NDVI as the only band. */
  const NdviOnly: Directive := BandMath([("b1", "(b4 - b3) / (b4 + b3)")], "32R")

  /** Position of a directive kind in a toolchain. */
  function Rank(d: Directive): nat {
    match d
    case CoRegister(_) => 0
    case BandMath(_, _) => if d == AddNdvi then 1 else 2
    case Clip(_) => 3
    case Reproject(_, _) => 4
    case Composite => 5
  }

  /** The toolchain `create_toolchain` returns; `clip` without an AOI fails
      (the AOI's geometry is read from `None`). */
  function Toolchain(tools: seq<string>, aoi: Option<Geometry>, anchor: Option<string>): Result<seq<Directive>, Error> {
    if "clip" in tools && aoi.None? then Err(MissingAoi)
    else
      Ok((if "co-register" in tools then [CoRegister(anchor)] else []) +
         (if "add_NDVI" in tools then [AddNdvi] else []) +
         (if "NDVI_only" in tools then [NdviOnly] else []) +
         (if "clip" in tools then [Clip(aoi.value)] else []))
  }

  /** Builds the toolchain by successive appends. */
  method CreateToolchain(tools: seq<string>, aoi: Option<Geometry>, anchor: Option<string>)
    returns (result: Result<seq<Directive>, Error>)
    ensures result == Toolchain(tools, aoi, anchor)
  {
    var toolchain: seq<Directive> := [];
    if "co-register" in tools {
      toolchain := toolchain + [CoRegister(anchor)];
    }
    assert toolchain == (if "co-register" in tools then [CoRegister(anchor)] else []);
    ghost var t1 := toolchain;
    if "add_NDVI" in tools {
      toolchain := toolchain + [AddNdvi];
    }
    assert toolchain == t1 + (if "add_NDVI" in tools then [AddNdvi] else []);
    ghost var t2 := toolchain;
    if "NDVI_only" in tools {
      toolchain := toolchain + [NdviOnly];
    }
    assert toolchain == t2 + (if "NDVI_only" in tools then [NdviOnly] else []);
    ghost var t3 := toolchain;
    if "clip" in tools {
      if aoi.None? {
        return Err(MissingAoi);
      }
      toolchain := toolchain + [Clip(aoi.value)];
    }
    assert toolchain == t3 + (if "clip" in tools then [Clip(aoi.value)] else []);
    return Ok(toolchain);
  }

  predicate RankSorted(t: seq<Directive>) {
    forall i, j :: 0 <= i < j < |t| ==> Rank(t[i]) < Rank(t[j])
  }

  predicate RanksBelow(t: seq<Directive>, n: nat) {
    forall k :: 0 <= k < |t| ==> Rank(t[k]) < n
  }

  lemma AppendRanked(t: seq<Directive>, add: bool, d: Directive)
    requires RankSorted(t) && RanksBelow(t, Rank(d))
    ensures RankSorted(t + (if add then [d] else [])) && RanksBelow(t + (if add then [d] else []), Rank(d) + 1)
  {
    var u := t + (if add then [d] else []);
    assert forall k :: 0 <= k < |t| ==> u[k] == t[k];
  }

  lemma AddNdviIsNotNdviOnly()
    ensures AddNdvi != NdviOnly && Rank(AddNdvi) == 1 && Rank(NdviOnly) == 2
  {
    assert |AddNdvi.bands| != |NdviOnly.bands|;
  }

  /** The directives come in the fixed order co-register, add_NDVI,
      NDVI_only, clip, hence each at most once. */
  lemma ToolchainOrder(tools: seq<string>, aoi: Option<Geometry>, anchor: Option<string>)
    requires Toolchain(tools, aoi, anchor).Ok?
    ensures RankSorted(Toolchain(tools, aoi, anchor).value)
  {
    AddNdviIsNotNdviOnly();
    var t0: seq<Directive> := [];
    AppendRanked(t0, "co-register" in tools, CoRegister(anchor));
    var t1 := t0 + (if "co-register" in tools then [CoRegister(anchor)] else []);
    AppendRanked(t1, "add_NDVI" in tools, AddNdvi);
    var t2 := t1 + (if "add_NDVI" in tools then [AddNdvi] else []);
    AppendRanked(t2, "NDVI_only" in tools, NdviOnly);
    var t3 := t2 + (if "NDVI_only" in tools then [NdviOnly] else []);
    var t4 := t3;
    if "clip" in tools {
      AppendRanked(t3, true, Clip(aoi.value));
      t4 := t3 + [Clip(aoi.value)];
    } else {
      assert t3 + [] == t3;
    }
    assert t0 + (if "co-register" in tools then [CoRegister(anchor)] else []) ==
           (if "co-register" in tools then [CoRegister(anchor)] else []);
    assert Toolchain(tools, aoi, anchor).value == t4;
  }

  /** Each directive appears exactly when its name is given, the co-register
      directive carries the given anchor, nothing else (no composite)
      appears, and `clip` without an AOI is the only failure. */
  lemma ToolchainMembers(tools: seq<string>, aoi: Option<Geometry>, anchor: Option<string>)
    ensures Toolchain(tools, aoi, anchor).Err? <==> "clip" in tools && aoi.None?
    ensures Toolchain(tools, aoi, anchor).Ok? ==>
      var t := Toolchain(tools, aoi, anchor).value;
      (CoRegister(anchor) in t <==> "co-register" in tools) &&
      (AddNdvi in t <==> "add_NDVI" in tools) &&
      (NdviOnly in t <==> "NDVI_only" in tools) &&
      ("clip" in tools <==> aoi.Some? && Clip(aoi.value) in t) &&
      Composite !in t &&
      (forall d :: d in t ==> d == CoRegister(anchor) || d == AddNdvi || d == NdviOnly || (aoi.Some? && d == Clip(aoi.value))) &&
      ("co-register" !in tools && "add_NDVI" !in tools && "NDVI_only" !in tools && "clip" !in tools ==> t == [])
  {
    AddNdviIsNotNdviOnly();
  }

  // ----- anchor selection -----

  /** Area of the intersection of the first geometry with the second,
      divided by the area of the second. */
  type Overlap = (Geometry, Geometry) -> real

  /** The records with cloud cover within the given percentile threshold. */
  function LowCloud(threshold: real): Record -> bool {
    (r: Record) => r.cloudCover <= threshold
  }

  function Candidates(inv: seq<Record>, threshold: real): seq<Record> {
    Keep(inv, LowCloud(threshold))
  }

  /** How much of `g` the whole inventory covers, summed over its records. */
  function OverlapSum(inv: seq<Record>, g: Geometry, overlap: Overlap): real {
    if inv == [] then 0.0 else overlap(inv[0].footprint, g) + OverlapSum(inv[1..], g, overlap)
  }

  /** Candidate `k` has a positive sum, no candidate has a larger one, and
      every earlier candidate a smaller one. */
  predicate FirstMaxAt(inv: seq<Record>, c: seq<Record>, k: nat, overlap: Overlap)
    requires k < |c|
  {
    var best := OverlapSum(inv, c[k].footprint, overlap);
    best > 0.0 &&
    (forall j :: 0 <= j < |c| ==> OverlapSum(inv, c[j].footprint, overlap) <= best) &&
    (forall j :: 0 <= j < k ==> OverlapSum(inv, c[j].footprint, overlap) < best)
  }

  /** `anchor` is what `select_anchor_image` returns: the id of the first
      low-cloud record whose summed overlap is largest, or none when no sum
      is positive (the variable is then never bound). */
  ghost predicate IsAnchor(inv: seq<Record>, threshold: real, overlap: Overlap, anchor: Option<string>) {
    var c := Candidates(inv, threshold);
    match anchor
    case None => forall j :: 0 <= j < |c| ==> OverlapSum(inv, c[j].footprint, overlap) <= 0.0
    case Some(id) => exists k :: 0 <= k < |c| && c[k].id == id && FirstMaxAt(inv, c, k, overlap)
  }

  /** The state of the loop of `select_anchor_image` after the first `n`
      candidates: the best sum so far (starting from 0) and the position it
      was found at, replaced only by a strictly larger sum. */
  function Scan(inv: seq<Record>, c: seq<Record>, n: nat, overlap: Overlap): (real, Option<nat>)
    requires n <= |c|
  {
    if n == 0 then (0.0, None)
    else
      var prev := Scan(inv, c, n - 1, overlap);
      var sum := OverlapSum(inv, c[n - 1].footprint, overlap);
      if sum > prev.0 then (sum, Some(n - 1)) else prev
  }

  /** What `select_anchor_image` returns; `None` where its result variable is never bound. */
  function AnchorOf(inv: seq<Record>, threshold: real, overlap: Overlap): Option<string> {
    var c := Candidates(inv, threshold);
    match Scan(inv, c, |c|, overlap).1
    case None => None
    case Some(k) => if k < |c| then Some(c[k].id) else None
  }

  /** Candidate `k` is first with the largest sum among the first `n`, and that sum is positive. */
  predicate FirstMaxWithin(inv: seq<Record>, c: seq<Record>, k: nat, n: nat, overlap: Overlap)
    requires k < n <= |c|
  {
    var best := OverlapSum(inv, c[k].footprint, overlap);
    best > 0.0 &&
    (forall j :: 0 <= j < n ==> OverlapSum(inv, c[j].footprint, overlap) <= best) &&
    (forall j :: 0 <= j < k ==> OverlapSum(inv, c[j].footprint, overlap) < best)
  }

  lemma {:induction false} ScanSpec(inv: seq<Record>, c: seq<Record>, n: nat, overlap: Overlap)
    requires n <= |c|
    ensures var (best, k) := Scan(inv, c, n, overlap);
      (k.None? ==> best == 0.0 && forall j :: 0 <= j < n ==> OverlapSum(inv, c[j].footprint, overlap) <= 0.0) &&
      (k.Some? ==> k.value < n && best == OverlapSum(inv, c[k.value].footprint, overlap) &&
                   FirstMaxWithin(inv, c, k.value, n, overlap))
  {
    if n > 0 {
      ScanSpec(inv, c, n - 1, overlap);
    }
  }

  /** `AnchorOf` is the first low-cloud record with the largest positive sum. */
  lemma AnchorOfSpec(inv: seq<Record>, threshold: real, overlap: Overlap)
    ensures IsAnchor(inv, threshold, overlap, AnchorOf(inv, threshold, overlap))
  {
    var c := Candidates(inv, threshold);
    ScanSpec(inv, c, |c|, overlap);
    var k := Scan(inv, c, |c|, overlap).1;
    if k.Some? {
      assert FirstMaxWithin(inv, c, k.value, |c|, overlap);
      assert FirstMaxAt(inv, c, k.value, overlap);
    }
  }

  method SelectAnchor(inv: seq<Record>, threshold: real, overlap: Overlap) returns (anchor: Option<string>)
    ensures anchor == AnchorOf(inv, threshold, overlap)
    ensures IsAnchor(inv, threshold, overlap, anchor)
  {
    var subset := Candidates(inv, threshold);
    var finalSum := 0.0;
    anchor := None;
    ghost var best: Option<nat> := None;
    for i := 0 to |subset|
      invariant (finalSum, best) == Scan(inv, subset, i, overlap)
      invariant best.None? ==> anchor.None?
      invariant best.Some? ==> best.value < i && anchor == Some(subset[best.value].id)
    {
      var sum := OverlapSum(inv, subset[i].footprint, overlap);
      if sum > finalSum {
        finalSum := sum;
        anchor := Some(subset[i].id);
        best := Some(i);
      }
    }
    AnchorOfSpec(inv, threshold, overlap);
  }

  /** The anchor is determined by the inventory: the strict comparison picks
      one candidate. */
  lemma AnchorDetermined(inv: seq<Record>, threshold: real, overlap: Overlap, a: Option<string>, b: Option<string>)
    requires IsAnchor(inv, threshold, overlap, a) && IsAnchor(inv, threshold, overlap, b)
    ensures a == b
  {
    var c := Candidates(inv, threshold);
    if a.Some? && b.Some? {
      var ka :| 0 <= ka < |c| && c[ka].id == a.value && FirstMaxAt(inv, c, ka, overlap);
      var kb :| 0 <= kb < |c| && c[kb].id == b.value && FirstMaxAt(inv, c, kb, overlap);
      assert ka == kb;
    }
  }

  /** The anchor is the id of a record of the inventory within the cloud threshold. */
  lemma AnchorIsLowCloud(inv: seq<Record>, threshold: real, overlap: Overlap, id: string)
    requires IsAnchor(inv, threshold, overlap, Some(id))
    ensures exists i :: 0 <= i < |inv| && inv[i].id == id && inv[i].cloudCover <= threshold
  {
    var c := Candidates(inv, threshold);
    var k :| 0 <= k < |c| && c[k].id == id && FirstMaxAt(inv, c, k, overlap);
    assert c[k] in c;
    var i :| 0 <= i < |inv| && inv[i] == c[k];
  }

  /** A sum in which record `m` covers `g` wholly and every other record not at all is 1. */
  lemma {:induction false} OverlapSumSingle(inv: seq<Record>, g: Geometry, overlap: Overlap, m: nat)
    requires m < |inv| && overlap(inv[m].footprint, g) == 1.0
    requires forall i :: 0 <= i < |inv| && i != m ==> overlap(inv[i].footprint, g) == 0.0
    ensures OverlapSum(inv, g, overlap) == 1.0
  {
    if m == 0 {
      ZeroSum(inv[1..], g, overlap);
    } else {
      OverlapSumSingle(inv[1..], g, overlap, m - 1);
    }
  }

  /** A sum of non-negative terms, one of which is 1, is at least 1. */
  lemma {:induction false} OverlapSumAtLeast(inv: seq<Record>, g: Geometry, overlap: Overlap, m: nat)
    requires m < |inv| && overlap(inv[m].footprint, g) == 1.0
    requires forall i :: 0 <= i < |inv| ==> overlap(inv[i].footprint, g) >= 0.0
    ensures OverlapSum(inv, g, overlap) >= 1.0
  {
    if m == 0 {
      NonNegativeSum(inv[1..], g, overlap);
    } else {
      OverlapSumAtLeast(inv[1..], g, overlap, m - 1);
    }
  }

  lemma {:induction false} NonNegativeSum(inv: seq<Record>, g: Geometry, overlap: Overlap)
    requires forall i :: 0 <= i < |inv| ==> overlap(inv[i].footprint, g) >= 0.0
    ensures OverlapSum(inv, g, overlap) >= 0.0
  {
    if inv != [] {
      NonNegativeSum(inv[1..], g, overlap);
    }
  }

  /** Overlaps as shapely computes them for footprints of positive area: a
      footprint covers itself wholly, and no ratio is negative. */
  predicate SoundOverlap(inv: seq<Record>, overlap: Overlap) {
    (forall i :: 0 <= i < |inv| ==> overlap(inv[i].footprint, inv[i].footprint) == 1.0) &&
    (forall i, j :: 0 <= i < |inv| && 0 <= j < |inv| ==> overlap(inv[i].footprint, inv[j].footprint) >= 0.0)
  }

  /** Every candidate's sum counts the candidate itself, so with sound
      overlaps there is no anchor exactly when no record is within the cloud
      threshold. */
  lemma NoAnchorOnlyWithoutCandidates(inv: seq<Record>, threshold: real, overlap: Overlap)
    requires SoundOverlap(inv, overlap)
    ensures AnchorOf(inv, threshold, overlap).None? <==> |Candidates(inv, threshold)| == 0
  {
    var c := Candidates(inv, threshold);
    AnchorOfSpec(inv, threshold, overlap);
    if |c| > 0 {
      assert c[0] in c;
      var m :| 0 <= m < |inv| && inv[m] == c[0];
      OverlapSumAtLeast(inv, c[0].footprint, overlap, m);
    }
  }

  /** When no footprint overlaps another, every candidate's sum is its own
      overlap, 1, and the tie goes to the first candidate. */
  lemma DisjointFootprintsFirstCandidate(inv: seq<Record>, threshold: real, overlap: Overlap)
    requires SoundOverlap(inv, overlap)
    requires forall i, j :: 0 <= i < |inv| && 0 <= j < |inv| && i != j ==>
      overlap(inv[i].footprint, inv[j].footprint) == 0.0
    ensures var c := Candidates(inv, threshold);
      AnchorOf(inv, threshold, overlap) == (if |c| == 0 then None else Some(c[0].id))
  {
    var c := Candidates(inv, threshold);
    AnchorOfSpec(inv, threshold, overlap);
    if |c| > 0 {
      forall k | 0 <= k < |c| ensures OverlapSum(inv, c[k].footprint, overlap) == 1.0 {
        assert c[k] in c;
        var m :| 0 <= m < |inv| && inv[m] == c[k];
        OverlapSumSingle(inv, c[k].footprint, overlap, m);
      }
      assert FirstMaxAt(inv, c, 0, overlap);
      AnchorDetermined(inv, threshold, overlap, AnchorOf(inv, threshold, overlap), Some(c[0].id));
    }
  }

  lemma {:induction false} ZeroSum(inv: seq<Record>, g: Geometry, overlap: Overlap)
    requires forall i :: 0 <= i < |inv| ==> overlap(inv[i].footprint, g) == 0.0
    ensures OverlapSum(inv, g, overlap) == 0.0
  {
    if inv != [] {
      ZeroSum(inv[1..], g, overlap);
    }
  }

  // ----- filter_coregistered_inventory -----

  /** The footprint of the first record with the given id. */
  function FootprintOf(rows: seq<Record>, id: string): Option<Geometry> {
    if rows == [] then None
    else if rows[0].id == id then Some(rows[0].footprint)
    else FootprintOf(rows[1..], id)
  }

  lemma {:induction false} FootprintFound(rows: seq<Record>, id: string, i: nat)
    requires i < |rows| && rows[i].id == id
    ensures FootprintOf(rows, id).Some?
  {
    if rows[0].id != id {
      FootprintFound(rows[1..], id, i - 1);
    }
  }

  /** The `anchor_overlap` column: the percentage of the anchor covered by each record. */
  function WithAnchorOverlap(rows: seq<Record>, g: Geometry, overlap: Overlap): (r: seq<Record>)
    ensures |r| == |rows|
  {
    seq(|rows|, i requires 0 <= i < |rows| => rows[i].(anchorOverlap := 100.0 * overlap(rows[i].footprint, g)))
  }

  function AnchorOverlapAtLeast(threshold: real): Record -> bool {
    (r: Record) => r.anchorOverlap >= threshold
  }

  /** Picks the anchor, writes `anchor_overlap` into the table in place and
      returns the anchor with the records at or above the threshold. With no
      anchor the table is untouched and the call fails. */
  method FilterCoregistered(t: Table, threshold: real, overlap: Overlap, overlapThreshold: real)
    returns (result: Result<(string, seq<Record>), Error>)
    modifies t
    ensures result.Err? <==> AnchorOf(old(t.rows), threshold, overlap).None?
    ensures result.Err? ==> result.error == NoAnchor && t.rows == old(t.rows)
    ensures result.Ok? ==>
      var (id, kept) := result.value;
      AnchorOf(old(t.rows), threshold, overlap) == Some(id) &&
      FootprintOf(old(t.rows), id).Some? &&
      t.rows == WithAnchorOverlap(old(t.rows), FootprintOf(old(t.rows), id).value, overlap) &&
      kept == Keep(t.rows, AnchorOverlapAtLeast(overlapThreshold))
  {
    var anchor := SelectAnchor(t.rows, threshold, overlap);
    if anchor.None? {
      return Err(NoAnchor);
    }
    var id := anchor.value;
    AnchorIsLowCloud(t.rows, threshold, overlap, id);
    var i :| 0 <= i < |t.rows| && t.rows[i].id == id && t.rows[i].cloudCover <= threshold;
    FootprintFound(t.rows, id, i);
    var g := FootprintOf(t.rows, id).value;
    t.rows := WithAnchorOverlap(t.rows, g, overlap);
    return Ok((id, Keep(t.rows, AnchorOverlapAtLeast(overlapThreshold))));
  }

  /** Writing `anchor_overlap` changes no other column, and the filter keeps
      exactly the records at or above the threshold, in order. */
  lemma AnchorOverlapFilter(rows: seq<Record>, g: Geometry, overlap: Overlap, overlapThreshold: real)
    ensures var w := WithAnchorOverlap(rows, g, overlap);
      (forall i :: 0 <= i < |rows| ==> w[i].(anchorOverlap := rows[i].anchorOverlap) == rows[i]) &&
      (forall i :: 0 <= i < |rows| ==> w[i].anchorOverlap == 100.0 * overlap(rows[i].footprint, g)) &&
      (forall r :: r in Keep(w, AnchorOverlapAtLeast(overlapThreshold)) <==> r in w && r.anchorOverlap >= overlapThreshold)
  {
  }
}
