/** The project object and steps 1 to 3 of its `create_order`: the Earth
    Engine delivery settings, the tool checks, the co-registration
    refinement and the splitting of the inventory into order requests of at
    most 500 images. */
module Daily {
  import opened Wrappers
  import opened Records
  import opened Seqs
  import opened Strings
  import opened Tools
  import opened Orders
  import EarthEngine

  /** Images per order request. */
  const BatchSize: nat := 500

  /** The `overlap_threshold` default of `filter_coregistered_inventory`, in percent. */
  const OverlapThreshold: real := 50.0

  // ----- batches -----

  /** The number of values of `range(0, n, 500)`. */
  function NumBatches(n: nat): nat {
    (n + BatchSize - 1) / BatchSize
  }

  lemma NumBatchesSpec(n: nat)
    ensures NumBatches(n) * BatchSize >= n
    ensures n > 0 ==> (NumBatches(n) - 1) * BatchSize < n
    ensures NumBatches(n) == 0 <==> n == 0
    ensures n <= BatchSize ==> NumBatches(n) <= 1
  {
  }

  /** Batch `idx` starts inside the inventory. */
  lemma BatchStart(idx: nat, n: nat)
    requires idx < NumBatches(n)
    ensures idx * BatchSize < n
  {
    assert (idx + 1) * BatchSize <= NumBatches(n) * BatchSize;
    NumBatchesSpec(n);
  }

  /** `min(a, b)`, the way `iloc` clamps a slice end to the frame's length. */
  function Min(a: nat, b: nat): nat {
    if a < b then a else b
  }

  /** The rows of batch `idx`: the next 500 records of the inventory. */
  function Batch(rows: seq<Record>, idx: nat): (r: seq<Record>)
    requires idx < NumBatches(|rows|)
    ensures 1 <= |r| <= BatchSize && idx * BatchSize + |r| <= |rows|
    ensures forall k :: 0 <= k < |r| ==> r[k] == rows[idx * BatchSize + k]
  {
    BatchStart(idx, |rows|);
    rows[idx * BatchSize .. Min(idx * BatchSize + BatchSize, |rows|)]
  }

  /** The rows of batch `idx` as `create_order` slices them,
      `iloc[row:row+every-1]`: the next 499 records. */
  function BatchAsWritten(rows: seq<Record>, idx: nat): (r: seq<Record>)
    requires idx < NumBatches(|rows|)
    ensures 1 <= |r| <= BatchSize - 1 && idx * BatchSize + |r| <= |rows|
    ensures forall k :: 0 <= k < |r| ==> r[k] == rows[idx * BatchSize + k]
  {
    BatchStart(idx, |rows|);
    rows[idx * BatchSize .. Min(idx * BatchSize + BatchSize - 1, |rows|)]
  }

  /** The first `k` batches, one after the other. */
  function Batches(rows: seq<Record>, k: nat): seq<Record>
    requires k <= NumBatches(|rows|)
  {
    if k == 0 then [] else Batches(rows, k - 1) + Batch(rows, k - 1)
  }

  /** The first `k` batches are the first `500 k` records (or all of them). */
  lemma {:induction false} BatchesPrefix(rows: seq<Record>, k: nat)
    requires k <= NumBatches(|rows|)
    ensures Batches(rows, k) == rows[..Min(k * BatchSize, |rows|)]
  {
    if k > 0 {
      BatchesPrefix(rows, k - 1);
      BatchStart(k - 1, |rows|);
      var lo := (k - 1) * BatchSize;
      assert Min(lo, |rows|) == lo;
      assert k * BatchSize == lo + BatchSize;
      assert rows[..Min(k * BatchSize, |rows|)] == rows[..lo] + Batch(rows, k - 1);
    }
  }

  /** Every record is in exactly one batch, in order: the batches put
      together are the inventory. */
  lemma BatchesPartition(rows: seq<Record>)
    ensures Batches(rows, NumBatches(|rows|)) == rows
  {
    BatchesPrefix(rows, NumBatches(|rows|));
    NumBatchesSpec(|rows|);
    assert rows[..|rows|] == rows;
  }

  /** As written, the last record of every full batch is ordered in no
      batch: position `500 idx + 499` lies in no slice. */
  lemma AsWrittenSkips(rows: seq<Record>, idx: nat)
    requires idx * BatchSize + BatchSize - 1 < |rows|
    ensures forall j :: 0 <= j < NumBatches(|rows|) ==>
      !(j * BatchSize <= idx * BatchSize + BatchSize - 1 < Min(j * BatchSize + BatchSize - 1, |rows|))
  {
    var p := idx * BatchSize + BatchSize - 1;
    forall j | 0 <= j < NumBatches(|rows|)
      ensures !(j * BatchSize <= p < Min(j * BatchSize + BatchSize - 1, |rows|))
    {
      if j < idx {
        assert (idx - j) * BatchSize >= BatchSize;
      } else if j > idx {
        assert (j - idx) * BatchSize >= BatchSize;
      }
    }
  }

  /** An inventory of exactly 500 records is ordered as one request of its
      first 499. */
  lemma AsWrittenFiveHundred(rows: seq<Record>)
    requires |rows| == BatchSize
    ensures NumBatches(|rows|) == 1
    ensures BatchAsWritten(rows, 0) == rows[..BatchSize - 1]
    ensures |BatchAsWritten(rows, 0)| == |rows| - 1
  {
  }

  /** As written, an inventory of at most 499 records is ordered whole. */
  lemma AsWrittenSmall(rows: seq<Record>)
    requires 0 < |rows| < BatchSize
    ensures NumBatches(|rows|) == 1 && BatchAsWritten(rows, 0) == rows
  {
  }

  /** The records at the positions the slices as written reach: every
      position `p < n` except those with `p % 500 == 499`, in order. */
  function Reached(rows: seq<Record>, n: nat): seq<Record>
    requires n <= |rows|
  {
    if n == 0 then []
    else Reached(rows, n - 1) + (if (n - 1) % BatchSize != BatchSize - 1 then [rows[n - 1]] else [])
  }

  /** `Reached` holds exactly the records at the positions it names. */
  lemma {:induction false} ReachedMembers(rows: seq<Record>, n: nat)
    requires n <= |rows|
    ensures forall p :: 0 <= p < n && p % BatchSize != BatchSize - 1 ==> rows[p] in Reached(rows, n)
    ensures forall x :: x in Reached(rows, n) ==>
      exists p :: 0 <= p < n && p % BatchSize != BatchSize - 1 && rows[p] == x
  {
    if n > 0 {
      ReachedMembers(rows, n - 1);
    }
  }

  /** The first `k` slices as written, one after the other. */
  function BatchesAsWritten(rows: seq<Record>, k: nat): seq<Record>
    requires k <= NumBatches(|rows|)
  {
    if k == 0 then [] else BatchesAsWritten(rows, k - 1) + BatchAsWritten(rows, k - 1)
  }

  /** Within one block of 500 positions, the slice as written takes the first 499. */
  lemma {:induction false} ReachedBlock(rows: seq<Record>, lo: nat, m: nat)
    requires lo % BatchSize == 0 && m <= BatchSize && lo + m <= |rows|
    ensures Reached(rows, lo + m) == Reached(rows, lo) + rows[lo .. lo + Min(m, BatchSize - 1)]
  {
    if m > 0 {
      ReachedBlock(rows, lo, m - 1);
      assert (lo + m - 1) % BatchSize == m - 1;
      if m < BatchSize {
        assert rows[lo .. lo + m] == rows[lo .. lo + (m - 1)] + [rows[lo + m - 1]];
      }
    }
  }

  lemma {:induction false} BatchesAsWrittenPrefix(rows: seq<Record>, k: nat)
    requires k <= NumBatches(|rows|)
    ensures BatchesAsWritten(rows, k) == Reached(rows, Min(k * BatchSize, |rows|))
  {
    if k > 0 {
      BatchesAsWrittenPrefix(rows, k - 1);
      BatchStart(k - 1, |rows|);
      var lo := (k - 1) * BatchSize;
      assert Min(lo, |rows|) == lo;
      assert k * BatchSize == lo + BatchSize;
      var m := Min(BatchSize, |rows| - lo);
      ReachedBlock(rows, lo, m);
      assert lo + m == Min(k * BatchSize, |rows|);
      assert rows[lo .. lo + Min(m, BatchSize - 1)] == BatchAsWritten(rows, k - 1);
    }
  }

  /** As written, the slices together are exactly the records at positions
      `p` with `p % 500 != 499`: one record in every full batch of 500 is
      never ordered. */
  lemma BatchesAsWrittenReach(rows: seq<Record>)
    ensures BatchesAsWritten(rows, NumBatches(|rows|)) == Reached(rows, |rows|)
  {
    BatchesAsWrittenPrefix(rows, NumBatches(|rows|));
    NumBatchesSpec(|rows|);
  }

  /** The order title: the project name, with the batch number appended
      when the inventory needs more than one request. */
  function BatchTitle(projectName: string, idx: nat, n: nat): string {
    if n > BatchSize then projectName + "_" + NatToString(idx) else projectName
  }

  /** Batches of one inventory get distinct titles. */
  lemma TitlesDistinct(projectName: string, i: nat, j: nat, n: nat)
    requires i < NumBatches(n) && j < NumBatches(n) && i != j
    ensures BatchTitle(projectName, i, n) != BatchTitle(projectName, j, n)
  {
    NumBatchesSpec(n);
    var pre := projectName + "_";
    if pre + NatToString(i) == pre + NatToString(j) {
      assert NatToString(i) == (pre + NatToString(i))[|pre|..];
      assert NatToString(j) == (pre + NatToString(j))[|pre|..];
      NatToStringInjective(i, j);
    }
  }

  // ----- the requests -----

  /** What every `build_order` call of one `create_order` shares. */
  datatype Batching = Batching(
    projectName: string,
    aoi: Option<Geometry>,
    tools: seq<string>,
    outProjection: string,
    anchor: Option<string>,
    eeProject: Option<string>,
    collection: Option<string>)

  /** The Planet-side collection name handed to `build_order`: set only
      when both Earth Engine settings are non-empty. */
  function PlanetCollection(eeProject: Option<string>, eeCollection: Option<string>): Option<string> {
    if Truthy(eeProject) && Truthy(eeCollection) then
      Some(EarthEngine.CollectionNames(eeProject.value, eeCollection.value).0)
    else None
  }

  /** The collection is set exactly when both settings are non-empty. A short
      name is passed on as given; of a full `projects/` path, what follows
      its third `/`. */
  lemma PlanetCollectionSpec(eeProject: Option<string>, eeCollection: Option<string>)
    ensures PlanetCollection(eeProject, eeCollection).Some? <==> Truthy(eeProject) && Truthy(eeCollection)
    ensures Truthy(eeProject) && Truthy(eeCollection) && !StartsWith(eeCollection.value, EarthEngine.ProjectsPrefix) ==>
      PlanetCollection(eeProject, eeCollection) == Some(eeCollection.value)
    ensures Truthy(eeProject) && Truthy(eeCollection) && StartsWith(eeCollection.value, EarthEngine.ProjectsPrefix) &&
            |Split(eeCollection.value, '/')| > 3 ==>
      eeCollection.value ==
        Join(Split(eeCollection.value, '/')[..3], '/') + "/" + PlanetCollection(eeProject, eeCollection).value
  {
    if Truthy(eeProject) && Truthy(eeCollection) {
      if StartsWith(eeCollection.value, EarthEngine.ProjectsPrefix) {
        EarthEngine.FullPathGiven(eeProject.value, eeCollection.value);
      } else {
        EarthEngine.ShortNameGiven(eeProject.value, eeCollection.value);
      }
    }
  }

  /** The request built for batch `idx`, from the slice as written. */
  function BatchRequest(b: Batching, rows: seq<Record>, idx: nat): Result<OrderRequest, Error>
    requires idx < NumBatches(|rows|)
  {
    OrderRequestFor(b.aoi, BatchAsWritten(rows, idx), BatchTitle(b.projectName, idx, |rows|), b.tools,
                    b.outProjection, b.anchor, b.eeProject, b.collection)
  }

  /** `order_request` after the first `k` batches were stored. */
  function Stored(m: map<string, OrderRequest>, b: Batching, rows: seq<Record>, k: nat): map<string, OrderRequest>
    requires k <= NumBatches(|rows|)
    requires forall j :: 0 <= j < k ==> BatchRequest(b, rows, j).Ok?
  {
    if k == 0 then m
    else Stored(m, b, rows, k - 1)[BatchTitle(b.projectName, k - 1, |rows|) := BatchRequest(b, rows, k - 1).value]
  }

  /** The titles of the first `k` batches. */
  function Titles(projectName: string, n: nat, k: nat): set<string> {
    set j | 0 <= j < k :: BatchTitle(projectName, j, n)
  }

  /** After `k` batches, `order_request` holds its old keys and the title of each batch. */
  lemma {:induction false} StoredKeys(m: map<string, OrderRequest>, b: Batching, rows: seq<Record>, k: nat)
    requires k <= NumBatches(|rows|)
    requires forall j :: 0 <= j < k ==> BatchRequest(b, rows, j).Ok?
    ensures Stored(m, b, rows, k).Keys == m.Keys + Titles(b.projectName, |rows|, k)
  {
    if k > 0 {
      StoredKeys(m, b, rows, k - 1);
      assert Titles(b.projectName, |rows|, k) ==
             Titles(b.projectName, |rows|, k - 1) + {BatchTitle(b.projectName, k - 1, |rows|)};
    }
  }

  /** Under the title of each stored batch is the request built for it. */
  lemma {:induction false} StoredValues(m: map<string, OrderRequest>, b: Batching, rows: seq<Record>, k: nat)
    requires k <= NumBatches(|rows|)
    requires forall j :: 0 <= j < k ==> BatchRequest(b, rows, j).Ok?
    ensures forall j :: 0 <= j < k ==>
      BatchTitle(b.projectName, j, |rows|) in Stored(m, b, rows, k) &&
      Stored(m, b, rows, k)[BatchTitle(b.projectName, j, |rows|)] == BatchRequest(b, rows, j).value
  {
    if k > 0 {
      StoredValues(m, b, rows, k - 1);
      var last := BatchTitle(b.projectName, k - 1, |rows|);
      forall j | 0 <= j < k - 1
        ensures BatchTitle(b.projectName, j, |rows|) != last
      {
        TitlesDistinct(b.projectName, j, k - 1, |rows|);
      }
    }
  }

  /** An entry under any other key is left as it was. */
  lemma {:induction false} StoredOthers(m: map<string, OrderRequest>, b: Batching, rows: seq<Record>, k: nat, t: string)
    requires k <= NumBatches(|rows|)
    requires forall j :: 0 <= j < k ==> BatchRequest(b, rows, j).Ok?
    requires t in m && t !in Titles(b.projectName, |rows|, k)
    ensures t in Stored(m, b, rows, k) && Stored(m, b, rows, k)[t] == m[t]
  {
    if k > 0 {
      assert BatchTitle(b.projectName, k - 1, |rows|) in Titles(b.projectName, |rows|, k);
      assert Titles(b.projectName, |rows|, k - 1) <= Titles(b.projectName, |rows|, k);
      StoredOthers(m, b, rows, k - 1, t);
    }
  }

  /** Each stored request is named by its title, is a partial order of the
      records of the slice as written grouped by item type, and has no
      reprojection when the projection is WGS 84. */
  lemma BatchRequestSpec(b: Batching, rows: seq<Record>, idx: nat)
    requires idx < NumBatches(|rows|)
    requires BatchRequest(b, rows, idx).Ok?
    ensures var r := BatchRequest(b, rows, idx).value;
      r.name == BatchTitle(b.projectName, idx, |rows|) && r.orderType == "partial" &&
      multiset(AllIds(r.products)) == multiset(Ids(BatchAsWritten(rows, idx))) &&
      (b.outProjection == Wgs84 ==> forall d :: d in r.tools ==> !d.Reproject?)
  {
    var batch := BatchAsWritten(rows, idx);
    var title := BatchTitle(b.projectName, idx, |rows|);
    OrderRequestFields(b.aoi, batch, title, b.tools, b.outProjection, b.anchor, b.eeProject, b.collection);
    OrderRequestTools(b.aoi, batch, title, b.tools, b.outProjection, b.anchor, b.eeProject, b.collection);
    ProductsSpec(batch);
  }

  /** The ids the first `k` stored requests order, request after request. */
  function StoredIds(b: Batching, rows: seq<Record>, k: nat): seq<string>
    requires k <= NumBatches(|rows|)
    requires forall j :: 0 <= j < k ==> BatchRequest(b, rows, j).Ok?
  {
    if k == 0 then [] else StoredIds(b, rows, k - 1) + AllIds(BatchRequest(b, rows, k - 1).value.products)
  }

  lemma IdsConcat(a: seq<Record>, c: seq<Record>)
    ensures Ids(a + c) == Ids(a) + Ids(c)
  {
  }

  lemma {:induction false} StoredIdsPrefix(b: Batching, rows: seq<Record>, k: nat)
    requires k <= NumBatches(|rows|)
    requires forall j :: 0 <= j < k ==> BatchRequest(b, rows, j).Ok?
    ensures multiset(StoredIds(b, rows, k)) == multiset(Ids(BatchesAsWritten(rows, k)))
  {
    if k > 0 {
      StoredIdsPrefix(b, rows, k - 1);
      BatchRequestSpec(b, rows, k - 1);
      IdsConcat(BatchesAsWritten(rows, k - 1), BatchAsWritten(rows, k - 1));
    }
  }

  /** Once every batch is stored, the requests together order each record at
      a position `p` with `p % 500 != 499` once, and no other record. */
  lemma StoredIdsReach(b: Batching, rows: seq<Record>)
    requires forall j :: 0 <= j < NumBatches(|rows|) ==> BatchRequest(b, rows, j).Ok?
    ensures multiset(StoredIds(b, rows, NumBatches(|rows|))) == multiset(Ids(Reached(rows, |rows|)))
  {
    StoredIdsPrefix(b, rows, NumBatches(|rows|));
    BatchesAsWrittenReach(rows);
  }

  /** What the loop of step 3 leaves: it passes exactly when every batch
      builds, and then every batch is stored; otherwise its error is that of
      the first failing batch, and only the batches before it are stored. */
  predicate StoreOutcome(outcome: Outcome<Error>, before: map<string, OrderRequest>,
                         after: map<string, OrderRequest>, b: Batching, rows: seq<Record>)
  {
    (outcome.Pass? <==> forall j :: 0 <= j < NumBatches(|rows|) ==> BatchRequest(b, rows, j).Ok?) &&
    (outcome.Pass? ==> after == Stored(before, b, rows, NumBatches(|rows|))) &&
    (outcome.Fail? ==>
       exists k :: (0 <= k < NumBatches(|rows|) &&
         (forall j :: 0 <= j < k ==> BatchRequest(b, rows, j).Ok?) &&
         BatchRequest(b, rows, k) == Err(outcome.error) &&
         after == Stored(before, b, rows, k)))
  }

  // ----- steps 1 and 2 -----

  /** What the inventory table holds after `create_order`: co-registration
      writes `anchor_overlap` into it once an anchor has been found. */
  function TableAfter(tools: seq<string>, rows: seq<Record>, cloudThreshold: real, overlap: Overlap): seq<Record> {
    if "co-register" in tools && "composite" !in tools then
      match AnchorOf(rows, cloudThreshold, overlap)
      case None => rows
      case Some(id) =>
        match FootprintOf(rows, id)
        case None => rows
        case Some(g) => WithAnchorOverlap(rows, g, overlap)
    else rows
  }

  /** The anchor and the records to order, or the error raised before any
      request is built. */
  function Prepare(tools: seq<string>, rows: seq<Record>, cloudThreshold: real, overlap: Overlap)
    : Result<(Option<string>, seq<Record>), Error>
  {
    if "co-register" in tools && "composite" in tools then Err(IncompatibleTools)
    else if "co-register" in tools then
      match AnchorOf(rows, cloudThreshold, overlap)
      case None => Err(NoAnchor)
      case Some(id) =>
        var kept := Keep(TableAfter(tools, rows, cloudThreshold, overlap), AnchorOverlapAtLeast(OverlapThreshold));
        if |kept| > BatchSize then Err(OrderTooLarge(|kept|)) else Ok((Some(id), kept))
    else if "composite" in tools then Err(CompositeUnavailable)
    else Ok((None, rows))
  }

  /** The tool checks: which error each combination raises, and what a
      successful preparation hands to the batching. */
  lemma PrepareSpec(tools: seq<string>, rows: seq<Record>, cloudThreshold: real, overlap: Overlap)
    ensures var p := Prepare(tools, rows, cloudThreshold, overlap);
      var co := "co-register" in tools;
      (co && "composite" in tools ==> p == Err(IncompatibleTools)) &&
      (!co && "composite" in tools ==> p == Err(CompositeUnavailable)) &&
      (!co && "composite" !in tools ==> p == Ok((None, rows))) &&
      (co && "composite" !in tools ==>
        (p == Err(NoAnchor) <==> AnchorOf(rows, cloudThreshold, overlap).None?) &&
        (AnchorOf(rows, cloudThreshold, overlap).Some? ==>
          var kept := Keep(TableAfter(tools, rows, cloudThreshold, overlap), AnchorOverlapAtLeast(OverlapThreshold));
          (p.Err? <==> |kept| > BatchSize) && (p.Err? ==> p.error == OrderTooLarge(|kept|))) &&
        (p.Ok? ==>
          p.value.0 == AnchorOf(rows, cloudThreshold, overlap) && p.value.0.Some? &&
          |p.value.1| <= BatchSize &&
          forall r :: r in p.value.1 <==>
            r in TableAfter(tools, rows, cloudThreshold, overlap) && r.anchorOverlap >= OverlapThreshold))
  {
    var co := "co-register" in tools;
    if co && "composite" !in tools {
      var a := AnchorOf(rows, cloudThreshold, overlap);
      if a.Some? {
        AnchorOfSpec(rows, cloudThreshold, overlap);
        AnchorIsLowCloud(rows, cloudThreshold, overlap, a.value);
        var i :| 0 <= i < |rows| && rows[i].id == a.value && rows[i].cloudCover <= cloudThreshold;
        FootprintFound(rows, a.value, i);
        AnchorOverlapFilter(rows, FootprintOf(rows, a.value).value, overlap, OverlapThreshold);
      }
    }
  }

  // ----- the project object -----

  class Daily {
    var projectName: string
    var aoi: Option<Geometry>
    var tools: seq<string>
    var outProjection: string
    var eeCloudProject: Option<string>
    var eeImageCollection: Option<string>
    var orderRequest: map<string, OrderRequest>

    /** The settings `__init__` gives a new project: no Earth Engine
        delivery, no tools and no order requests yet. */
    constructor (projectName: string, aoi: Option<Geometry>, outProjection: string)
      ensures this.projectName == projectName && this.aoi == aoi && this.outProjection == outProjection
      ensures eeCloudProject == None && eeImageCollection == None
      ensures tools == [] && orderRequest == map[]
    {
      this.projectName := projectName;
      this.aoi := aoi;
      this.outProjection := outProjection;
      eeCloudProject := None;
      eeImageCollection := None;
      tools := [];
      orderRequest := map[];
    }

    /** Steps 1 to 3 of `create_order`. `cloudThreshold` is the 10th
        percentile of the inventory's cloud cover and `overlap` the area
        ratio of two footprints, both computed outside the model. */
    method CreateOrder(inventory: Table, cloudThreshold: real, overlap: Overlap) returns (outcome: Outcome<Error>)
      modifies this, inventory
      ensures projectName == old(projectName) && aoi == old(aoi) && tools == old(tools)
      ensures eeCloudProject == old(eeCloudProject) && eeImageCollection == old(eeImageCollection)
      ensures outProjection == (if Truthy(eeCloudProject) && Truthy(eeImageCollection) then Wgs84 else old(outProjection))
      ensures inventory.rows == TableAfter(tools, old(inventory.rows), cloudThreshold, overlap)
      ensures var p := Prepare(tools, old(inventory.rows), cloudThreshold, overlap);
        p.Err? ==> outcome == Fail(p.error) && orderRequest == old(orderRequest)
      ensures var p := Prepare(tools, old(inventory.rows), cloudThreshold, overlap);
        p.Ok? ==>
          StoreOutcome(outcome, old(orderRequest), orderRequest,
                       Batching(projectName, aoi, tools, outProjection, p.value.0, eeCloudProject,
                                PlanetCollection(eeCloudProject, eeImageCollection)),
                       p.value.1)
    {
      // 1: Earth Engine delivery; creating the collection is not modelled
      var plaColl: Option<string> := None;
      if Truthy(eeCloudProject) && Truthy(eeImageCollection) {
        var names := EarthEngine.CollectionNames(eeCloudProject.value, eeImageCollection.value);
        plaColl := Some(names.0);
        outProjection := Wgs84;
      }
      if "co-register" in tools && "composite" in tools {
        return Fail(IncompatibleTools);
      }
      // 2: co-registration
      var anchor: Option<string> := None;
      var rows := inventory.rows;
      if "co-register" in tools {
        var filtered := FilterCoregistered(inventory, cloudThreshold, overlap, OverlapThreshold);
        if filtered.Err? {
          return Fail(filtered.error);
        }
        anchor := Some(filtered.value.0);
        rows := filtered.value.1;
      }
      if "composite" in tools {
        return Fail(CompositeUnavailable);
      }
      // 3: one request per 500 records, of the first 499 of them
      var n := |rows|;
      if n > BatchSize && "co-register" in tools {
        return Fail(OrderTooLarge(n));
      }
      var b := Batching(projectName, aoi, tools, outProjection, anchor, eeCloudProject, plaColl);
      assert Prepare(tools, old(inventory.rows), cloudThreshold, overlap) == Ok((anchor, rows));
      assert plaColl == PlanetCollection(eeCloudProject, eeImageCollection);
      outcome := StoreBatches(b, rows);
    }

    /** The loop of step 3: one `build_order` call per batch, each stored
        under its title; the first failing call ends the loop and leaves the
        requests stored before it. */
    method StoreBatches(b: Batching, rows: seq<Record>) returns (outcome: Outcome<Error>)
      modifies this`orderRequest
      ensures StoreOutcome(outcome, old(orderRequest), orderRequest, b, rows)
    {
      var n := |rows|;
      for idx := 0 to NumBatches(n)
        invariant forall j :: 0 <= j < idx ==> BatchRequest(b, rows, j).Ok?
        invariant orderRequest == Stored(old(orderRequest), b, rows, idx)
      {
        var row := idx * BatchSize;
        BatchStart(idx, n);
        var title := if n > BatchSize then b.projectName + "_" + NatToString(idx) else b.projectName;
        var end := if row + BatchSize - 1 < n then row + BatchSize - 1 else n;
        assert rows[row..end] == BatchAsWritten(rows, idx);
        assert title == BatchTitle(b.projectName, idx, n);
        var request := BuildOrder(b.aoi, rows[row..end], title, b.tools, b.outProjection, b.anchor,
                                  b.eeProject, b.collection);
        if request.Err? {
          assert !BatchRequest(b, rows, idx).Ok?;
          return Fail(request.error);
        }
        assert BatchRequest(b, rows, idx) == request;
        assert forall j :: 0 <= j < idx + 1 ==> BatchRequest(b, rows, j).Ok?;
        assert Stored(old(orderRequest), b, rows, idx + 1) == orderRequest[title := request.value];
        orderRequest := orderRequest[title := request.value];
      }
      return Pass;
    }
  }
}
