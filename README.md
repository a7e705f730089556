# seplanet order pipeline — a Dafny model

seplanet searches the Planet catalog over an area of interest (AOI). It
builds an inventory of candidate scenes with a desirability score, refines
that inventory, and turns it into order requests for Planet's Orders API,
with optional processing tools and optional delivery to Google Earth
Engine. This project models the decision logic of that pipeline and proves
what it promises:

- **Inventory** (`inventory.dfy`): how `items_to_gdf` normalises catalog
  items (sort by acquisition time, cloud cover in percent, the date and
  `dove` columns), the overlap columns, and the integer score of
  `add_score`.
- **Refine** (`refine.dfy`): the four inclusive thresholds of
  `refine_inventory` and its best-record-per-period deduplication.
- **Tools** (`tools.dfy`): the toolchain of `create_toolchain`, the anchor
  choice of `select_anchor_image`, and `filter_coregistered_inventory`.
- **Orders** (`orders.dfy`): the request `build_order` assembles, and the
  resubmit guard of `place_order`.
- **EarthEngine** (`earthengine.dfy`): `get_ee_collection_names`.
- **Daily** (`daily.dfy`): steps 1 to 3 of `Daily.create_order`. These are
  the Earth Engine projection reset, the tool checks, the co-registration
  refinement, the 500-image limit, and the order requests stored in
  `order_request`. There is one request per block of 500 records. As the
  code slices it, a request holds only the block's first 499 records.
- **Shared modules**:
  - `wrappers.dfy`: Option, Result and Outcome.
  - `seqs.dfy`: order-preserving selection, first-appearance `unique`,
    insertion sort.
  - `strings.dfy`: split and join, and decimal rendering.
  - `records.dfy`: the records, the errors, and the mutable inventory
    table.

Each exception the code raises in the modelled operations is a value of
`Records.Error`. This includes the `KeyError` of `items_to_gdf` on an
empty search result (`EmptySearch`). Where the
source updates a frame in place, the model has methods on the mutable
`Records.Table`. `Daily.Daily` is a class with the fields that
`create_order` reads and writes.

Geometry never enters the model as arithmetic. A footprint is an opaque
value, and the area ratios are functions the caller supplies:

- `Overlap` for `select_anchor_image` and `anchor_overlap`;
- the `overlaps` argument of `AddOverlaps`.

The 10th percentile of cloud cover is a parameter. Float columns are
`real`.

Where the code and its documentation differ, the model follows the code:

- `orders.py` imports its toolchain from `planetpy.helpers.tools`. That is
  taken to be `seplanet/helpers/tools.py`.
- `refine_inventory` sorts by the calendar day, not by the period. So
  within a longer period (a week, say) the earliest day that has passing
  records wins. Score only breaks ties within a day.
- `add_score` re-sorts the frame and throws the result away. Row order is
  therefore unchanged.

## Model

| member | source | states |
|---|---|---|
| Inventory.CloudScore | seplanet/helpers/inventory.py:155-167 | the cloud score of one record's cover fraction; its bands are stated by `Inventory.CloudScoreBands` |
| Inventory.CoverScore | seplanet/helpers/inventory.py:169-180 | the cover score of one record's scene overlap; its bands are stated by `Inventory.CoverScoreBands` |
| Inventory.TotalScore | seplanet/helpers/inventory.py:137-183 | the score of one record, absent for an unknown item type; its parts, range and monotonicity are stated by the `TotalScore` lemmas below |
| Inventory.MonthsScoreCovers | seplanet/helpers/inventory.py:146-153 | every month has a season score, and it is 10 |
| Inventory.CloudScoreBands | seplanet/helpers/inventory.py:155-167 | cloud score is 10 exactly at 0, 5 exactly on (0, 1], 0 exactly below 0 or above 1 |
| Inventory.CoverScoreBands | seplanet/helpers/inventory.py:169-180 | cover score is 10 exactly from 99, 5 exactly on [95, 99), 0 exactly below 95 |
| Inventory.TotalScoreParts | seplanet/helpers/inventory.py:137-183 | the score exists exactly for the five known item types and is 10 + item score + cloud score + cover score |
| Inventory.TotalScoreBounds | seplanet/helpers/inventory.py:137-183 | every score lies in [10, 39] |
| Inventory.TotalScoreBest | seplanet/helpers/inventory.py:137-183 | PSScene4Band with cloud 0 and overlap 99.5 scores 39 |
| Inventory.TotalScoreMonotone | seplanet/helpers/inventory.py:155-183 | for one item type, less non-negative cloud and more overlap never lowers the score |
| Inventory.FromCatalog | seplanet/helpers/inventory.py:62-87 | the row of one catalog item before the derived columns, with zero overlaps and score; stated by `Inventory.ImportedDefaults` and `Inventory.ItemTypeOfRow` |
| Inventory.Imported | seplanet/helpers/inventory.py:59-103 | the items' rows with the derived columns, in item order; `Inventory.ItemsToInventory` states that the inventory is a sorted permutation of them |
| Inventory.DateString | seplanet/helpers/inventory.py:97 | the `%Y-%m-%d` rendering of a timestamp; its form and digits are stated by `Inventory.DateStringFormat` |
| Inventory.Dove | seplanet/helpers/inventory.py:98 | the `dove` column of one id; stated by `Inventory.DoveIsIdSuffix` |
| Inventory.Normalise | seplanet/helpers/inventory.py:94-98 | one row's cloud cover in percent, date and dove; proved to keep multisets by `Inventory.NormaliseAllPermutation` |
| Inventory.DateStringFormat | seplanet/helpers/inventory.py:97 | the date column has the form YYYY-MM-DD and its digits read back as the timestamp's year, month and day |
| Inventory.DoveIsIdSuffix | seplanet/helpers/inventory.py:98 | the dove column is the id from character 16 on, empty for shorter ids |
| Inventory.NormaliseAllPermutation | seplanet/helpers/inventory.py:94-98 | normalising the columns of two permutations of rows gives two permutations |
| Inventory.SortByTime | seplanet/helpers/inventory.py:90 | the rows, sorted in place by timestamp, are a permutation of the old rows |
| Inventory.ItemsToInventory | seplanet/helpers/inventory.py:62-98 | fails with `EmptySearch` exactly when there are no items (the `KeyError` of line 78); otherwise one row per item, sorted by timestamp, and as a multiset the items' rows with cloud cover x100, date and dove |
| Inventory.AddOverlaps | seplanet/helpers/inventory.py:106-123 | each row gets only its scene and AOI overlap columns written, in place, order kept |
| Inventory.AddScore | seplanet/helpers/inventory.py:126-187 | passes exactly when every item type is known, and then writes only `total_score`, with order kept; otherwise it fails with an unknown type taken from a row, and the table is unchanged |
| Inventory.CreateInventory | seplanet/helpers/inventory.py:203-211 | succeeds exactly when there are items and every item type is known; fails with `EmptySearch` on no items, else with an unknown item type of some item; on success the table is fresh, has one row per item, is sorted by time, is as a multiset the items' imported rows once the overlap and score columns are set aside, and each row carries the overlaps of its footprint and its score |
| Inventory.ImportedDefaults | seplanet/helpers/inventory.py:62-98 | rows built from catalog items still have zero overlaps and score, the columns `add_overlaps` and `add_score` fill in |
| Inventory.ItemTypeOfRow | seplanet/helpers/inventory.py:62-98 | every built row has the item type of some catalog item |
| Inventory.ItemTypesKept | seplanet/helpers/inventory.py:203-209 | the built rows have all item types known exactly when the items do |
| Seqs.Keep | seplanet/helpers/inventory.py:217-220 | a boolean-mask selection is no longer than its input; it holds exactly the input's elements that satisfy the predicate |
| Seqs.KeepKeep | seplanet/helpers/inventory.py:217-220 | two successive selections are one selection by the conjunction |
| Seqs.KeepIdempotent | seplanet/helpers/inventory.py:217-220 | selecting twice by the same predicate is selecting once |
| Seqs.SortByKey | seplanet/helpers/inventory.py:90 | the array is sorted by the key and is a permutation of its old contents |
| Refine.Precedes | seplanet/helpers/inventory.py:228-231 | the sort order of the deduplication; stated a strict weak order by `Refine.PrecedesStrictWeakOrder` |
| Refine.Dedup | seplanet/helpers/inventory.py:228-235 | the first record of each period after sorting; stated by `Refine.DedupSpec` and `Refine.DedupOfDeduplicated` |
| Refine.RefineInventory | seplanet/helpers/inventory.py:214-237 | thresholds, then deduplication when a period is given; stated by the three `Refine` lemmas below |
| Refine.Thresholds | seplanet/helpers/inventory.py:217-220 | the four filters applied one after the other; stated by `Refine.ThresholdsExact` |
| Refine.ThresholdsExact | seplanet/helpers/inventory.py:217-220 | the four successive filters are one selection of the rows that pass all four inclusive thresholds, in order |
| Refine.PrecedesStrictWeakOrder | seplanet/helpers/inventory.py:228-231 | the sort order day ascending, score descending, AOI overlap descending, cloud ascending is irreflexive, asymmetric and transitive with its incomparability |
| Refine.DedupSpec | seplanet/helpers/inventory.py:228-235 | deduplication gives one row per non-empty period, sorted by period, each from the input and first in its period under the sort order |
| Refine.DedupOfDeduplicated | seplanet/helpers/inventory.py:228-235 | deduplicating a sequence that is already one-per-period and sorted returns it unchanged |
| Refine.RefineWithoutPeriod | seplanet/helpers/inventory.py:214-220 | without `every`: exactly the input rows that pass all four thresholds, in input order, both directions |
| Refine.RefineWithPeriod | seplanet/helpers/inventory.py:222-235 | with `every`: rows pass the thresholds, one per non-empty period of the passing rows, sorted by period, each first in its period under the sort order |
| Refine.RefineIdempotent | seplanet/helpers/inventory.py:214-237 | refining the refined inventory with the same arguments changes nothing |
| Tools.Toolchain | seplanet/helpers/tools.py:6-65 | the toolchain for the given tool names; stated by `Tools.ToolchainOrder` and `Tools.ToolchainMembers` |
| Tools.CreateToolchain | seplanet/helpers/tools.py:50-65 | the successive appends give the toolchain, and fail only for `clip` without an AOI |
| Tools.AddNdviIsNotNdviOnly | seplanet/helpers/tools.py:9-27 | the add-NDVI and NDVI-only band maths are different directives |
| Tools.ToolchainOrder | seplanet/helpers/tools.py:51-65 | directives come in the fixed order co-register, add_NDVI, NDVI_only, clip, each at most once |
| Tools.ToolchainMembers | seplanet/helpers/tools.py:30-65 | each directive is present exactly when its name is given; co-register carries the given anchor; composite and other names never appear; no known name gives an empty chain; only `clip` without an AOI fails |
| Tools.Candidates | seplanet/helpers/tools.py:71 | the records within the cloud threshold, in order; stated by `Tools.AnchorIsLowCloud` and `Tools.NoAnchorOnlyWithoutCandidates` |
| Tools.OverlapSum | seplanet/helpers/tools.py:78 | the sum of the overlap ratios of every record with one geometry; stated by `Tools.OverlapSumSingle` and `Tools.OverlapSumAtLeast` |
| Tools.Scan | seplanet/helpers/tools.py:73-81 | the loop's running maximum and index after n candidates; stated by `Tools.ScanSpec` |
| Tools.AnchorOf | seplanet/helpers/tools.py:68-83 | the anchor `select_anchor_image` returns; stated by `Tools.AnchorOfSpec` |
| Tools.ScanSpec | seplanet/helpers/tools.py:73-81 | after n candidates the loop holds 0 and no index when no sum is positive, else the first index of the largest sum |
| Tools.AnchorOfSpec | seplanet/helpers/tools.py:68-83 | the anchor is the first low-cloud record with the largest positive overlap sum, or none when no sum is positive |
| Tools.SelectAnchor | seplanet/helpers/tools.py:68-83 | the loop with its strict comparison returns that anchor |
| Tools.AnchorDetermined | seplanet/helpers/tools.py:73-81 | at most one anchor meets that description |
| Tools.AnchorIsLowCloud | seplanet/helpers/tools.py:71-81 | an anchor is the id of an inventory record whose cloud cover is within the threshold |
| Tools.OverlapSumSingle | seplanet/helpers/tools.py:78 | when only one record's footprint overlaps a geometry, with ratio 1, the sum is 1 |
| Tools.OverlapSumAtLeast | seplanet/helpers/tools.py:78 | with non-negative ratios, the sum is at least any one term that is 1 |
| Tools.NoAnchorOnlyWithoutCandidates | seplanet/helpers/tools.py:71-83 | when every footprint covers itself fully and no ratio is negative, there is no anchor exactly when no record is within the cloud threshold |
| Tools.DisjointFootprintsFirstCandidate | seplanet/helpers/tools.py:73-83 | when moreover distinct footprints do not overlap, every sum is 1 and the anchor is the first low-cloud record, by the strict comparison |
| Tools.WithAnchorOverlap | seplanet/helpers/tools.py:92-97 | one row per row, with `anchor_overlap` set; its columns are stated by `Tools.AnchorOverlapFilter` |
| Tools.FootprintOf | seplanet/helpers/tools.py:92 | the footprint of the first record with an id; stated by `Tools.FootprintFound` |
| Tools.FootprintFound | seplanet/helpers/tools.py:92 | an id present in the inventory has a footprint |
| Tools.FilterCoregistered | seplanet/helpers/tools.py:86-100 | fails, with the table unchanged, exactly when there is no anchor; otherwise writes `anchor_overlap` into the table in place and returns the anchor and the rows at or above the threshold |
| Tools.AnchorOverlapFilter | seplanet/helpers/tools.py:95-100 | `anchor_overlap` is 100 x overlap with the anchor, no other column changes, and the result holds exactly the rows at or above the threshold |
| Seqs.UniqueSpec | seplanet/helpers/orders.py:45 | `unique` keeps every value once and in order of first appearance |
| Orders.IdsOfType | seplanet/helpers/orders.py:44 | the ids of one item type's records, in order; stated by `Orders.IdsOfTypeMembers` |
| Orders.ProductsFor | seplanet/helpers/orders.py:43-55 | one product per given item type, failing at a type without a bundle; stated by `Orders.ProductsForSpec` |
| Orders.IdsOfTypeMembers | seplanet/helpers/orders.py:44 | a group holds exactly the ids of the inventory records of its item type |
| Orders.ProductsForSpec | seplanet/helpers/orders.py:43-55 | products exist exactly when every type has a bundle; then there is one product per type with its ids and bundle; otherwise the error names the first type without one |
| Orders.AllIdsOfProducts | seplanet/helpers/orders.py:43-55 | the products' ids, put together, are the ids grouped by type |
| Orders.GroupIdsPartition | seplanet/helpers/orders.py:43-55 | grouping by distinct types that cover the inventory takes every id exactly once |
| Orders.Products | seplanet/helpers/orders.py:31-55 | the products of one order; stated by `Orders.ProductsSpec` and `Orders.ProductsFailure` |
| Orders.ProductsFailure | seplanet/helpers/orders.py:31-55 | building products fails exactly when some record's item type has no bundle, and the error names such a type |
| Orders.ProductsSpec | seplanet/helpers/orders.py:31-55 | the products hold one group per distinct item type, in first-appearance order, each with its table bundle; together the groups hold every inventory id exactly once |
| Orders.BuildOrder | seplanet/helpers/orders.py:13-84 | computes the order request: the toolchain, then a reprojection, products and delivery |
| Orders.OrderRequestFor | seplanet/helpers/orders.py:13-84 | the request `build_order` returns; stated by `Orders.OrderRequestFields` and `Orders.OrderRequestTools` |
| Orders.ReprojectStep | seplanet/helpers/orders.py:22-28 | the cubic reprojection appended for any projection other than `EPSG:4326`; stated by `Orders.OrderRequestTools` |
| Orders.Truthy | seplanet/helpers/orders.py:70 | Python truthiness of an optional text; used by `Orders.OrderRequestFields` |
| Orders.DeliveryBlock | seplanet/helpers/orders.py:70-81 | the Earth Engine delivery block; stated by `Orders.OrderRequestFields` |
| Orders.OrderRequestFields | seplanet/helpers/orders.py:60-81 | the request has the title as name, is partial, and carries the products; its Earth Engine delivery block is present exactly when project and collection are both non-empty; it fails only through the toolchain or a bundle |
| Orders.ToolchainWithoutReproject | seplanet/helpers/tools.py:51-65 | the toolchain itself never reprojects |
| Orders.OrderRequestTools | seplanet/helpers/orders.py:19-28 | the tools are the toolchain followed by a cubic reprojection exactly when the projection is not the text `EPSG:4326` |
| Orders.FirstStateNamedSpec | seplanet/helpers/orders.py:116-119 | the state is that of the first order with the title, or `no order yet` |
| Orders.PlaceOrderGuard | seplanet/helpers/orders.py:108-125 | the resubmit check of `place_order`; stated by `Orders.PlaceOrderGuardSpec` |
| Orders.PlaceOrderGuardSpec | seplanet/helpers/orders.py:108-125 | the guard fails exactly when resubmit is off and the first same-named order is `success` or `partial`; the error names the title |
| Strings.JoinSplit | seplanet/helpers/earthengine.py:8 | joining the parts of a split with the same separator restores the text |
| EarthEngine.CollectionNames | seplanet/helpers/earthengine.py:1-13 | the full path and short name of a collection; stated by the `EarthEngine` lemmas below |
| EarthEngine.FullPathGiven | seplanet/helpers/earthengine.py:7-8 | a `projects/` path is returned as given, and the short name is what follows its third `/` |
| EarthEngine.ShortNameGiven | seplanet/helpers/earthengine.py:9-11 | a short name is returned as given with the full path `projects/{project}/assets/{name}` |
| EarthEngine.FullPathPrefixed | seplanet/helpers/earthengine.py:7-13 | the full path always starts with `projects/` |
| EarthEngine.RoundTrip | seplanet/helpers/earthengine.py:7-13 | when the project name holds no `/`, feeding the full path back gives the same pair |
| EarthEngine.RoundTripNeedsPlainProject | seplanet/helpers/earthengine.py:7-11 | with a `/` in the project name the recovered short name differs from the original |
| Strings.NatToStringInjective | seplanet/daily.py:190 | distinct batch numbers print differently |
| Daily.PlanetCollection | seplanet/daily.py:138-143 | the collection name handed to `build_order`; stated by `Daily.PlanetCollectionSpec` |
| Daily.PlanetCollectionSpec | seplanet/daily.py:138-143 | the name is set exactly when both Earth Engine settings are non-empty; a short name is passed on as given, and of a `projects/` path what follows its third `/` |
| Daily.NumBatches | seplanet/daily.py:186-187 | the number of values of `range(0, n, 500)`; stated by `Daily.NumBatchesSpec` |
| Daily.NumBatchesSpec | seplanet/daily.py:187 | the number of batches is the ceiling of n/500: none for n = 0, at most one up to 500 |
| Daily.BatchStart | seplanet/daily.py:187 | every batch start lies inside the inventory |
| Daily.Batch | seplanet/daily.py:187-195 | a batch holds 1 to 500 consecutive records starting at 500 idx |
| Daily.BatchesPartition | seplanet/daily.py:187-195 | the batches put together are the inventory, so every record is ordered exactly once |
| Daily.BatchAsWritten | seplanet/daily.py:195 | a slice as written holds at most 499 records |
| Daily.AsWrittenSkips | seplanet/daily.py:195 | as written, position 500 idx + 499 falls in no slice |
| Daily.AsWrittenFiveHundred | seplanet/daily.py:186-195 | as written, 500 records give one request of only the first 499 |
| Daily.AsWrittenSmall | seplanet/daily.py:186-195 | as written, up to 499 records are ordered whole |
| Daily.Reached | seplanet/daily.py:186-195 | the records at the positions the slices as written reach, in order |
| Daily.ReachedMembers | seplanet/daily.py:186-195 | those are exactly the records at the positions p < n with p mod 500 other than 499 |
| Daily.BatchesAsWritten | seplanet/daily.py:186-195 | the first k slices as written, one after the other |
| Daily.BatchesAsWrittenReach | seplanet/daily.py:186-195 | the slices as written, put together, are the records at positions p with p mod 500 other than 499, so one record in each full block of 500 is never ordered |
| Daily.BatchTitle | seplanet/daily.py:190 | the order title; stated by `Daily.TitlesDistinct` |
| Daily.TitlesDistinct | seplanet/daily.py:190 | the batches of one inventory have distinct titles |
| Daily.BatchRequest | seplanet/daily.py:193-202 | the request built for one batch's slice as written; stated by `Daily.BatchRequestSpec` |
| Daily.Stored | seplanet/daily.py:187-202 | `order_request` after the first k batches; stated by `Daily.StoredKeys`, `Daily.StoredValues` and `Daily.StoredOthers` |
| Daily.StoredKeys | seplanet/daily.py:192-202 | after the loop, `order_request` has its earlier keys plus one title per batch |
| Daily.StoredValues | seplanet/daily.py:192-202 | under each batch title is the request built for that batch's slice as written, replacing any older entry |
| Daily.StoredOthers | seplanet/daily.py:192-202 | entries under other keys are kept |
| Daily.BatchRequestSpec | seplanet/daily.py:192-202 | a batch's request is named by its title, is partial, orders exactly the ids of the slice as written (at most 499), and has no reprojection when the projection is WGS 84 |
| Daily.StoredIdsReach | seplanet/daily.py:186-202 | once every batch is stored, the requests together order the record ids at positions p with p mod 500 other than 499, each once, and no other |
| Daily.Prepare | seplanet/daily.py:155-182 | the checks and the co-registration refinement before the batches; stated by `Daily.PrepareSpec` |
| Daily.TableAfter | seplanet/daily.py:161-164 | the table after `create_order`, with `anchor_overlap` written when co-registering |
| Daily.PrepareSpec | seplanet/daily.py:155-182 | co-register with composite raises first; composite alone raises; with co-register, no anchor raises, more than 500 kept records raise and up to 500 do not, and the records ordered are exactly those with `anchor_overlap` at least 50 |
| Daily.Daily.constructor | seplanet/daily.py:34-93 | a new project has no Earth Engine settings, no tools and no order requests |
| Daily.Daily.CreateOrder | seplanet/daily.py:134-202 | resets the projection to WGS 84 exactly when both Earth Engine settings are non-empty; writes `anchor_overlap` into the table when co-registering; on a preparation error it stores nothing; otherwise it stores the requests of the slices as written, each of at most 499 records, up to the first one that fails |
| Daily.StoreOutcome | seplanet/daily.py:186-202 | what the batch loop leaves: all batches stored exactly when each builds, else the first failing batch's error with the batches before it stored; the state `Daily.Daily.StoreBatches` and `Daily.Daily.CreateOrder` promise |
| Daily.Daily.StoreBatches | seplanet/daily.py:186-202 | slices each block of 500 as written, `row` to `row+499`; passes exactly when every batch builds; then all batches are stored; otherwise it returns the first failing batch's error with the batches before it stored |

## Left out

- Geometry: the AOI loading and WKT/CRS handling of `helpers.py` are not part of this model. So are all shapely areas and intersections. They enter as the `Overlap` and `overlaps` functions.
- `np.percentile` and its interpolation: the cloud threshold is a parameter. On an empty inventory the percentile raises; the model instead finds no candidate and `FilterCoregistered` returns `NoAnchor`.
- Planet API plumbing: `build_request`, `get_items`, `get_existing_orders` paging, the API call and logging in `place_order`, `download_order`, the backoff retries and the polling loops. The existing orders are a parameter of the guard.
- Steps 4 and 5 of `create_order`: the `input()` confirmation and the `place_order` calls. Every `to_file` write, and the directory creation in `Daily.__init__`.
- `create_image_collection`: an Earth Engine foreign call. It re-raises every error other than "Cannot overwrite asset" (earthengine.py:33-39), which aborts `create_order` before the projection reset; the model never fails at that step.
- `create_composite_inventory`: it references an undefined name. The composite branch of `create_order` calls a function that does not exist, so the model represents that branch only by its failure, `CompositeUnavailable`.
- The `clip` directive reads the AOI's geometry. The model takes the geometry value itself. A missing AOI is the error `MissingAoi`.
- `calculate_ndvi`, `plot_inventory`, the mosaics modules and `setup.py`: raster maths, plotting, HTTP downloads and packaging.
- The `metadata` column (the raw feature) is not carried in a record.
- Floating point: columns are exact reals. NaN is not modelled. Pandas `.first()` picks non-missing values column by column; with no missing values, as here, this is the first row of each group.
- Timestamps are kept to the second. Timezones and sub-second parts are left out.
- `Refine.RefineWithPeriod`: the calendar semantics of `pd.Grouper` (where a week or month starts) are left to the `Period` function.
- `Inventory.ItemsToInventory`: stated as sorted and a permutation only, because `sort_values` on one column does not promise a stable order for equal timestamps.
- `Tools.SelectAnchor`: when no sum is positive, the source ends in an unbound-variable error. The model returns no anchor, and `FilterCoregistered` turns that into `NoAnchor`.

## Findings

| source | as written | input that shows it | evidently intended | confidence | as-written member | corrected member |
|---|---|---|---|---|---|---|
| seplanet/daily.py:195 | each batch is `iloc[row:row+every-1]`, i.e. 499 records | an inventory of 500 records: one request of records 0 to 498; record 499 is never ordered | `iloc[row:row+every]`, so the batches together hold every record exactly once | not executed | Daily.AsWrittenSkips | Daily.BatchesPartition |

`Daily.Daily.CreateOrder` stores the requests of the slices as written,
`Daily.BatchAsWritten`:

- `Daily.AsWrittenSkips`, `Daily.AsWrittenFiveHundred`,
  `Daily.AsWrittenSmall`, `Daily.BatchesAsWrittenReach` and
  `Daily.StoredIdsReach` state what those slices do and what is ordered;
- `Daily.Batch` is the corrected slice, `iloc[row:row+every]`, and
  `Daily.BatchesPartition` proves that those batches together hold every
  record exactly once.
