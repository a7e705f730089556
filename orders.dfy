/** Planet order payloads: the request `build_order` assembles from an
    inventory, and the guard in `place_order` against ordering the same
    images twice. */
module Orders {
  import opened Wrappers
  import opened Records
  import opened Seqs
  import opened Tools

  /** Output in this projection needs no reproject directive. */
  const Wgs84: string := "EPSG:4326"

  /** The product bundle ordered for each item type. */
  const ProductBundles: map<string, string> := map[
    "PSScene3Band" := "analytic",
    "PSScene4Band" := "analytic_udm2",
    "PSOrthoTile" := "analytic_5b_udm2,analytic_5b,analytic_udm2,analytic",
    "REOrthoTile" := "analytic",
    "SkySatScene" := "analytic_udm2"]

  datatype Product = Product(itemType: string, itemIds: seq<string>, productBundle: string)

  datatype Delivery = GoogleEarthEngine(project: string, collection: string)

  datatype OrderRequest = OrderRequest(
    name: string,
    orderType: string,
    products: seq<Product>,
    tools: seq<Directive>,
    delivery: Option<Delivery>)

  // ----- products grouped by item type -----

  function ItemTypes(inv: seq<Record>): seq<string> {
    seq(|inv|, i requires 0 <= i < |inv| => inv[i].itemType)
  }

  function Ids(inv: seq<Record>): seq<string> {
    seq(|inv|, i requires 0 <= i < |inv| => inv[i].id)
  }

  /** The ids of the records of one item type, in inventory order. */
  function IdsOfType(inv: seq<Record>, itemType: string): seq<string> {
    if inv == [] then []
    else (if inv[0].itemType == itemType then [inv[0].id] else []) + IdsOfType(inv[1..], itemType)
  }

  /** One product per item type of `types`, in that order; an item type
      without a bundle fails at the first such type. */
  function ProductsFor(inv: seq<Record>, types: seq<string>): Result<seq<Product>, Error> {
    if types == [] then Ok([])
    else if types[0] !in ProductBundles then Err(UnknownItemType(types[0]))
    else
      match ProductsFor(inv, types[1..])
      case Err(e) => Err(e)
      case Ok(rest) => Ok([Product(types[0], IdsOfType(inv, types[0]), ProductBundles[types[0]])] + rest)
  }

  /** The products of an order: one per distinct item type, in order of first appearance. */
  function Products(inv: seq<Record>): Result<seq<Product>, Error> {
    ProductsFor(inv, Unique(ItemTypes(inv)))
  }

  /** All item ids of a product list, group after group. */
  function AllIds(ps: seq<Product>): seq<string> {
    if ps == [] then [] else ps[0].itemIds + AllIds(ps[1..])
  }

  /** Each id of a group is the id of a record of that type, and the id
      of every record of that type is in the group. */
  lemma {:induction false} IdsOfTypeMembers(inv: seq<Record>, itemType: string)
    ensures forall x :: x in IdsOfType(inv, itemType) <==>
      exists i :: 0 <= i < |inv| && inv[i].itemType == itemType && inv[i].id == x
  {
    if inv != [] {
      IdsOfTypeMembers(inv[1..], itemType);
      forall x | (exists i :: 0 <= i < |inv| && inv[i].itemType == itemType && inv[i].id == x)
        ensures x in IdsOfType(inv, itemType)
      {
        var i :| 0 <= i < |inv| && inv[i].itemType == itemType && inv[i].id == x;
        if i > 0 {
          assert inv[1..][i - 1] == inv[i];
        }
      }
      forall x | x in IdsOfType(inv[1..], itemType)
        ensures exists i :: 0 <= i < |inv| && inv[i].itemType == itemType && inv[i].id == x
      {
        var i :| 0 <= i < |inv[1..]| && inv[1..][i].itemType == itemType && inv[1..][i].id == x;
        assert inv[i + 1] == inv[1..][i];
      }
    }
  }

  /** `ProductsFor` fails exactly when some type has no bundle, naming the
      first such type; otherwise it holds one product per type, in order. */
  lemma {:induction false} ProductsForSpec(inv: seq<Record>, types: seq<string>)
    ensures ProductsFor(inv, types).Ok? <==> forall k :: 0 <= k < |types| ==> types[k] in ProductBundles
    ensures ProductsFor(inv, types).Err? ==>
      exists k :: 0 <= k < |types| && types[k] !in ProductBundles &&
        ProductsFor(inv, types).error == UnknownItemType(types[k]) &&
        forall j :: 0 <= j < k ==> types[j] in ProductBundles
    ensures ProductsFor(inv, types).Ok? ==>
      var ps := ProductsFor(inv, types).value;
      |ps| == |types| &&
      forall k :: 0 <= k < |types| ==>
        ps[k] == Product(types[k], IdsOfType(inv, types[k]), ProductBundles[types[k]])
  {
    if types != [] && types[0] in ProductBundles {
      ProductsForSpec(inv, types[1..]);
      if ProductsFor(inv, types[1..]).Err? {
        var k :| 0 <= k < |types[1..]| && types[1..][k] !in ProductBundles &&
          ProductsFor(inv, types[1..]).error == UnknownItemType(types[1..][k]) &&
          forall j :: 0 <= j < k ==> types[1..][j] in ProductBundles;
        assert types[k + 1] == types[1..][k];
        forall j | 0 <= j < k + 1 ensures types[j] in ProductBundles {
          if j > 0 {
            assert types[j] == types[1..][j - 1];
          }
        }
      } else {
        var ps := ProductsFor(inv, types).value;
        forall k | 0 <= k < |types| ensures ps[k] == Product(types[k], IdsOfType(inv, types[k]), ProductBundles[types[k]]) {
          if k > 0 {
            assert types[k] == types[1..][k - 1];
          }
        }
      }
    }
  }

  /** The ids of the groups of a list of types, group after group. */
  function GroupIds(inv: seq<Record>, types: seq<string>): seq<string> {
    if types == [] then [] else IdsOfType(inv, types[0]) + GroupIds(inv, types[1..])
  }

  lemma {:induction false} AllIdsOfProducts(inv: seq<Record>, types: seq<string>)
    requires ProductsFor(inv, types).Ok?
    ensures AllIds(ProductsFor(inv, types).value) == GroupIds(inv, types)
  {
    if types != [] {
      AllIdsOfProducts(inv, types[1..]);
      var ps := ProductsFor(inv, types).value;
      assert ps[1..] == ProductsFor(inv, types[1..]).value;
    }
  }

  predicate Distinct(types: seq<string>) {
    forall i, j :: 0 <= i < j < |types| ==> types[i] != types[j]
  }

  /** Splitting off the first record puts its id in its own type's group only. */
  lemma {:induction false} GroupIdsCons(x: Record, rest: seq<Record>, types: seq<string>)
    requires Distinct(types)
    ensures multiset(GroupIds([x] + rest, types)) ==
            multiset(if x.itemType in types then [x.id] else []) + multiset(GroupIds(rest, types))
  {
    var inv := [x] + rest;
    if types != [] {
      assert inv[1..] == rest;
      assert Distinct(types[1..]);
      GroupIdsCons(x, rest, types[1..]);
      assert types == [types[0]] + types[1..];
      if x.itemType == types[0] {
        assert x.itemType !in types[1..];
      }
    }
  }

  /** The groups of a distinct list holding every item type partition the ids:
      each id of the inventory appears exactly once. */
  lemma {:induction false} GroupIdsPartition(inv: seq<Record>, types: seq<string>)
    requires Distinct(types)
    requires forall i :: 0 <= i < |inv| ==> inv[i].itemType in types
    ensures multiset(GroupIds(inv, types)) == multiset(Ids(inv))
  {
    if inv == [] {
      GroupIdsEmpty(types);
    } else {
      var rest := inv[1..];
      assert inv == [inv[0]] + rest;
      GroupIdsPartition(rest, types);
      GroupIdsCons(inv[0], rest, types);
      assert Ids(inv) == [inv[0].id] + Ids(rest);
    }
  }

  lemma {:induction false} GroupIdsEmpty(types: seq<string>)
    ensures GroupIds([], types) == []
  {
    if types != [] {
      GroupIdsEmpty(types[1..]);
    }
  }

  /** Products fail exactly when some record's item type has no bundle. */
  lemma ProductsFailure(inv: seq<Record>)
    ensures Products(inv).Ok? <==> forall i :: 0 <= i < |inv| ==> inv[i].itemType in ProductBundles
    ensures Products(inv).Err? ==>
      exists i :: 0 <= i < |inv| && inv[i].itemType !in ProductBundles &&
        Products(inv).error == UnknownItemType(inv[i].itemType)
  {
    var its := ItemTypes(inv);
    var types := Unique(its);
    UniqueSpec(its);
    ProductsForSpec(inv, types);
    if Products(inv).Ok? {
      forall i | 0 <= i < |inv| ensures inv[i].itemType in ProductBundles {
        assert its[i] == inv[i].itemType;
        assert its[i] in types;
      }
    } else {
      var k :| 0 <= k < |types| && types[k] !in ProductBundles &&
        Products(inv).error == UnknownItemType(types[k]);
      assert types[k] in its;
      var i :| 0 <= i < |its| && its[i] == types[k];
      assert inv[i].itemType == its[i];
    }
  }

  /** The products: one per distinct item type, in order of first appearance,
      each with the ids of its type in inventory order and the bundle of the
      table; together they hold every id exactly once. */
  lemma ProductsSpec(inv: seq<Record>)
    requires Products(inv).Ok?
    ensures var ps := Products(inv).value;
      var types := Unique(ItemTypes(inv));
      |ps| == |types| &&
      (forall k :: 0 <= k < |ps| ==>
        types[k] in ProductBundles &&
        ps[k] == Product(types[k], IdsOfType(inv, types[k]), ProductBundles[types[k]])) &&
      (forall i, j :: 0 <= i < j < |ps| ==> ps[i].itemType != ps[j].itemType) &&
      multiset(AllIds(ps)) == multiset(Ids(inv))
  {
    var its := ItemTypes(inv);
    var types := Unique(its);
    UniqueSpec(its);
    ProductsForSpec(inv, types);
    forall i | 0 <= i < |inv| ensures inv[i].itemType in types {
      assert its[i] == inv[i].itemType;
    }
    AllIdsOfProducts(inv, types);
    GroupIdsPartition(inv, types);
  }

  // ----- the order request -----

  /** The reproject directive added for any projection other than WGS 84,
      compared as text. */
  function ReprojectStep(outProjection: string): seq<Directive> {
    if outProjection != Wgs84 then [Reproject(outProjection, "cubic")] else []
  }

  /** Python truthiness of an optional string. */
  predicate Truthy(s: Option<string>) {
    s.Some? && s.value != ""
  }

  function DeliveryBlock(eeProject: Option<string>, eeCollection: Option<string>): Option<Delivery> {
    if Truthy(eeProject) && Truthy(eeCollection) then Some(GoogleEarthEngine(eeProject.value, eeCollection.value))
    else None
  }

  /** The request `build_order` returns. */
  function OrderRequestFor(aoi: Option<Geometry>, inv: seq<Record>, title: string, tools: seq<string>,
                           outProjection: string, anchor: Option<string>,
                           eeProject: Option<string>, eeCollection: Option<string>): Result<OrderRequest, Error>
  {
    match Toolchain(tools, aoi, anchor)
    case Err(e) => Err(e)
    case Ok(chain) =>
      match Products(inv)
      case Err(e) => Err(e)
      case Ok(ps) =>
        Ok(OrderRequest(title, "partial", ps, chain + ReprojectStep(outProjection),
                        DeliveryBlock(eeProject, eeCollection)))
  }

  method BuildOrder(aoi: Option<Geometry>, inv: seq<Record>, title: string, tools: seq<string>,
                    outProjection: string, anchor: Option<string>,
                    eeProject: Option<string>, eeCollection: Option<string>)
    returns (result: Result<OrderRequest, Error>)
    ensures result == OrderRequestFor(aoi, inv, title, tools, outProjection, anchor, eeProject, eeCollection)
  {
    var toolchain := CreateToolchain(tools, aoi, anchor);
    if toolchain.Err? {
      return Err(toolchain.error);
    }
    var chain := toolchain.value;
    if outProjection != Wgs84 {
      chain := chain + [Reproject(outProjection, "cubic")];
    }
    var products := Products(inv);
    if products.Err? {
      return Err(products.error);
    }
    assert chain == toolchain.value + ReprojectStep(outProjection);
    var request := OrderRequest(title, "partial", products.value, chain, None);
    if Truthy(eeProject) && Truthy(eeCollection) {
      request := request.(delivery := Some(GoogleEarthEngine(eeProject.value, eeCollection.value)));
    }
    return Ok(request);
  }

  /** The request is named by the title, is a partial order and carries
      the products; it has an Earth Engine delivery block exactly when both
      project and collection are non-empty. It fails only when the toolchain
      or a product bundle does. */
  lemma OrderRequestFields(aoi: Option<Geometry>, inv: seq<Record>, title: string, tools: seq<string>,
                           outProjection: string, anchor: Option<string>,
                           eeProject: Option<string>, eeCollection: Option<string>)
    ensures var r := OrderRequestFor(aoi, inv, title, tools, outProjection, anchor, eeProject, eeCollection);
      (r.Ok? <==> Toolchain(tools, aoi, anchor).Ok? && Products(inv).Ok?) &&
      (r.Err? ==> r.error == (if Toolchain(tools, aoi, anchor).Err? then Toolchain(tools, aoi, anchor).error
                              else Products(inv).error)) &&
      (r.Ok? ==>
        r.value.name == title && r.value.orderType == "partial" &&
        r.value.products == Products(inv).value &&
        (r.value.delivery.Some? <==> Truthy(eeProject) && Truthy(eeCollection)) &&
        (r.value.delivery.Some? ==> r.value.delivery.value == GoogleEarthEngine(eeProject.value, eeCollection.value)))
  {
  }

  /** The toolchain never holds a reprojection. */
  lemma ToolchainWithoutReproject(tools: seq<string>, aoi: Option<Geometry>, anchor: Option<string>)
    requires Toolchain(tools, aoi, anchor).Ok?
    ensures forall d :: d in Toolchain(tools, aoi, anchor).value ==> !d.Reproject?
  {
    ToolchainMembers(tools, aoi, anchor);
  }

  /** The request's tools are the toolchain, followed by a cubic
      reprojection exactly when the projection is not WGS 84. */
  lemma OrderRequestTools(aoi: Option<Geometry>, inv: seq<Record>, title: string, tools: seq<string>,
                          outProjection: string, anchor: Option<string>,
                          eeProject: Option<string>, eeCollection: Option<string>)
    requires OrderRequestFor(aoi, inv, title, tools, outProjection, anchor, eeProject, eeCollection).Ok?
    ensures var r := OrderRequestFor(aoi, inv, title, tools, outProjection, anchor, eeProject, eeCollection).value;
      var t := Toolchain(tools, aoi, anchor).value;
      |r.tools| == |t| + (if outProjection != Wgs84 then 1 else 0) &&
      r.tools[..|t|] == t &&
      (Reproject(outProjection, "cubic") in r.tools <==> outProjection != Wgs84) &&
      (forall p, k :: Reproject(p, k) in r.tools ==> p == outProjection && k == "cubic" && p != Wgs84)
  {
    var t := Toolchain(tools, aoi, anchor).value;
    ToolchainWithoutReproject(tools, aoi, anchor);
    var r := t + ReprojectStep(outProjection);
    assert r[..|t|] == t;
    if outProjection == Wgs84 {
      assert r == t;
    }
  }

  // ----- the resubmit guard of place_order -----

  /** An order already on the server. */
  datatype ExistingOrder = ExistingOrder(name: string, state: string)

  /** The state of the first existing order with that name, or `no order yet`. */
  function FirstStateNamed(orders: seq<ExistingOrder>, title: string): string {
    if orders == [] then "no order yet"
    else if orders[0].name == title then orders[0].state
    else FirstStateNamed(orders[1..], title)
  }

  function Names(orders: seq<ExistingOrder>): seq<string> {
    seq(|orders|, i requires 0 <= i < |orders| => orders[i].name)
  }

  /** The check made before an order is placed. */
  function PlaceOrderGuard(orders: seq<ExistingOrder>, title: string, resubmit: bool): Outcome<Error> {
    if !resubmit && title in Names(orders) && FirstStateNamed(orders, title) in ["success", "partial"] then
      Fail(AlreadyOrdered(title))
    else Pass
  }

  lemma {:induction false} FirstStateNamedSpec(orders: seq<ExistingOrder>, title: string)
    ensures (forall i :: 0 <= i < |orders| ==> orders[i].name != title) ==> FirstStateNamed(orders, title) == "no order yet"
    ensures forall i :: 0 <= i < |orders| && orders[i].name == title &&
                        (forall j :: 0 <= j < i ==> orders[j].name != title) ==>
                        FirstStateNamed(orders, title) == orders[i].state
  {
    if orders != [] {
      FirstStateNamedSpec(orders[1..], title);
      forall i | 0 < i < |orders| && orders[i].name == title && (forall j :: 0 <= j < i ==> orders[j].name != title)
        ensures FirstStateNamed(orders, title) == orders[i].state
      {
        assert orders[0].name != title;
        assert orders[1..][i - 1] == orders[i];
        forall j | 0 <= j < i - 1 ensures orders[1..][j].name != title {
          assert orders[1..][j] == orders[j + 1];
        }
      }
      if forall i :: 0 <= i < |orders| ==> orders[i].name != title {
        forall i | 0 <= i < |orders[1..]| ensures orders[1..][i].name != title {
          assert orders[1..][i] == orders[i + 1];
        }
      }
    }
  }

  /** Placing is refused exactly when resubmission is off and the first
      existing order of that name succeeded (fully or partly); with no such
      order, or with resubmission on, it goes ahead. */
  lemma PlaceOrderGuardSpec(orders: seq<ExistingOrder>, title: string, resubmit: bool)
    ensures PlaceOrderGuard(orders, title, resubmit).Fail? <==>
      !resubmit &&
      exists i :: 0 <= i < |orders| && orders[i].name == title &&
        (forall j :: 0 <= j < i ==> orders[j].name != title) &&
        orders[i].state in ["success", "partial"]
    ensures PlaceOrderGuard(orders, title, resubmit).Fail? ==>
      PlaceOrderGuard(orders, title, resubmit).error == AlreadyOrdered(title)
  {
    FirstStateNamedSpec(orders, title);
    var names := Names(orders);
    if title in names {
      var k :| 0 <= k < |names| && names[k] == title;
      var i := FirstIndex(names, title);
      assert orders[i].name == title;
      assert forall j :: 0 <= j < i ==> orders[j].name != title by {
        assert forall j :: 0 <= j < i ==> names[j] == orders[j].name;
      }
    } else {
      assert forall i :: 0 <= i < |orders| ==> orders[i].name != title by {
        assert forall i :: 0 <= i < |orders| ==> names[i] == orders[i].name;
      }
    }
  }
}
