/**
 * The two read-only lookups of backend/src/index.ts: vehicle categories by
 * wheel count, and vehicles by category. The catalog is seeded once and never
 * changes, so both are plain equality filters over a sequence.
 */
module Catalog {
  import opened Wrappers

  datatype VehicleCategory = VehicleCategory(id: string, name: string, wheels: int)

  datatype Vehicle = Vehicle(id: string, model: string, categoryId: string)

  /**
   * `GET /api/vehicle-types?wheels=n`: the categories with exactly `wheels`
   * wheels, and no others. The store promises no order; the model keeps
   * the catalog's.
   */
  function VehicleTypes(categories: seq<VehicleCategory>, wheels: int): (r: seq<VehicleCategory>)
    ensures forall c :: c in r <==> c in categories && c.wheels == wheels
    ensures |r| <= |categories|
    ensures (forall c :: c in categories ==> c.wheels == wheels) ==> r == categories
  {
    if categories == [] then []
    else
      var rest := VehicleTypes(categories[1..], wheels);
      if categories[0].wheels == wheels then [categories[0]] + rest else rest
  }

  /** A vehicle passes the category filter; an absent `categoryId` filters nothing. */
  predicate InCategory(v: Vehicle, categoryId: Option<string>) {
    categoryId.None? || v.categoryId == categoryId.value
  }

  /**
   * `GET /api/vehicles?categoryId=c`: the vehicles that belong to category
   * `c`, and no others. Without the query parameter the filter is empty and
   * every vehicle is returned. The store promises no order; the model keeps
   * the catalog's.
   */
  function VehiclesInCategory(vehicles: seq<Vehicle>, categoryId: Option<string>): (r: seq<Vehicle>)
    ensures forall v :: v in r <==> v in vehicles && InCategory(v, categoryId)
    ensures |r| <= |vehicles|
    ensures (forall v :: v in vehicles ==> InCategory(v, categoryId)) ==> r == vehicles
    ensures categoryId.None? ==> r == vehicles
  {
    if vehicles == [] then []
    else
      var rest := VehiclesInCategory(vehicles[1..], categoryId);
      if InCategory(vehicles[0], categoryId) then [vehicles[0]] + rest else rest
  }

  /** Filtering is idempotent: asking the same question of an answer returns it unchanged. */
  lemma VehicleTypesIdempotent(categories: seq<VehicleCategory>, wheels: int)
    ensures VehicleTypes(VehicleTypes(categories, wheels), wheels) == VehicleTypes(categories, wheels)
  {
  }

  /** A filter over two catalog parts is the two filtered parts, one after the other. */
  lemma {:induction false} VehicleTypesAppend(a: seq<VehicleCategory>, b: seq<VehicleCategory>, wheels: int)
    ensures VehicleTypes(a + b, wheels) == VehicleTypes(a, wheels) + VehicleTypes(b, wheels)
  {
    if a == [] {
      assert a + b == b;
    } else {
      assert (a + b)[1..] == a[1..] + b;
      VehicleTypesAppend(a[1..], b, wheels);
    }
  }

  lemma {:induction false} VehiclesInCategoryAppend(a: seq<Vehicle>, b: seq<Vehicle>, categoryId: Option<string>)
    ensures VehiclesInCategory(a + b, categoryId) ==
            VehiclesInCategory(a, categoryId) + VehiclesInCategory(b, categoryId)
  {
    if a == [] {
      assert a + b == b;
    } else {
      assert (a + b)[1..] == a[1..] + b;
      VehiclesInCategoryAppend(a[1..], b, categoryId);
    }
  }
}
