/** A model of the product collection of an inventory manager: an ordered list of
    product records with id assignment, in-place update, deletion by filtering and
    lookup. The pure parts (id computation, find, findIndex, filter) are functions
    over `seq<Product>`; the store itself is a class whose methods change its list. */
module ProductStore {

  datatype Option<T> = None | Some(value: T)

  /** One product record. `price` and `quantity` are carried along unchanged by
      every operation here. */
  datatype Product = Product(id: int, name: string, category: string, price: real, quantity: real)

  /** What a caller hands to `addProduct`: a product without its id. */
  datatype Draft = Draft(name: string, category: string, price: real, quantity: real)
  {
    /** The record `{ ...draft, id }`. */
    function WithId(id: int): Product {
      Product(id, name, category, price, quantity)
    }
  }

  // ---------------------------------------------------------------------------
  // Predicates over a product list

  /** Some record of `s` carries `id`. */
  predicate HasId(s: seq<Product>, id: int) {
    exists i :: 0 <= i < |s| && s[i].id == id
  }

  /** The collection invariant: no two records share an id. */
  predicate ValidIds(s: seq<Product>) {
    forall i, j :: 0 <= i < j < |s| ==> s[i].id != s[j].id
  }

  /** Every id is at least 1, as for every list built by additions from the empty one. */
  predicate PositiveIds(s: seq<Product>) {
    forall i :: 0 <= i < |s| ==> s[i].id >= 1
  }

  /** `i` is the first position of `s` whose record carries `id`. */
  predicate IsFirstMatch(s: seq<Product>, id: int, i: int) {
    0 <= i < |s| && s[i].id == id && forall j :: 0 <= j < i ==> s[j].id != id
  }

  lemma FirstMatchUnique(s: seq<Product>, id: int, i: int, k: int)
    requires IsFirstMatch(s, id, i) && IsFirstMatch(s, id, k)
    ensures i == k
  {
  }

  // ---------------------------------------------------------------------------
  // Id assignment: `Math.max(...products.map(p => p.id)) + 1`, or 1 on an empty list

  /** `products.map(p => p.id)` */
  function Ids(s: seq<Product>): seq<int> {
    seq(|s|, i requires 0 <= i < |s| => s[i].id)
  }

  /** `Math.max(...xs)` on a non-empty list of numbers. */
  function MaxOf(xs: seq<int>): (m: int)
    requires |xs| > 0
    ensures m in xs
    ensures forall k :: 0 <= k < |xs| ==> xs[k] <= m
  {
    if |xs| == 1 then xs[0]
    else
      var rest := MaxOf(xs[1..]);
      if xs[0] >= rest then xs[0] else rest
  }

  /** The id `addProduct` gives the next record: strictly above every id present,
      and exactly one above the largest one (1 when the list is empty). */
  function NextId(s: seq<Product>): (r: int)
    ensures |s| == 0 ==> r == 1
    ensures forall j :: 0 <= j < |s| ==> s[j].id < r
    ensures |s| > 0 ==> HasId(s, r - 1)
  {
    if |s| > 0 then
      var m := MaxOf(Ids(s));
      assert forall j :: 0 <= j < |s| ==> Ids(s)[j] == s[j].id;
      ghost var k :| 0 <= k < |s| && Ids(s)[k] == m;
      assert s[k].id == m;
      m + 1
    else 1
  }

  /** The list after `addProduct(d)`: the old records in order, then `d` with a fresh id. */
  function Added(s: seq<Product>, d: Draft): (r: seq<Product>)
    ensures |r| == |s| + 1 && r[..|s|] == s
    ensures r[|s|] == d.WithId(NextId(s))
    ensures forall j :: 0 <= j < |s| ==> s[j].id < r[|s|].id
    ensures !HasId(s, r[|s|].id)
  {
    s + [d.WithId(NextId(s))]
  }

  // ---------------------------------------------------------------------------
  // Lookup: `findIndex` and `find`

  /** `products.findIndex(p => p.id === id)`: the first matching position, or -1. */
  function FindIndex(s: seq<Product>, id: int): (r: int)
    ensures -1 <= r < |s|
    ensures r == -1 <==> !HasId(s, id)
    ensures r != -1 ==> IsFirstMatch(s, id, r)
  {
    if |s| == 0 then -1
    else if s[0].id == id then 0
    else
      var k := FindIndex(s[1..], id);
      assert forall j :: 1 <= j < |s| ==> s[j] == s[1..][j - 1];
      if k == -1 then -1 else k + 1
  }

  /** `products.find(p => p.id === id)`: the first matching record, or none. */
  function Find(s: seq<Product>, id: int): (r: Option<Product>)
    ensures r.None? <==> !HasId(s, id)
    ensures r.Some? ==> exists i :: IsFirstMatch(s, id, i) && s[i] == r.value
  {
    if |s| == 0 then None
    else if s[0].id == id then
      assert IsFirstMatch(s, id, 0);
      Some(s[0])
    else
      var r := Find(s[1..], id);
      assert forall j :: 1 <= j < |s| ==> s[j] == s[1..][j - 1];
      assert r.Some? ==> forall i :: IsFirstMatch(s[1..], id, i) ==> IsFirstMatch(s, id, i + 1);
      r
  }

  /** `find` and `findIndex` agree: the record found is the one at the index found. */
  lemma {:induction false} FindAgreesWithFindIndex(s: seq<Product>, id: int)
    ensures Find(s, id) == if FindIndex(s, id) == -1 then None else Some(s[FindIndex(s, id)])
  {
    if |s| > 0 && s[0].id != id {
      FindAgreesWithFindIndex(s[1..], id);
    }
  }

  // ---------------------------------------------------------------------------
  // Update: replace the first record with the same id, in place

  /** The list after `updateProduct(p)`. */
  function Updated(s: seq<Product>, p: Product): (r: seq<Product>)
    ensures |r| == |s|
    ensures forall j :: 0 <= j < |s| ==> r[j].id == s[j].id
    ensures !HasId(s, p.id) ==> r == s
    ensures forall i :: IsFirstMatch(s, p.id, i) ==> r == s[i := p]
  {
    var index := FindIndex(s, p.id);
    if index != -1 then
      assert forall i :: IsFirstMatch(s, p.id, i) ==> i == index;
      s[index := p]
    else s
  }

  /** After an update of a present id, looking the id up yields exactly the record
      passed in, even when several records share that id. */
  lemma FindAfterUpdate(s: seq<Product>, p: Product)
    requires HasId(s, p.id)
    ensures Find(Updated(s, p), p.id) == Some(p)
  {
    var i := FindIndex(s, p.id);
    var r := Updated(s, p);
    assert r == s[i := p];
    assert IsFirstMatch(r, p.id, i);
    var f := Find(r, p.id);
    var k :| IsFirstMatch(r, p.id, k) && r[k] == f.value;
    FirstMatchUnique(r, p.id, i, k);
  }

  lemma UpdatedKeepsValidIds(s: seq<Product>, p: Product)
    requires ValidIds(s)
    ensures ValidIds(Updated(s, p))
  {
  }

  // ---------------------------------------------------------------------------
  // Delete: `products.filter(p => p.id !== id)`

  /** The records of `s` whose id is not `x`, in their original order. */
  function Without(s: seq<Product>, x: int): (r: seq<Product>)
    ensures |r| <= |s|
    ensures forall j :: 0 <= j < |r| ==> r[j].id != x && r[j] in s
    ensures forall j :: 0 <= j < |s| && s[j].id != x ==> s[j] in r
    ensures !HasId(s, x) ==> r == s
  {
    if |s| == 0 then []
    else
      var rest := Without(s[1..], x);
      assert forall j :: 1 <= j < |s| ==> s[j] == s[1..][j - 1];
      assert forall j :: 0 <= j < |s[1..]| ==> s[1..][j] == s[j + 1];
      if s[0].id != x then [s[0]] + rest else rest
  }

  /** Filtering distributes over concatenation: deletion keeps relative order. */
  lemma {:induction false} WithoutConcat(a: seq<Product>, b: seq<Product>, x: int)
    ensures Without(a + b, x) == Without(a, x) + Without(b, x)
  {
    if |a| == 0 {
      assert a + b == b;
    } else {
      assert (a + b)[0] == a[0];
      assert (a + b)[1..] == a[1..] + b;
      WithoutConcat(a[1..], b, x);
    }
  }

  /** Under unique ids, the id at position `i` occurs nowhere else. */
  lemma OnlyMatch(s: seq<Product>, i: int)
    requires ValidIds(s) && 0 <= i < |s|
    ensures !HasId(s[..i], s[i].id) && !HasId(s[i + 1..], s[i].id)
  {
    var a, b := s[..i], s[i + 1..];
    forall j | 0 <= j < |a| ensures a[j].id != s[i].id {
      assert a[j] == s[j];
    }
    forall j | 0 <= j < |b| ensures b[j].id != s[i].id {
      assert b[j] == s[i + 1 + j];
    }
  }

  /** Deleting the id of a one-record list empties it. */
  lemma WithoutOwn(y: Product)
    ensures Without([y], y.id) == []
  {
    assert [y][1..] == [];
  }

  /** Deleting an id held by exactly one record, between two runs that do not hold
      it, leaves the two runs joined. */
  lemma WithoutSplit(a: seq<Product>, y: Product, b: seq<Product>)
    requires !HasId(a, y.id) && !HasId(b, y.id)
    ensures Without(a + [y] + b, y.id) == a + b
  {
    var x := y.id;
    calc {
      Without(a + [y] + b, x);
      { WithoutConcat(a + [y], b, x); }
      Without(a + [y], x) + Without(b, x);
      { WithoutConcat(a, [y], x); }
      Without(a, x) + Without([y], x) + Without(b, x);
      { WithoutOwn(y); }
      a + b;
    }
  }

  /** Under unique ids, deleting the id of position `i` removes exactly that record,
      and the list shrinks by one. */
  lemma WithoutAt(s: seq<Product>, i: int)
    requires ValidIds(s) && 0 <= i < |s|
    ensures Without(s, s[i].id) == s[..i] + s[i + 1..]
    ensures |Without(s, s[i].id)| == |s| - 1
  {
    OnlyMatch(s, i);
    assert s == s[..i] + [s[i]] + s[i + 1..];
    WithoutSplit(s[..i], s[i], s[i + 1..]);
  }

  lemma {:induction false} WithoutKeepsValidIds(s: seq<Product>, x: int)
    requires ValidIds(s)
    ensures ValidIds(Without(s, x))
  {
    if |s| > 0 {
      var rest := Without(s[1..], x);
      WithoutKeepsValidIds(s[1..], x);
      if s[0].id != x {
        assert forall j :: 0 <= j < |rest| ==> rest[j] in s[1..];
        assert forall j :: 0 <= j < |rest| ==> rest[j].id != s[0].id;
        assert Without(s, x) == [s[0]] + rest;
      }
    }
  }

  // ---------------------------------------------------------------------------
  // Additions

  lemma AddedKeepsValidIds(s: seq<Product>, d: Draft)
    requires ValidIds(s)
    ensures ValidIds(Added(s, d))
  {
    var r := Added(s, d);
    forall i, j | 0 <= i < j < |r|
      ensures r[i].id != r[j].id
    {
      if j < |s| {
        assert r[i] == s[i] && r[j] == s[j];
      } else {
        assert r[i] == r[..|s|][i] == s[i];
      }
    }
  }

  /** After an addition, the new id finds the new record. */
  lemma FindAfterAdd(s: seq<Product>, d: Draft)
    ensures Find(Added(s, d), NextId(s)) == Some(d.WithId(NextId(s)))
  {
    var r := Added(s, d);
    var id := NextId(s);
    assert r[|s|] == d.WithId(id);
    assert IsFirstMatch(r, id, |s|) by {
      forall j | 0 <= j < |s| ensures r[j].id != id {
        assert r[j] == r[..|s|][j];
      }
    }
    var k :| IsFirstMatch(r, id, k) && r[k] == Find(r, id).value;
    FirstMatchUnique(r, id, |s|, k);
  }

  /** The list produced by adding the drafts `ds` to `s` one after another. */
  function AddAll(s: seq<Product>, ds: seq<Draft>): (r: seq<Product>)
    ensures |r| == |s| + |ds|
  {
    if |ds| == 0 then s else Added(AddAll(s, ds[..|ds| - 1]), ds[|ds| - 1])
  }

  /** A list numbered 1, 2, ..., n in order gets n + 1 as its next id. */
  lemma NextIdOfNumbered(s: seq<Product>)
    requires forall k :: 0 <= k < |s| ==> s[k].id == k + 1
    ensures NextId(s) == |s| + 1
  {
    var m := NextId(s);
    if |s| > 0 {
      assert s[|s| - 1].id == |s|;
      var j :| 0 <= j < |s| && s[j].id == m - 1;
    }
  }

  /** Starting from the empty list, successive additions number the records
      1, 2, 3, ... in order. */
  lemma {:induction false} AddAllFromEmpty(ds: seq<Draft>)
    ensures forall k :: 0 <= k < |ds| ==> AddAll([], ds)[k] == ds[k].WithId(k + 1)
  {
    if |ds| > 0 {
      var n := |ds| - 1;
      var prev := AddAll([], ds[..n]);
      AddAllFromEmpty(ds[..n]);
      assert forall k :: 0 <= k < n ==> prev[k] == ds[..n][k].WithId(k + 1);
      NextIdOfNumbered(prev);
      var r := AddAll([], ds);
      assert r == Added(prev, ds[n]);
      forall k | 0 <= k < |ds| ensures r[k] == ds[k].WithId(k + 1) {
        if k < n {
          assert r[k] == r[..n][k] == prev[k];
        }
      }
    }
  }

  lemma AddedKeepsPositiveIds(s: seq<Product>, d: Draft)
    requires PositiveIds(s)
    ensures PositiveIds(Added(s, d))
  {
    var r := Added(s, d);
    assert forall j :: 0 <= j < |s| ==> r[j] == r[..|s|][j];
    if |s| > 0 {
      assert s[0].id >= 1;
    }
  }

  // ---------------------------------------------------------------------------
  // Deletion followed by addition

  /** What deleting `x` does to the next id. Deleting any id other than the largest
      leaves the next id as it was; deleting the largest one lowers it to at most
      the deleted id, so that id may be handed out again. */
  lemma NextIdAfterDelete(s: seq<Product>, x: int)
    requires PositiveIds(s)
    ensures NextId(Without(s, x)) <= NextId(s)
    ensures NextId(Without(s, x)) == NextId(s) <==> !(|s| > 0 && x == NextId(s) - 1)
    ensures |s| > 0 && x == NextId(s) - 1 ==> NextId(Without(s, x)) <= x
  {
    var w := Without(s, x);
    var n := NextId(s);
    assert forall j :: 0 <= j < |w| ==> w[j] in s;
    assert forall j :: 0 <= j < |w| ==> w[j].id < n;
    if |s| > 0 {
      assert s[0].id >= 1;
    }
    if |w| > 0 {
      var j :| 0 <= j < |w| && w[j].id == NextId(w) - 1;
      assert w[j] in s;
    }
    if |s| > 0 && x != n - 1 {
      var j :| 0 <= j < |s| && s[j].id == n - 1;
      assert s[j] in w;
    }
  }

  // ---------------------------------------------------------------------------
  // The store

  /** The product store. `products` is the live collection; `persisted` is the
      collection the backing storage slot decodes to. */
  class Store {
    var products: seq<Product>
    ghost var persisted: seq<Product>

    ghost predicate Valid()
      reads this
    {
      ValidIds(products)
    }

    /** Creation: the collection starts as whatever was decoded from storage. */
    constructor (loaded: seq<Product>)
      ensures products == loaded && persisted == loaded
    {
      products := loaded;
      persisted := loaded;
    }

    /** `loadProducts`: replace the collection wholesale by the decoded snapshot;
        the reassignment is written back. */
    method LoadProducts(loaded: seq<Product>)
      modifies this
      ensures products == loaded && persisted == products
    {
      products := loaded;
      persisted := products;
    }

    /** `addProduct`: append `d` under the next id, then write the list back. */
    method AddProduct(d: Draft)
      modifies this
      ensures products == old(products) + [d.WithId(NextId(old(products)))]
      ensures forall j :: 0 <= j < |old(products)| ==> old(products)[j].id < products[|products| - 1].id
      ensures persisted == products
      ensures old(Valid()) ==> Valid()
    {
      ghost var before := products;
      var nextId := if |products| > 0 then MaxOf(Ids(products)) + 1 else 1;
      products := products + [d.WithId(nextId)];
      persisted := products;
      assert products == Added(before, d);
      if ValidIds(before) {
        AddedKeepsValidIds(before, d);
      }
    }

    /** `updateProduct`: overwrite the first record with `p`'s id; no change (and
        no write) when there is none. */
    method UpdateProduct(p: Product)
      modifies this
      ensures products == Updated(old(products), p)
      ensures !HasId(old(products), p.id) ==> products == old(products) && persisted == old(persisted)
      ensures forall i :: IsFirstMatch(old(products), p.id, i) ==> products == old(products)[i := p] && persisted == products
      ensures old(Valid()) ==> Valid()
    {
      var index := FindIndex(products, p.id);
      if index != -1 {
        products := products[index := p];
        persisted := products;
      }
    }

    /** `deleteProduct`: keep the records whose id differs from `id`, then write the
        list back. */
    method DeleteProduct(id: int)
      modifies this
      ensures products == Without(old(products), id)
      ensures !HasId(old(products), id) ==> products == old(products)
      ensures old(Valid()) && HasId(old(products), id) ==>
        exists i :: 0 <= i < |old(products)| && old(products)[i].id == id && products == old(products)[..i] + old(products)[i + 1..]
      ensures persisted == products
      ensures old(Valid()) ==> Valid()
    {
      ghost var before := products;
      products := Without(products, id);
      persisted := products;
      if ValidIds(before) {
        WithoutKeepsValidIds(before, id);
        if HasId(before, id) {
          var i :| 0 <= i < |before| && before[i].id == id;
          WithoutAt(before, i);
        }
      }
    }

    /** `getById`: the first record carrying `id`, or none. */
    function GetById(id: int): (r: Option<Product>)
      reads this
      ensures r.None? <==> !HasId(products, id)
      ensures r.Some? ==> exists i :: IsFirstMatch(products, id, i) && products[i] == r.value
    {
      Find(products, id)
    }
  }

  /** A session from an empty store: additions are numbered 1 and 2; deleting 1
      leaves the next id at 3. */
  method SessionScenario()
  {
    var pen := Draft("Pen", "Office", 1.5, 10.0);
    var mug := Draft("Mug", "Kitchen", 5.0, 3.0);
    var cup := Draft("Cup", "Kitchen", 2.0, 7.0);
    var store := new Store([]);
    store.AddProduct(pen);
    assert store.products == [pen.WithId(1)];
    assert NextId(store.products) == 2;
    store.AddProduct(mug);
    store.DeleteProduct(1);
    assert store.products == [mug.WithId(2)];
    assert NextId(store.products) == 3;
    store.AddProduct(cup);
    assert store.products == [mug.WithId(2), cup.WithId(3)];
  }

  /** Deleting the record with the largest id lets the next addition reuse that id;
      updating an absent id changes nothing. */
  method ReuseScenario()
  {
    var mug := Product(2, "Mug", "Kitchen", 5.0, 3.0);
    var cup := Draft("Cup", "Kitchen", 2.0, 7.0);
    var store := new Store([mug, cup.WithId(3)]);
    store.DeleteProduct(3);
    assert store.products == [mug];
    assert NextId(store.products) == 3;
    store.AddProduct(cup);
    assert store.products == [mug, cup.WithId(3)];
    store.UpdateProduct(Product(7, "Box", "Office", 1.0, 1.0));
    assert store.products == [mug, cup.WithId(3)];
    var found := store.GetById(3);
    assert found == Some(cup.WithId(3));
  }
}
