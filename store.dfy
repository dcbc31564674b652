/** The in-memory product table of the service and its six handlers. The
    table is one shared list that the handlers read and change in place. */
module ProductStore {
  import opened Products
  import opened Filtering
  import opened Table
  import opened Seed

  class Store {
    var products: seq<Product>

    /** The invariant every handler keeps: ids are unique. */
    ghost predicate Valid()
      reads this
    {
      UniqueIds(products)
    }

    /** The table as the service starts: the seeded records. */
    constructor ()
      ensures products == SeedTable()
      ensures Valid()
    {
      products := SeedTable();
      SeedWellFormed();
    }

    /** Listing with the optional name and category filters; it only reads
        the table. */
    function List(nombre: Option<string>, categoria: Option<string>): (r: seq<Product>)
      reads this
      ensures SubsequenceOf(r, products)
      ensures forall p :: p in r <==> p in products && Selected(p, nombre, categoria)
      ensures !Active(nombre) && !Active(categoria) ==> r == products
    {
      ListProductsSpec(products, nombre, categoria);
      ListProducts(products, nombre, categoria)
    }

    /** The scan for the first record with the id. */
    method Locate(id: int) returns (r: Option<nat>)
      ensures r == IndexOf(products, id)
    {
      var i := 0;
      while i < |products|
        invariant 0 <= i <= |products|
        invariant forall j :: 0 <= j < i ==> products[j].id != id
      {
        if products[i].id == id {
          return Some(i);
        }
        i := i + 1;
      }
      return None;
    }

    /** Lookup by id: the first record with the id, or not-found. */
    method Get(id: int) returns (r: Lookup)
      ensures r == Find(products, id)
      ensures r.Found? ==> r.product.id == id && r.product in products
      ensures r.NotFound? <==> forall p :: p in products ==> p.id != id
    {
      var i := Locate(id);
      match i
      case Some(k) => r := Found(products[k]);
      case None => r := NotFound;
    }

    /** One more than the largest id of the table, or 1 when it is empty. */
    method NewId() returns (n: int)
      ensures n == NextId(products)
      ensures forall p :: p in products ==> p.id < n
    {
      if |products| == 0 {
        return 1;
      }
      var m := products[0].id;
      var i := 1;
      while i < |products|
        invariant 1 <= i <= |products|
        invariant m == MaxId(products[..i])
      {
        assert products[..i + 1][..i] == products[..i];
        if products[i].id > m {
          m := products[i].id;
        }
        i := i + 1;
      }
      assert products[..i] == products;
      return m + 1;
    }

    /** Create: the record gets a fresh id and is appended at the end. */
    method Create(input: ProductInput) returns (p: Product)
      modifies this
      ensures p == WithId(input, NextId(old(products)))
      ensures products == Appended(old(products), input)
      ensures old(Valid()) ==> Valid()
    {
      var id := NewId();
      p := WithId(input, id);
      products := products + [p];
      if old(Valid()) {
        AppendedKeepsUnique(old(products), input);
      }
    }

    /** Full replace: the four data fields of the record with the id are
        overwritten; the answer is the updated record, or not-found. */
    method Replace(id: int, input: ProductInput) returns (r: Lookup)
      modifies this
      ensures products == Replaced(old(products), id, input)
      ensures r == Find(products, id)
      ensures r.NotFound? <==> Find(old(products), id).NotFound?
      ensures old(Valid()) ==> Valid()
    {
      var i := Locate(id);
      FindAfterUpdate(products, id, (p: Product) => WithId(input, p.id));
      if old(Valid()) {
        ReplacedKeepsUnique(products, id, input);
      }
      match i
      case None =>
        r := NotFound;
      case Some(k) =>
        products := products[k := WithId(input, products[k].id)];
        r := Found(products[k]);
    }

    /** Partial update: only the supplied fields of the record with the id
        are overwritten; the answer is the updated record, or not-found. */
    method Patch(id: int, patch: PartialProduct) returns (r: Lookup)
      modifies this
      ensures products == Patched(old(products), id, patch)
      ensures r == Find(products, id)
      ensures r.NotFound? <==> Find(old(products), id).NotFound?
      ensures old(Valid()) ==> Valid()
    {
      var i := Locate(id);
      FindAfterUpdate(products, id, (p: Product) => ApplyPatch(p, patch));
      if old(Valid()) {
        PatchedKeepsUnique(products, id, patch);
      }
      match i
      case None =>
        r := NotFound;
      case Some(k) =>
        products := products[k := ApplyPatch(products[k], patch)];
        r := Found(products[k]);
    }

    /** Delete: the first record with the id is removed; the answer says
        whether there was one. */
    method Delete(id: int) returns (removed: bool)
      modifies this
      ensures products == Removed(old(products), id)
      ensures removed <==> Find(old(products), id).Found?
      ensures old(Valid()) ==> Valid()
    {
      var i := Locate(id);
      if old(Valid()) {
        RemovedKeepsUnique(products, id);
      }
      match i
      case None =>
        removed := false;
      case Some(k) =>
        products := products[..k] + products[k + 1..];
        removed := true;
    }
  }
}
