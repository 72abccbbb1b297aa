/** `ProductService`: creating, reading, updating and deleting products over
    a store of flushed rows, with the entity's validator injected at
    construction. */
module Service {
  import opened Input
  import opened Results
  import opened Entity
  import opened Rules

  /** Every stored row carries, as its id, the key it is stored under. */
  predicate KeyedById(rows: map<int, ProductData>)
  {
    forall i :: i in rows ==> rows[i].id == Some(i)
  }

  /** The rows whose ids lie in [lo, hi), in ascending id order. */
  function Listing(rows: map<int, ProductData>, lo: int, hi: int): (r: seq<ProductData>)
    requires KeyedById(rows)
    ensures forall k :: 0 <= k < |r| ==>
      r[k].id.Some? && lo <= r[k].id.value < hi && r[k].id.value in rows && rows[r[k].id.value] == r[k]
    ensures forall i :: lo <= i < hi && i in rows ==> rows[i] in r
    ensures forall j, k :: 0 <= j < k < |r| ==> r[j].id.value < r[k].id.value
    decreases hi - lo
  {
    if lo >= hi then []
    else if lo in rows then [rows[lo]] + Listing(rows, lo + 1, hi)
    else Listing(rows, lo + 1, hi)
  }

  /** Storing a row under a key above every listed one appends it to the listing. */
  lemma {:induction false} ListingAppend(rows: map<int, ProductData>, lo: int, hi: int, p: ProductData)
    requires KeyedById(rows) && hi !in rows && p.id == Some(hi) && lo <= hi
    ensures KeyedById(rows[hi := p])
    ensures Listing(rows[hi := p], lo, hi + 1) == Listing(rows, lo, hi) + [p]
    decreases hi - lo
  {
    var rows' := rows[hi := p];
    if lo < hi {
      ListingAppend(rows, lo + 1, hi, p);
      assert lo in rows' <==> lo in rows;
    } else {
      assert Listing(rows', hi + 1, hi + 1) == [];
    }
  }

  /** What `flush` writes for a product object: its fields, if it is the
      entity of a stored row; nothing for an entity the store does not hold. */
  function Flushed(rows: map<int, ProductData>, p: ProductData): map<int, ProductData>
  {
    if p.id.Some? && p.id.value in rows then rows[p.id.value := p] else rows
  }

  class ProductService {
    /** The flushed table: product id to the stored row. */
    var rows: map<int, ProductData>
    /** The next id the store's generator hands out; ids start at 1. */
    var nextId: int
    /** The injected validator: true when the entity's constraints report no violation. */
    const validate: ProductData -> bool

    /** Every stored row is keyed by its own id, and every id ever handed out
        is below `nextId`, so a fresh id is never in use. */
    ghost predicate Valid()
      reads this
    {
      && 1 <= nextId
      && KeyedById(rows)
      && forall i :: i in rows ==> 1 <= i < nextId
    }

    /** A service over a table that may already hold rows: `rows0` is its
        content and `nextId0` the id its generator hands out next. */
    constructor (rows0: map<int, ProductData>, nextId0: int, validate: ProductData -> bool)
      requires KeyedById(rows0) && 1 <= nextId0
      requires forall i :: i in rows0 ==> 1 <= i < nextId0
      ensures Valid()
      ensures rows == rows0 && nextId == nextId0 && this.validate == validate
    {
      this.validate := validate;
      rows := rows0;
      nextId := nextId0;
    }

    /** `getProduct` as a value: the stored row for `id`, or none. */
    function Find(id: int): (r: Option<ProductData>)
      reads this
      requires Valid()
      ensures r.Some? <==> id in rows
      ensures r.Some? ==> r.value.id == Some(id) && r.value == rows[id]
    {
      if id in rows then Some(rows[id]) else None
    }

    /** `getAllProducts`: every stored row exactly once, in ascending id order. */
    function AllProducts(): (r: seq<ProductData>)
      reads this
      requires Valid()
      ensures forall p :: p in r <==> p in rows.Values
      ensures forall j, k :: 0 <= j < k < |r| ==> r[j].id.Some? && r[k].id.Some? && r[j].id.value < r[k].id.value
    {
      Listing(rows, 1, nextId)
    }

    /** `getProduct`: an entity object loaded from the row with this id, or null. */
    method GetProduct(id: int) returns (p: Product?)
      requires Valid()
      ensures p == null <==> Find(id).None?
      ensures p != null ==> fresh(p) && Find(id) == Some(p.Snapshot())
    {
      if id !in rows {
        return null;
      }
      var row := rows[id];
      p := new Product();
      p.id := row.id;
      if row.name.Some? { p.SetName(row.name.value); }
      p.SetDescription(row.description);
      if row.price.Some? { p.SetPrice(row.price.value); }
    }

    /** `createProduct`: build a product from `data` through the setters,
        refuse a bad description, validate, then persist and flush it under
        a fresh id. */
    method CreateProduct(data: Data) returns (r: Result<Product>)
      requires Valid()
      modifies this
      ensures Valid()
      // the description check comes first, whatever the validator would say
      ensures Draft(data).Err? ==> r == Err(DescriptionError)
      ensures Draft(data).Ok? && !validate(Draft(data).value) ==> r == Err(ValidationError)
      // a refused product leaves the store exactly as it was
      ensures r.Err? ==> rows == old(rows) && nextId == old(nextId)
      // an accepted product is stored under an id that was not in use
      ensures Draft(data).Ok? && validate(Draft(data).value) ==>
        && r.Ok? && fresh(r.value)
        && r.value.Snapshot() == Draft(data).value.(id := Some(old(nextId)))
        && old(nextId) !in old(rows)
        && rows == old(rows)[old(nextId) := r.value.Snapshot()]
        && nextId == old(nextId) + 1
        && AllProducts() == old(AllProducts()) + [r.value.Snapshot()]
    {
      var product := new Product();

      if IsSet(data, "name") && IsString(data["name"]) {
        product.SetName(data["name"].s);
      }

      if KeyExists(data, "description") && (IsString(data["description"]) || IsNull(data["description"])) {
        product.SetDescription(if IsString(data["description"]) then Some(data["description"].s) else None);
      } else {
        return Err(DescriptionError);
      }

      if IsSet(data, "price") && IsString(data["price"]) {
        product.SetPrice(data["price"].s);
      }
      assert product.Snapshot() == Draft(data).value;

      if !validate(product.Snapshot()) {
        return Err(ValidationError);
      }

      // persist + flush: the store's generator assigns the next id
      product.id := Some(nextId);
      ListingAppend(rows, 1, nextId, product.Snapshot());
      rows := rows[nextId := product.Snapshot()];
      nextId := nextId + 1;
      r := Ok(product);
    }

    /** `updateProduct`: merge `data` into the product object, validate it,
        and flush it only if it is valid. The object is changed either way. */
    method UpdateProduct(product: Product, data: Data) returns (r: Result<Product>)
      requires Valid()
      modifies this, product
      ensures Valid()
      ensures product.Snapshot() == Merge(old(product.Snapshot()), data)
      ensures r.Ok? <==> validate(product.Snapshot())
      ensures r.Err? ==> r.error == ValidationError && rows == old(rows)
      ensures r.Ok? ==> r.value == product && rows == Flushed(old(rows), product.Snapshot())
      ensures nextId == old(nextId)
    {
      if IsSet(data, "name") && IsString(data["name"]) {
        product.SetName(data["name"].s);
      }

      if KeyExists(data, "description") && (IsString(data["description"]) || IsNull(data["description"])) {
        product.SetDescription(if IsString(data["description"]) then Some(data["description"].s) else None);
      }

      if IsSet(data, "price") && IsString(data["price"]) {
        product.SetPrice(data["price"].s);
      }

      if !validate(product.Snapshot()) {
        return Err(ValidationError);
      }

      rows := Flushed(rows, product.Snapshot());
      r := Ok(product);
    }

    /** `deleteProduct`: remove the product's row; every other row stays. */
    method DeleteProduct(product: Product)
      requires Valid()
      modifies this
      ensures Valid()
      ensures rows == if product.id.Some? then old(rows) - {product.id.value} else old(rows)
      ensures product.id.Some? ==> Find(product.id.value) == None
      ensures nextId == old(nextId)
    {
      if product.id.Some? {
        rows := rows - {product.id.value};
      }
    }
  }

  /** The life of one product through the API: create, read, partial update,
      delete, read again. The validator here asks for a non-empty name. */
  method Scenario()
  {
    var service := new ProductService(map[], 1, (p: ProductData) => p.name.Some? && |p.name.value| > 0);
    var created := service.CreateProduct(map[
      "name" := JString("Test Product"),
      "description" := JString("desc"),
      "price" := JString("10.99")]);
    assert Draft(map["name" := JString("Test Product"), "description" := JString("desc"), "price" := JString("10.99")]).Ok?;
    assert created.Ok?;
    var id := created.value.id.value;
    assert id == 1;

    var loaded := service.GetProduct(id);
    assert loaded != null && loaded.Snapshot() == created.value.Snapshot();

    var updated := service.UpdateProduct(loaded, map["name" := JString("Updated")]);
    assert loaded.Snapshot() == ProductData(Some(1), Some("Updated"), Some("desc"), Some("10.99"));
    assert updated.Ok?;
    assert service.Find(id) == Some(loaded.Snapshot());

    service.DeleteProduct(loaded);
    var gone := service.GetProduct(id);
    assert gone == null;

    var refused := service.CreateProduct(map["name" := JString("No description")]);
    assert refused == Err(DescriptionError);
  }
}
