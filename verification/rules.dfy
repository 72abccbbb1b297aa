/** The field-selection rules of `createProduct` and `updateProduct`, as pure
    functions of the request data. The service's methods are proved against
    `Draft` (the product `createProduct` builds before validating) and `Merge`
    (the product `updateProduct` leaves behind). */
module Rules {
  import opened Input
  import opened Results
  import opened Entity

  const DescriptionError := "Description must be a string or null"
  const ValidationError := "Validation errors"

  /** `field` holds the string under `key` when there is one, and `default`
      in every other case: key absent, null, a number, a list, ... */
  predicate TakesString(data: Data, key: string, field: Option<string>, default: Option<string>)
  {
    if key in data && data[key].JString? then field == Some(data[key].s) else field == default
  }

  /** `field` is what the description guard makes of the data: the string when
      `description` holds one, null when it holds an explicit null, and
      `default` when the key is absent or holds any other kind of value. */
  predicate TakesDescription(data: Data, field: Option<string>, default: Option<string>)
  {
    if "description" in data && data["description"].JString? then field == Some(data["description"].s)
    else if "description" in data && data["description"].JNull? then field == None
    else field == default
  }

  /** The guard `isset($data[$key]) && is_string($data[$key])` used for
      `name` and `price`: the string to pass to the setter, if any. Since a
      string is never null, the `isset` half adds nothing beyond presence. */
  function StringField(data: Data, key: string): (r: Option<string>)
    ensures r.Some? <==> key in data && data[key].JString?
    ensures TakesString(data, key, r, None)
  {
    if IsSet(data, key) && IsString(data[key]) then Some(data[key].s) else None
  }

  /** The guard `array_key_exists('description', $data) && (is_string(...) || ... === null)`:
      `Some(d)` when the guard passes, with `d` the (nullable) value to pass
      to `setDescription`; `None` when it fails. */
  function DescriptionField(data: Data): (r: Option<Option<string>>)
    ensures r.Some? <==> "description" in data && (data["description"].JString? || data["description"].JNull?)
    ensures r.Some? ==> TakesDescription(data, r.value, None)
  {
    if KeyExists(data, "description") && (IsString(data["description"]) || IsNull(data["description"])) then
      Some(if IsString(data["description"]) then Some(data["description"].s) else None)
    else
      None
  }

  /** The product `createProduct` builds from `data` before it validates,
      or the description error that stops it first. */
  function Draft(data: Data): (r: Result<ProductData>)
    // a missing description key, or one that is neither a string nor null, is refused
    ensures r.Err? <==> !("description" in data && (data["description"].JString? || data["description"].JNull?))
    ensures r.Err? ==> r.error == DescriptionError
    // otherwise every field comes from the data or keeps the new entity's null
    ensures r.Ok? ==> r.value.id == None
    ensures r.Ok? ==> TakesString(data, "name", r.value.name, None)
    ensures r.Ok? ==> TakesDescription(data, r.value.description, None)
    ensures r.Ok? ==> TakesString(data, "price", r.value.price, None)
  {
    match DescriptionField(data)
    case None => Err(DescriptionError)
    case Some(d) => Ok(Blank.(name := StringField(data, "name"), description := d, price := StringField(data, "price")))
  }

  /** The partial merge `updateProduct` performs on an existing product:
      a field changes only when its key holds a value the guard accepts. */
  function Merge(p: ProductData, data: Data): (r: ProductData)
    ensures r.id == p.id
    ensures TakesString(data, "name", r.name, p.name)
    ensures TakesDescription(data, r.description, p.description)
    ensures TakesString(data, "price", r.price, p.price)
  {
    p.(name := StringField(data, "name").OrElse(p.name),
       description := match DescriptionField(data) { case Some(d) => d case None => p.description },
       price := StringField(data, "price").OrElse(p.price))
  }

  /** Keys the service does not look at, and absent keys, change nothing. */
  lemma MergeIgnoresAbsentKeys(p: ProductData, data: Data)
    requires "name" !in data && "description" !in data && "price" !in data
    ensures Merge(p, data) == p
  {
  }

  /** Null `name` and `price` are skipped by the update, a null `description`
      clears the field, and a description of any other non-string kind is
      silently ignored (where `createProduct` would refuse it). Each rule
      holds on its own key, whatever the other keys hold. */
  lemma MergeNulls(p: ProductData, data: Data)
    ensures "name" in data && data["name"].JNull? ==> Merge(p, data).name == p.name
    ensures "price" in data && data["price"].JNull? ==> Merge(p, data).price == p.price
    ensures "description" in data && data["description"].JNull? ==> Merge(p, data).description == None
    ensures "description" in data && !data["description"].JString? && !data["description"].JNull? ==>
      Merge(p, data).description == p.description && Draft(data).Err?
  {
  }

  /** Applying the same update twice is the same as applying it once. */
  lemma MergeIdempotent(p: ProductData, data: Data)
    ensures Merge(Merge(p, data), data) == Merge(p, data)
  {
  }

  /** On data that `createProduct` accepts, it builds exactly what
      `updateProduct` would make of a blank entity. */
  lemma DraftIsMergeIntoBlank(data: Data)
    requires Draft(data).Ok?
    ensures Draft(data).value == Merge(Blank, data)
  {
  }
}
