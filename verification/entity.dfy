/** The `Product` entity as the service sees it: four nullable fields and
    their setters. The entity's own mapping and constraints are not part of
    this model; only what the service does with it is. */
module Entity {
  import opened Results

  /** The value of a product's fields at one moment: what a database row
      holds and what the validator inspects. */
  datatype ProductData = ProductData(
    id: Option<int>,
    name: Option<string>,
    description: Option<string>,
    price: Option<string>)

  /** A freshly constructed entity: every field is still null. */
  const Blank := ProductData(None, None, None, None)

  /** A product object, updated in place through its setters. */
  class Product {
    var id: Option<int>
    var name: Option<string>
    var description: Option<string>
    var price: Option<string>

    /** The current field values. */
    function Snapshot(): ProductData
      reads this
    {
      ProductData(id, name, description, price)
    }

    constructor ()
      ensures Snapshot() == Blank
    {
      id, name, description, price := None, None, None, None;
    }

    method SetName(name: string)
      modifies this
      ensures Snapshot() == old(Snapshot()).(name := Some(name))
    {
      this.name := Some(name);
    }

    /** Takes a nullable string: `setDescription(null)` clears the field. */
    method SetDescription(description: Option<string>)
      modifies this
      ensures Snapshot() == old(Snapshot()).(description := description)
    {
      this.description := description;
    }

    method SetPrice(price: string)
      modifies this
      ensures Snapshot() == old(Snapshot()).(price := Some(price))
    {
      this.price := Some(price);
    }
  }
}
