# ProductService, modelled in Dafny

This project models the business logic of a small Symfony REST API for
product records. The modelled class is `ProductService`
(`src/Service/ProductService.php`). It builds a new product from a loosely
typed request array, merges a partial update into an existing product, and
orchestrates persistence: `persist`, `flush` and `remove` on an entity
manager, and `find` and `findAll` on a repository.

The model has four modules:

- `Input`: the decoded request body as a `map<string, Json>`, plus PHP's
  `isset`, `array_key_exists`, `is_string` and `=== null` on it.
  `name` and `price` take only a string; the `isset` adds nothing beside
  `is_string`, since a string is never null. `description` also accepts an
  explicit null, which `array_key_exists` lets reach its `=== null` test.
  On create, any other description value throws, while a name or price
  that fails its guard is silently skipped.
- `Entity`: the product entity's fields as a value (`ProductData`, with a
  nullable `Option` per field), and the `Product` object with the setters
  the service calls. `src/Entity/Product.php` is not part of this model.
  Its fields start as null, and its setters are modelled as plain
  assignments.
- `Rules`: the field-selection rules as pure functions. `Draft` is the
  product `createProduct` builds before validating, or its description
  error. `Merge` is the product `updateProduct` leaves behind.
- `Service`: the class `ProductService`. The store is the map of flushed
  rows (`rows`) plus the id generator's counter (`nextId`). The validator
  that the PHP constructor receives becomes a `const validate:
  ProductData -> bool`, given to the constructor. Exceptions become
  `Result` values that carry the exception's message. `CreateProduct` and
  `UpdateProduct` set fields step by step through the setters, as the
  source does, and are proved against `Draft` and `Merge`. `Scenario` is a
  client that follows one product through create, read, partial update,
  delete and read again. Its validator requires a non-empty name.

`updateProduct` (`src/Service/ProductService.php:86`) overwrites the
description only with a string or an explicit null and silently ignores
any other kind, which `createProduct` (lines 53-56) refuses; see
`Rules.MergeNulls`.

## Model

| member | source | states |
|---|---|---|
| `Rules.StringField` | src/Service/ProductService.php:49-51 | the `isset && is_string` guard for `name` and `price` passes exactly when the key holds a string, and yields that string; a null, absent or non-string value yields nothing |
| `Rules.DescriptionField` | src/Service/ProductService.php:53-54 | the `array_key_exists` guard with its string-or-null test passes exactly when the key is present with a string or an explicit null, and yields the string or null to store |
| `Rules.Draft` | src/Service/ProductService.php:47-61 | `createProduct` fails with 'Description must be a string or null' exactly when `description` is absent or neither a string nor null, whatever the other fields hold; otherwise id is null, name and price are the strings given or stay null, and a present null description is stored as null |
| `Rules.Merge` | src/Service/ProductService.php:82-92 | `updateProduct` keeps the id; name and price change only to a string value under their key; description becomes the string, or null for an explicit null, and otherwise keeps its old value |
| `Rules.MergeIgnoresAbsentKeys` | src/Service/ProductService.php:82-92 | an update whose data has none of the three keys leaves the product unchanged |
| `Rules.MergeNulls` | src/Service/ProductService.php:82-92 | key by key, whatever the other keys hold: a null `name` or `price` leaves that field unchanged, a null `description` clears the field, and a non-string non-null `description` is ignored by update while create refuses it |
| `Rules.MergeIdempotent` | src/Service/ProductService.php:82-92 | applying the same update twice gives the same product as applying it once |
| `Rules.DraftIsMergeIntoBlank` | src/Service/ProductService.php:47-61 | on data create accepts, the product it builds is the update of a blank entity with the same data |
| `Entity.Product.constructor` | src/Service/ProductService.php:47 | a new entity has every field null |
| `Entity.Product.SetName` | src/Service/ProductService.php:50 | sets the name and changes no other field |
| `Entity.Product.SetDescription` | src/Service/ProductService.php:54 | sets the description, possibly to null, and changes no other field |
| `Entity.Product.SetPrice` | src/Service/ProductService.php:60 | sets the price and changes no other field |
| `Service.Listing` | src/Service/ProductService.php:26-29 | the stored rows with ids in a range, each the row stored under its own id, every such row present, in strictly ascending id order |
| `Service.ListingAppend` | src/Service/ProductService.php:68-69 | storing a row under an id above every stored id appends that row at the end of the listing |
| `Service.ProductService.constructor` | src/Service/ProductService.php:16-21 | the service is built over a given table (every row keyed by its own id, all ids below the generator's next id) and the injected validator, and starts with exactly that table and counter |
| `Service.ProductService.Find` | src/Service/ProductService.php:35-38 | `getProduct` finds a product exactly when a row is stored under that id, and the row found carries that id |
| `Service.ProductService.AllProducts` | src/Service/ProductService.php:26-29 | `getAllProducts` lists exactly the stored rows, with no id twice, in ascending id order |
| `Service.ProductService.GetProduct` | src/Service/ProductService.php:35-38 | returns null exactly when `Find` finds no row for that id, otherwise a new entity object whose fields are the row `Find` returns |
| `Service.ProductService.CreateProduct` | src/Service/ProductService.php:45-72 | the description check precedes validation. On either error the store and the id counter are unchanged. On success exactly one row is added, under an id not in use before; it holds the drafted fields, the returned object carries that id, and `getAllProducts` gains that one row at the end |
| `Service.ProductService.UpdateProduct` | src/Service/ProductService.php:80-102 | the object is merged with the data before validation, so it stays modified even on 'Validation errors'. On that error the store is unchanged; on success the merged fields are flushed to the product's own row only |
| `Service.ProductService.DeleteProduct` | src/Service/ProductService.php:108-112 | removes exactly the product's row (after it `getProduct` on that id finds nothing); every other row and the id counter are unchanged |

## Left out

- `src/Controller/ProductController.php`: HTTP routing, `json_decode` and status codes. It does not call the service at all, and its unconditional setter calls depend on PHP's undefined-index behaviour.
- `tests/Controller/ProductControllerTest.php` and `tests/Controller/ProductController.php`: end-to-end HTTP tests against a live client and database. `Service.Scenario` follows the same create, read, update and delete sequence at the level of the service.
- The entity's validation constraints live in `src/Entity/Product.php`, which is not part of this model. The Symfony validator is the parameter `validate`; only "no violation" versus "some violation" is modelled.
- Doctrine's identity map: `GetProduct` returns a new object on each call, where Doctrine hands back the same managed instance. `AllProducts` returns the stored row values (`ProductData`), not managed `Product` entity objects as `findAll` does.
- Doctrine's unit of work: the model's flush writes only the product the service passes. In Doctrine, any later `flush` also writes every other managed entity changed in memory. That includes a product left modified by an update that failed validation. The model also treats "its id is a stored key" as "managed by the entity manager": since `Product.id` is a plain field, a `new Product()` given an existing id would overwrite that row on `UpdateProduct`, where Doctrine's flush ignores unmanaged and detached objects.
- What Doctrine does to a removed entity object, such as resetting its generated id: `DeleteProduct` changes only the store.
- Database errors on `flush` or `remove`: the store never fails, so no error path exists for them.
- `AllProducts`: `findAll` returns rows in an order the database chooses; the model fixes ascending id order.
- Authentication, JSON encoding and decoding, and PHP arrays with integer keys: the request data is modelled as a map with string keys.
