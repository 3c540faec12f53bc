/** The product handlers (src/controllers/productController.js) against a
    model of their collaborators: the `products` table as a map keyed by
    tenant and id, the storage driver with the disk it writes, and the
    sequence of calls a handler makes to them. */
module ProductController {

  import opened Wrappers
  import opened JsValues
  import Strings
  import TextUtils
  import LocalStorage
  import StorageService
  import ProductQueries

  const MissingFieldsMessage := "All fields (name, barcode, buy_price, sell_price, current_stock) are required"
  const CreatedMessage := "Product created successfully!"
  const DuplicateBarcodeMessage := "A product with this barcode already exists for this tenant."
  const CreateFailedMessage := "An error occurred while creating the product."
  const FetchFailedMessage := "An error occurred while fetching products."
  const NotFoundMessage := "Product not found or access denied."
  const NoFieldsMessage := "No fields provided for update."
  const UpdatedMessage := "Product updated successfully!"
  const UpdateFailedMessage := "An error occurred while updating the product."
  const DeletedMessage := "Product deleted successfully."

  /** PostgreSQL's SQLSTATE for a unique-constraint violation. */
  const UniqueViolation := "23505"

  /** The primary key constraint the store names when a generated id is
      already taken. */
  const PrimaryKeyConstraint := "products_pkey"

  /** An error as a handler's `catch` sees it: `error.code`,
      `error.constraint` and `error.message`. */
  datatype Failure = Failure(code: Option<string>, constraint: Option<string>, message: string)

  /** The JSON body of a response. */
  datatype Payload = Message(text: string) | WithProduct(text: string, product: Record) | Products(rows: seq<Record>)

  /** How a handler ends: a response, or an exception thrown outside its
      `try`, which leaves the request without one. */
  datatype Reply = Sent(status: int, payload: Payload) | Unhandled(error: string)

  /** A row is addressed by its tenant and its id. */
  datatype Key = Key(tenant: string, id: string)

  /** The calls a handler makes to the store and to the storage driver. */
  datatype Call =
    | StoreFile(destination: string)
    | InsertRow(key: Key)
    | SelectRow(key: Key)
    | UpdateRow(key: Key)
    | RemoveFile(path: string)
    | DeleteRow(key: Key)

  /** Lines 12-14: every one of the five required fields is truthy. */
  predicate Complete(body: Record)
  {
    Truthy(Get(body, "name")) && Truthy(Get(body, "barcode")) && Truthy(Get(body, "buy_price"))
    && Truthy(Get(body, "sell_price")) && Truthy(Get(body, "current_stock"))
  }

  /** Whether a failure is the store's signal for a duplicate barcode: the
      unique-violation code and a constraint whose name mentions `barcode`. */
  predicate DuplicateBarcode(f: Failure)
  {
    f.code == Some(UniqueViolation) && f.constraint.Some? && f.constraint.value != ""
    && Strings.Contains(f.constraint.value, "barcode")
  }

  /** Lines 44-50: the response for an error caught while creating. */
  function CreateError(f: Failure): (r: Reply)
    ensures r.Sent? && (r.status == 409 || r.status == 500)
    ensures r.status == 409 <==> DuplicateBarcode(f)
    ensures r.status == 409 ==> r.payload == Message(DuplicateBarcodeMessage)
    ensures r.status == 500 && f.message != "" ==> r.payload == Message(f.message)
    ensures r.status == 500 && f.message == "" ==> r.payload == Message(CreateFailedMessage)
  {
    if f.code == Some(UniqueViolation) && f.constraint.Some? && f.constraint.value != ""
       && Strings.Contains(f.constraint.value, "barcode")
    then Sent(409, Message(DuplicateBarcodeMessage))
    else Sent(500, Message(if f.message != "" then f.message else CreateFailedMessage))
  }

  /** The error a thrown message becomes: no code and no constraint. */
  function Thrown(message: string): Failure
  {
    Failure(None, None, message)
  }

  /** An error without a code never reads as a duplicate barcode: upload
      and normalisation failures answer 500 with their own message. */
  lemma ThrownIs500(message: string)
    requires message != ""
    ensures CreateError(Thrown(message)) == Sent(500, Message(message))
  {
  }

  /** Whether some row, of any tenant, has the id: the table's primary key
      is `id` alone. */
  predicate IdTaken(products: map<Key, Record>, id: string)
  {
    exists k :: k in products && k.id == id
  }

  /** The store's insert: a fault the store reports, else a primary key
      collision when the generated id is taken by any row, else success. */
  function InsertFailure(products: map<Key, Record>, key: Key, fault: Option<Failure>): (r: Option<Failure>)
    ensures fault.Some? ==> r == fault
    ensures fault.None? ==> (r.Some? <==> IdTaken(products, key.id))
    ensures fault.None? && r.Some? ==> r.value.code == Some(UniqueViolation)
    ensures r.None? ==> key !in products
  {
    if fault.Some? then fault
    else if IdTaken(products, key.id) then
      Some(Failure(Some(UniqueViolation), Some(PrimaryKeyConstraint),
                   "duplicate key value violates unique constraint \"products_pkey\""))
    else None
  }

  /** A unique violation on a constraint whose name does not mention
      `barcode` is not the duplicate-barcode signal: 500. */
  lemma OtherConstraintIs500(c: string, message: string)
    requires !Strings.Contains(c, "barcode")
    ensures CreateError(Failure(Some(UniqueViolation), Some(c), message)).status == 500
  {
  }

  /** A constraint name without the letter `b` cannot mention `barcode`. */
  lemma NoBarcodeWithoutB(c: string)
    requires 'b' !in c
    ensures !Strings.Contains(c, "barcode")
  {
    if Strings.Contains(c, "barcode") {
      Strings.ContainsFirst(c, "barcode");
    }
  }

  /** A taken id is a unique violation, but not the barcode one: 500. */
  lemma IdCollisionIs500(products: map<Key, Record>, key: Key)
    requires IdTaken(products, key.id)
    ensures InsertFailure(products, key, None).Some?
    ensures CreateError(InsertFailure(products, key, None).value).status == 500
  {
    var f := InsertFailure(products, key, None).value;
    assert f.constraint == Some(PrimaryKeyConstraint);
    NoBarcodeWithoutB(PrimaryKeyConstraint);
    assert !DuplicateBarcode(f);
  }

  /** Lines 28-33: the row the INSERT stores, and `RETURNING *` gives back. */
  function NewRow(key: Key, body: Record, normalized: string, image: Option<string>): (row: Record)
    ensures Get(row, "id") == Str(key.id) && Get(row, "tenant_id") == Str(key.tenant)
    ensures Get(row, "normalized_name") == Str(normalized)
    ensures Get(row, "image_url") == TextValue(image)
    ensures forall f :: f in ["name", "barcode", "buy_price", "sell_price", "current_stock"] ==> Get(row, f) == Get(body, f)
  {
    map["id" := Str(key.id), "tenant_id" := Str(key.tenant), "name" := Get(body, "name"),
        "normalized_name" := Str(normalized), "barcode" := Get(body, "barcode"),
        "buy_price" := Get(body, "buy_price"), "sell_price" := Get(body, "sell_price"),
        "current_stock" := Get(body, "current_stock"), "image_url" := TextValue(image)]
  }

  /** Lines 40, 147 and 63-69: a row with `full_image_url` added, the URL
      the driver gives for its `image_url`; every other column is kept. */
  function WithFullImageUrl(config: StorageService.Config, row: Record): (r: Record)
    ensures r.Keys == row.Keys + {"full_image_url"}
    ensures forall c :: c in row && c != "full_image_url" ==> r[c] == row[c]
    ensures AsText(r["full_image_url"]) == StorageService.GetURL(config, AsText(Get(row, "image_url")))
  {
    row["full_image_url" := TextValue(StorageService.GetURL(config, AsText(Get(row, "image_url"))))]
  }

  /** Lines 63-69: the rows in the order the query returned them, each with
      its URL added. */
  function ProductsWithImages(config: StorageService.Config, rows: seq<Record>): (r: seq<Record>)
    ensures |r| == |rows|
    ensures forall k :: 0 <= k < |rows| ==> r[k] == WithFullImageUrl(config, rows[k])
  {
    seq(|rows|, k requires 0 <= k < |rows| => WithFullImageUrl(config, rows[k]))
  }

  /** Lines 55-77, from the rows `SELECT * … WHERE tenant_id = $1 ORDER BY
      created_at DESC` returned, or the store's failure. */
  function GetProducts(config: StorageService.Config, query: Result<seq<Record>, Failure>): (r: Reply)
    ensures query.Err? ==> r == Sent(500, Message(FetchFailedMessage))
    ensures query.Ok? ==>
      r.Sent? && r.status == 200 && r.payload.Products? && |r.payload.rows| == |query.value|
  {
    match query
    case Ok(rows) => Sent(200, Products(ProductsWithImages(config, rows)))
    case Err(_) => Sent(500, Message(FetchFailedMessage))
  }

  /** Each listed product is its row unchanged, with the resolved URL added:
      in particular rows never move between tenants or positions. */
  lemma GetProductsKeepsRows(config: StorageService.Config, rows: seq<Record>, k: nat, c: string)
    requires k < |rows|
    ensures GetProducts(config, Ok(rows)).payload.rows[k].Keys == rows[k].Keys + {"full_image_url"}
    ensures c in rows[k] && c != "full_image_url" ==> GetProducts(config, Ok(rows)).payload.rows[k][c] == rows[k][c]
    ensures Get(GetProducts(config, Ok(rows)).payload.rows[k], "tenant_id") == Get(rows[k], "tenant_id")
    ensures AsText(GetProducts(config, Ok(rows)).payload.rows[k]["full_image_url"])
      == StorageService.GetURL(config, AsText(Get(rows[k], "image_url")))
  {
  }

  /** `if (file) imagePath = await storageService.upload(file, tenant)`:
      no file leaves the path `null` and the disk alone. */
  function StoreImage(config: StorageService.Config, s: LocalStorage.DiskState,
                      file: Option<LocalStorage.UploadedFile>, tenant: string, io: LocalStorage.UploadIo)
    : (out: (Result<Option<string>, string>, LocalStorage.DiskState))
    ensures file.None? ==> out == (Ok(None), s)
    ensures file.Some? ==> var u := StorageService.UploadOutcome(config, s, file.value, tenant, io);
      out.1 == u.1 && (u.0.Ok? ==> out.0 == Ok(Some(u.0.value))) && (u.0.Err? ==> out.0 == Err(u.0.error))
  {
    if file.None? then (Ok(None), s)
    else
      var u := StorageService.UploadOutcome(config, s, file.value, tenant, io);
      match u.0
      case Ok(p) => (Ok(Some(p)), u.1)
      case Err(e) => (Err(e), u.1)
  }

  /** Every upload error has a message. */
  lemma StoreImageErrorNonEmpty(config: StorageService.Config, s: LocalStorage.DiskState,
                                file: Option<LocalStorage.UploadedFile>, tenant: string, io: LocalStorage.UploadIo)
    ensures StoreImage(config, s, file, tenant, io).0.Err? ==> StoreImage(config, s, file, tenant, io).0.error != ""
  {
  }

  /** With the object storage driver a file never uploads, so an update with
      a file stops before the old image would be deleted: the call to the
      `deleteFile` it does not export cannot be reached. */
  lemma ObjectStorageNeverDeletes(config: StorageService.Config, s: LocalStorage.DiskState,
                                  file: Option<LocalStorage.UploadedFile>, tenant: string, io: LocalStorage.UploadIo)
    requires config.driver == StorageService.S3
    ensures StoreImage(config, s, file, tenant, io).0.Ok? <==> file.None?
  {
  }

  /** The store running an UPDATE: the WHERE placeholders pick the row by id
      and tenant; a row that matches gets the SET list applied. */
  function ExecuteUpdate(products: map<Key, Record>, q: ProductQueries.UpdateStatement,
                         values: seq<JsValue>, now: JsValue): (r: map<Key, Record>)
    requires ProductQueries.Bound(q.sets, values)
    requires 1 <= q.idParam <= |values| && 1 <= q.tenantParam <= |values|
    ensures r.Keys == products.Keys
  {
    var id := values[q.idParam - 1];
    var tenant := values[q.tenantParam - 1];
    if id.Str? && tenant.Str? && Key(tenant.s, id.s) in products then
      var key := Key(tenant.s, id.s);
      products[key := ProductQueries.ApplySets(products[key], q.sets, values, now)]
    else products
  }

  /** The statement the handler builds updates exactly the addressed row,
      and that row becomes the patch of itself; every other row is left
      alone. */
  lemma UpdateTargetsKey(products: map<Key, Record>, body: Record, image: Option<string>,
                         key: Key, now: JsValue)
    requires key in products
    ensures var q := ProductQueries.UpdateQuery(body, image);
      var vals := ProductQueries.UpdateValues(body, image, key.id, key.tenant);
      && ProductQueries.Bound(q.sets, vals)
      && 1 <= q.idParam <= |vals| && 1 <= q.tenantParam <= |vals|
      && ExecuteUpdate(products, q, vals, now)
         == products[key := ProductQueries.Patched(products[key], body, image, now)]
  {
    ProductQueries.UpdateBindings(body, image, key.id, key.tenant);
    ProductQueries.UpdateMeaning(products[key], body, image, key.id, key.tenant, now);
  }

  /** Whether the body names no allowed field: the builder produced nothing. */
  predicate NoFields(body: Record)
  {
    ProductQueries.Built(body, ProductQueries.AllowedFields).0 == []
  }

  /** The builder produces nothing exactly when every allowed field is
      `undefined` in the body. */
  lemma NoFieldsIff(body: Record)
    ensures NoFields(body) <==> forall f :: f in ProductQueries.AllowedFields ==> !ProductQueries.Present(body, f)
  {
    ProductQueries.BuiltColumns(body, ProductQueries.AllowedFields);
    var cols := ProductQueries.Columns(ProductQueries.Built(body, ProductQueries.AllowedFields).0);
    if !NoFields(body) {
      ProductQueries.ExpectedColumnsOfAllowed(body, cols[0]);
    } else {
      forall f | f in ProductQueries.AllowedFields ensures !ProductQueries.Present(body, f) {
        ProductQueries.ExpectedColumnsOfAllowed(body, f);
      }
    }
  }

  /** A stored row carries its key in `id` and `tenant_id`, and its
      `image_url` is text or null. */
  predicate WellKeyed(key: Key, row: Record)
  {
    Get(row, "id") == Str(key.id) && Get(row, "tenant_id") == Str(key.tenant)
    && (Get(row, "image_url").Str? || Get(row, "image_url") == Null || Get(row, "image_url") == Undefined)
  }

  /** The old image an update may delete: `image_url` when it is truthy. */
  function OldImage(row: Record): (r: Option<string>)
    ensures r.Some? <==> Truthy(Get(row, "image_url")) && Get(row, "image_url").Str?
    ensures r.Some? ==> Get(row, "image_url") == Str(r.value) && r.value != ""
  {
    var v := Get(row, "image_url");
    if v.Str? && v.s != "" then Some(v.s) else None
  }

  /** What the handlers act on: the `products` table, the calls made so far
      and the local disk. */
  datatype World = World(products: map<Key, Record>, calls: seq<Call>, disk: LocalStorage.DiskState)

  predicate ValidWorld(w: World)
  {
    && (forall k :: k in w.products ==> WellKeyed(k, w.products[k]))
    && UniqueIds(w.products)
  }

  /** No two rows share an id, whatever their tenants. */
  predicate UniqueIds(products: map<Key, Record>)
  {
    forall k1, k2 :: k1 in products && k2 in products && k1.id == k2.id ==> k1 == k2
  }

  /** `createProduct` (lines 7-52) for tenant `tenant`: validation, the
      upload when a file is present, normalisation, then the INSERT; every
      error after validation is answered through `CreateError`. `io` is what
      the environment does during the upload, `newId` the id the store
      generates and `insertFault` a failure the store reports. */
  function CreateOutcome(config: StorageService.Config, w: World, tenant: string, body: Record,
                         file: Option<LocalStorage.UploadedFile>, io: LocalStorage.UploadIo,
                         newId: string, insertFault: Option<Failure>): (out: (Reply, World))
    ensures ValidWorld(w) ==> ValidWorld(out.1)
    ensures w.calls <= out.1.calls
  {
    if !Complete(body) then (Sent(400, Message(MissingFieldsMessage)), w)
    else
      var up := StoreImage(config, w.disk, file, tenant, io);
      var uploaded := w.calls + (if file.Some? then [StoreFile(tenant)] else []);
      if up.0.Err? then (CreateError(Thrown(up.0.error)), World(w.products, uploaded, up.1))
      else
        var normalized := TextUtils.NormalizeText(Get(body, "name"));
        if normalized.Err? then (CreateError(Thrown(normalized.error)), World(w.products, uploaded, up.1))
        else InsertOutcome(config, World(w.products, uploaded, up.1), Key(tenant, newId), body,
                           normalized.value, up.0.value, insertFault)
  }

  /** Lines 28-42: the INSERT of the new row and the 201 that reports it. */
  function InsertOutcome(config: StorageService.Config, w: World, key: Key, body: Record,
                         normalized: string, image: Option<string>, insertFault: Option<Failure>)
    : (out: (Reply, World))
    ensures ValidWorld(w) ==> ValidWorld(out.1)
    ensures out.1.calls == w.calls + [InsertRow(key)] && out.1.disk == w.disk
    ensures out.0.Sent? && (out.0.status == 201 <==> InsertFailure(w.products, key, insertFault).None?)
    ensures out.0.status == 201 ==>
      && out.1.products == w.products[key := NewRow(key, body, normalized, image)]
      && out.0.payload == WithProduct(CreatedMessage, WithFullImageUrl(config, NewRow(key, body, normalized, image)))
    ensures out.0.status != 201 ==>
      out.1.products == w.products && out.0 == CreateError(InsertFailure(w.products, key, insertFault).value)
  {
    var inserted := w.calls + [InsertRow(key)];
    var failure := InsertFailure(w.products, key, insertFault);
    if failure.Some? then (CreateError(failure.value), World(w.products, inserted, w.disk))
    else
      var row := NewRow(key, body, normalized, image);
      assert WellKeyed(key, row);
      (Sent(201, WithProduct(CreatedMessage, WithFullImageUrl(config, row))),
       World(w.products[key := row], inserted, w.disk))
  }

  /** `updateProduct` once the row of `key` has been found (lines 116-130):
      the upload, then the "no fields" check. */
  function ExistingOutcome(config: StorageService.Config, w: World, key: Key, body: Record,
                           file: Option<LocalStorage.UploadedFile>, io: LocalStorage.UploadIo,
                           updateFails: bool, unlinkFails: bool, now: JsValue): (out: (Reply, World))
    requires key in w.products
    ensures w.calls <= out.1.calls
    ensures out.1.products == w.products
      || (StoreImage(config, w.disk, file, key.tenant, io).0.Ok?
          && out.1.products == w.products[key := ProductQueries.Patched(w.products[key], body,
                                                   StoreImage(config, w.disk, file, key.tenant, io).0.value, now)])
  {
    var up := StoreImage(config, w.disk, file, key.tenant, io);
    var uploaded := w.calls + [SelectRow(key)] + (if file.Some? then [StoreFile(key.tenant)] else []);
    if up.0.Err? then (Sent(500, Message(UpdateFailedMessage)), World(w.products, uploaded, up.1))
    else if NoFields(body) && file.None? then (Sent(400, Message(NoFieldsMessage)), World(w.products, uploaded, up.1))
    else CommitOutcome(config, World(w.products, uploaded, up.1), key, body, up.0.value, updateFails, unlinkFails, now)
  }

  /** Lines 132-159: the UPDATE, then the deletion of the old image when a
      new one was uploaded. A failure of the delete call itself is caught
      like any other error, after the UPDATE has been committed. */
  function CommitOutcome(config: StorageService.Config, w: World, key: Key, body: Record, image: Option<string>,
                         updateFails: bool, unlinkFails: bool, now: JsValue): (out: (Reply, World))
    requires key in w.products
    ensures var removes := !updateFails && image.Some? && OldImage(w.products[key]).Some?;
      out.1.calls == w.calls + [UpdateRow(key)]
        + (if removes then [RemoveFile(OldImage(w.products[key]).value)] else [])
    ensures updateFails ==> out == (Sent(500, Message(UpdateFailedMessage)), World(w.products, w.calls + [UpdateRow(key)], w.disk))
    ensures !updateFails ==>
      out.1.products == w.products[key := ProductQueries.Patched(w.products[key], body, image, now)]
    ensures out.0.Sent? && out.0.status == 200 ==>
      !updateFails && out.0.payload == WithProduct(UpdatedMessage, WithFullImageUrl(config, out.1.products[key]))
    ensures !updateFails && image.Some? && OldImage(w.products[key]).Some? ==>
      w.disk.files.Keys - {OldImage(w.products[key]).value} <= out.1.disk.files.Keys
    ensures !(!updateFails && image.Some? && OldImage(w.products[key]).Some?) ==> out.1.disk == w.disk
    ensures config.driver == StorageService.Local && !updateFails ==> out.0.Sent? && out.0.status == 200
  {
    var row := w.products[key];
    var updated := w.calls + [UpdateRow(key)];
    if updateFails then (Sent(500, Message(UpdateFailedMessage)), World(w.products, updated, w.disk))
    else
      var patched := ProductQueries.Patched(row, body, image, now);
      var products := w.products[key := patched];
      var shown := Sent(200, WithProduct(UpdatedMessage, WithFullImageUrl(config, patched)));
      if image.Some? && OldImage(row).Some? then
        var removed := updated + [RemoveFile(OldImage(row).value)];
        match StorageService.DeleteOutcome(config, w.disk.files, OldImage(row), unlinkFails)
        case Ok(files) => (shown, World(products, removed, LocalStorage.DiskState(w.disk.dirs, files)))
        case Err(_) => (Sent(500, Message(UpdateFailedMessage)), World(products, removed, w.disk))
      else (shown, World(products, updated, w.disk))
  }

  /** `updateProduct` (lines 80-160) for product `id` of tenant `tenant`: the
      builder runs before the `try`, so its exception leaves the request
      unanswered; then the row is looked up by id and tenant. `updateFails`
      says whether the store fails the UPDATE, `unlinkFails` whether the
      disk fails the delete, and `now` is `CURRENT_TIMESTAMP`. */
  function UpdateOutcome(config: StorageService.Config, w: World, id: string, tenant: string, body: Record,
                         file: Option<LocalStorage.UploadedFile>, io: LocalStorage.UploadIo,
                         updateFails: bool, unlinkFails: bool, now: JsValue): (out: (Reply, World))
    ensures ValidWorld(w) ==> ValidWorld(out.1)
    ensures w.calls <= out.1.calls
  {
    var key := Key(tenant, id);
    if ProductQueries.BuilderThrows(body) then (Unhandled(TextUtils.ReplaceNotAFunction), w)
    else if key !in w.products then
      (Sent(404, Message(NotFoundMessage)), World(w.products, w.calls + [SelectRow(key)], w.disk))
    else
      ExistingKeepsValid(config, w, key, body, file, io, updateFails, unlinkFails, now);
      ExistingOutcome(config, w, key, body, file, io, updateFails, unlinkFails, now)
  }

  /** The update of a found row keeps every row well keyed and the ids unique. */
  lemma ExistingKeepsValid(config: StorageService.Config, w: World, key: Key, body: Record,
                           file: Option<LocalStorage.UploadedFile>, io: LocalStorage.UploadIo,
                           updateFails: bool, unlinkFails: bool, now: JsValue)
    requires key in w.products
    ensures ValidWorld(w) ==> ValidWorld(ExistingOutcome(config, w, key, body, file, io, updateFails, unlinkFails, now).1)
  {
    if ValidWorld(w) {
      var out := ExistingOutcome(config, w, key, body, file, io, updateFails, unlinkFails, now);
      UpdateKeepsValid(config, w, key, body, file, io, now);
      ExistingKeepsIds(config, w, key, body, file, io, updateFails, unlinkFails, now);
      if out.1.products != w.products {
        var up := StoreImage(config, w.disk, file, key.tenant, io);
        var row := ProductQueries.Patched(w.products[key], body, up.0.value, now);
        assert out.1.products == w.products[key := row];
        assert WellKeyed(key, row);
      }
    }
  }

  /** The patched row keeps its key and a text-or-null `image_url`. */
  lemma UpdateKeepsValid(config: StorageService.Config, w: World, key: Key, body: Record,
                         file: Option<LocalStorage.UploadedFile>, io: LocalStorage.UploadIo, now: JsValue)
    requires key in w.products
    ensures var up := StoreImage(config, w.disk, file, key.tenant, io);
      up.0.Ok? && ValidWorld(w) ==>
      WellKeyed(key, ProductQueries.Patched(w.products[key], body, up.0.value, now))
  {
    var up := StoreImage(config, w.disk, file, key.tenant, io);
    if up.0.Ok? {
      ProductQueries.PatchedKeepsIdentity(w.products[key], body, up.0.value, now);
    }
  }

  /** An update of a found row changes no key, so ids stay unique. */
  lemma ExistingKeepsIds(config: StorageService.Config, w: World, key: Key, body: Record,
                         file: Option<LocalStorage.UploadedFile>, io: LocalStorage.UploadIo,
                         updateFails: bool, unlinkFails: bool, now: JsValue)
    requires key in w.products && UniqueIds(w.products)
    ensures UniqueIds(ExistingOutcome(config, w, key, body, file, io, updateFails, unlinkFails, now).1.products)
  {
    var out := ExistingOutcome(config, w, key, body, file, io, updateFails, unlinkFails, now);
    var up := StoreImage(config, w.disk, file, key.tenant, io);
    if out.1.products != w.products {
      UniqueIdsOverwrite(w.products, key, ProductQueries.Patched(w.products[key], body, up.0.value, now));
    }
  }

  /** Replacing the row of an existing key keeps the ids unique. */
  lemma UniqueIdsOverwrite(products: map<Key, Record>, key: Key, row: Record)
    requires key in products && UniqueIds(products)
    ensures UniqueIds(products[key := row])
  {
    assert products[key := row].Keys == products.Keys;
  }

  /** `deleteProduct` (lines 163-180): `rowCount` is 1 when the row of id and
      tenant exists and 0 otherwise. */
  function DeleteOutcome(w: World, id: string, tenant: string): (out: (Reply, World))
    ensures ValidWorld(w) ==> ValidWorld(out.1)
    ensures out.1.calls == w.calls + [DeleteRow(Key(tenant, id))] && out.1.disk == w.disk
  {
    var key := Key(tenant, id);
    var rowCount := if key in w.products then 1 else 0;
    if rowCount == 0 then (Sent(404, Message(NotFoundMessage)), World(w.products, w.calls + [DeleteRow(key)], w.disk))
    else (Sent(200, Message(DeletedMessage)), World(w.products - {key}, w.calls + [DeleteRow(key)], w.disk))
  }

  /** Lines 12-14: a request missing any required field is refused before
      any upload or INSERT, and nothing changes. */
  lemma CreateRejectsIncomplete(config: StorageService.Config, w: World, tenant: string, body: Record,
                                file: Option<LocalStorage.UploadedFile>, io: LocalStorage.UploadIo,
                                newId: string, insertFault: Option<Failure>)
    ensures var out := CreateOutcome(config, w, tenant, body, file, io, newId, insertFault);
      out.0 == Sent(400, Message(MissingFieldsMessage)) <==> !Complete(body)
    ensures !Complete(body) ==> CreateOutcome(config, w, tenant, body, file, io, newId, insertFault).1 == w
  {
    if CreateInserts(config, w, tenant, body, file, io) {
      CreateReachesInsert(config, w, tenant, body, file, io, newId, insertFault);
    } else if Complete(body) {
      CreateStopsEarly(config, w, tenant, body, file, io, newId, insertFault);
    }
  }

  /** Lines 16-33: the calls of a create are the upload (exactly when the
      request is complete and carries a file) and then the INSERT, never the
      other way round; without a file the disk is untouched. */
  lemma CreateCallOrder(config: StorageService.Config, w: World, tenant: string, body: Record,
                        file: Option<LocalStorage.UploadedFile>, io: LocalStorage.UploadIo,
                        newId: string, insertFault: Option<Failure>)
    ensures var out := CreateOutcome(config, w, tenant, body, file, io, newId, insertFault);
      var added := out.1.calls[|w.calls|..];
      var key := Key(tenant, newId);
      && (StoreFile(tenant) in added <==> Complete(body) && file.Some?)
      && (InsertRow(key) in added ==> added[|added| - 1] == InsertRow(key))
      && (InsertRow(key) in added && file.Some? ==> added == [StoreFile(tenant), InsertRow(key)])
      && (out.0.Sent? && out.0.status == 201 ==> InsertRow(key) in added)
      && (file.None? ==> out.1.disk == w.disk)
  {
    var out := CreateOutcome(config, w, tenant, body, file, io, newId, insertFault);
    var key := Key(tenant, newId);
    var inserts := CreateInserts(config, w, tenant, body, file, io);
    CreateCalls(config, w, tenant, body, file, io, newId, insertFault);
    var list := CreateCallList(tenant, key, Complete(body), file.Some?, inserts);
    assert out.1.calls[|w.calls|..] == list;
    CreateCallListOrder(tenant, key, Complete(body), file.Some?, inserts);
  }

  /** The calls a create appends: the upload, then the INSERT. */
  function CreateCallList(tenant: string, key: Key, complete: bool, hasFile: bool, inserts: bool): seq<Call>
  {
    (if complete && hasFile then [StoreFile(tenant)] else []) + (if inserts then [InsertRow(key)] else [])
  }

  lemma CreateCallListOrder(tenant: string, key: Key, complete: bool, hasFile: bool, inserts: bool)
    requires inserts ==> complete
    ensures var added := CreateCallList(tenant, key, complete, hasFile, inserts);
      && (StoreFile(tenant) in added <==> complete && hasFile)
      && (InsertRow(key) in added <==> inserts)
      && (inserts ==> added[|added| - 1] == InsertRow(key))
      && (inserts && hasFile ==> added == [StoreFile(tenant), InsertRow(key)])
  {
  }

  /** Whether a create reaches its INSERT. */
  predicate CreateInserts(config: StorageService.Config, w: World, tenant: string, body: Record,
                          file: Option<LocalStorage.UploadedFile>, io: LocalStorage.UploadIo)
  {
    Complete(body) && StoreImage(config, w.disk, file, tenant, io).0.Ok?
    && TextUtils.NormalizeText(Get(body, "name")).Ok?
  }

  /** A create that passes validation, the upload and normalisation ends
      with the INSERT on the world the upload left. */
  lemma CreateReachesInsert(config: StorageService.Config, w: World, tenant: string, body: Record,
                            file: Option<LocalStorage.UploadedFile>, io: LocalStorage.UploadIo,
                            newId: string, insertFault: Option<Failure>)
    requires CreateInserts(config, w, tenant, body, file, io)
    ensures var up := StoreImage(config, w.disk, file, tenant, io);
      var uploaded := w.calls + (if file.Some? then [StoreFile(tenant)] else []);
      CreateOutcome(config, w, tenant, body, file, io, newId, insertFault)
      == InsertOutcome(config, World(w.products, uploaded, up.1), Key(tenant, newId), body,
                       TextUtils.NormalizeText(Get(body, "name")).value, up.0.value, insertFault)
  {
  }

  /** The world a create leaves when it stops before the INSERT. */
  lemma CreateStopsEarly(config: StorageService.Config, w: World, tenant: string, body: Record,
                         file: Option<LocalStorage.UploadedFile>, io: LocalStorage.UploadIo,
                         newId: string, insertFault: Option<Failure>)
    requires Complete(body) && !CreateInserts(config, w, tenant, body, file, io)
    ensures var out := CreateOutcome(config, w, tenant, body, file, io, newId, insertFault);
      var up := StoreImage(config, w.disk, file, tenant, io);
      && out.1 == World(w.products, w.calls + (if file.Some? then [StoreFile(tenant)] else []), up.1)
      && out.0 == CreateError(Thrown(if up.0.Err? then up.0.error else TextUtils.NormalizeText(Get(body, "name")).error))
  {
  }

  /** The calls a create appends. */
  lemma CreateCalls(config: StorageService.Config, w: World, tenant: string, body: Record,
                    file: Option<LocalStorage.UploadedFile>, io: LocalStorage.UploadIo,
                    newId: string, insertFault: Option<Failure>)
    ensures CreateOutcome(config, w, tenant, body, file, io, newId, insertFault).1.calls
      == w.calls + CreateCallList(tenant, Key(tenant, newId), Complete(body), file.Some?,
                                  CreateInserts(config, w, tenant, body, file, io))
    ensures file.None? ==> CreateOutcome(config, w, tenant, body, file, io, newId, insertFault).1.disk == w.disk
    ensures CreateOutcome(config, w, tenant, body, file, io, newId, insertFault).0.Sent?
    ensures CreateOutcome(config, w, tenant, body, file, io, newId, insertFault).0.status == 201
      ==> CreateInserts(config, w, tenant, body, file, io)
  {
    var out := CreateOutcome(config, w, tenant, body, file, io, newId, insertFault);
    var uploads := if file.Some? then [StoreFile(tenant)] else [];
    if CreateInserts(config, w, tenant, body, file, io) {
      CreateReachesInsert(config, w, tenant, body, file, io, newId, insertFault);
      assert out.1.calls == w.calls + uploads + [InsertRow(Key(tenant, newId))];
    } else if Complete(body) {
      CreateStopsEarly(config, w, tenant, body, file, io, newId, insertFault);
      assert out.1.calls == w.calls + uploads;
    } else {
      CreateRejectsIncomplete(config, w, tenant, body, file, io, newId, insertFault);
    }
  }

  /** Lines 16-42: a created product stores the body's fields, the
      normalised name, and the uploaded locator or null; the table gains
      exactly that row. */
  lemma CreateStoresRow(config: StorageService.Config, w: World, tenant: string, body: Record,
                        file: Option<LocalStorage.UploadedFile>, io: LocalStorage.UploadIo,
                        newId: string, insertFault: Option<Failure>)
    ensures var out := CreateOutcome(config, w, tenant, body, file, io, newId, insertFault);
      var key := Key(tenant, newId);
      out.0.Sent? && out.0.status == 201 ==>
        && !IdTaken(w.products, newId) && key in out.1.products
        && out.1.products == w.products[key := out.1.products[key]]
        && var row := out.1.products[key];
        && Get(row, "normalized_name") == Str(TextUtils.NormalizeText(Get(body, "name")).value)
        && (forall f :: f in ["name", "barcode", "buy_price", "sell_price", "current_stock"] ==> Get(row, f) == Get(body, f))
        && (file.None? ==> Get(row, "image_url") == Null)
        && (file.Some? ==> Get(row, "image_url") == Str(StoreImage(config, w.disk, file, tenant, io).0.value.value))
        && out.0.payload == WithProduct(CreatedMessage, WithFullImageUrl(config, row))
    ensures var out := CreateOutcome(config, w, tenant, body, file, io, newId, insertFault);
      !(out.0.Sent? && out.0.status == 201) ==> out.1.products == w.products
  {
    var out := CreateOutcome(config, w, tenant, body, file, io, newId, insertFault);
    var key := Key(tenant, newId);
    if CreateInserts(config, w, tenant, body, file, io) {
      CreateReachesInsert(config, w, tenant, body, file, io, newId, insertFault);
      if out.0.status == 201 {
        var up := StoreImage(config, w.disk, file, tenant, io);
        var row := NewRow(key, body, TextUtils.NormalizeText(Get(body, "name")).value, up.0.value);
        assert out.1.products == w.products[key := row];
        assert out.1.products[key] == row;
      }
    } else if Complete(body) {
      CreateStopsEarly(config, w, tenant, body, file, io, newId, insertFault);
    }
  }

  /** Lines 44-50 inside a create: the answer is 409 exactly when the store
      reports the duplicate-barcode violation; any other failure, including a
      taken id, answers 500. */
  lemma CreateConflict(config: StorageService.Config, w: World, tenant: string, body: Record,
                       file: Option<LocalStorage.UploadedFile>, io: LocalStorage.UploadIo,
                       newId: string, insertFault: Option<Failure>)
    requires Complete(body)
    ensures var out := CreateOutcome(config, w, tenant, body, file, io, newId, insertFault);
      var up := StoreImage(config, w.disk, file, tenant, io);
      out.0.Sent? && out.0.status == 409 <==>
        up.0.Ok? && TextUtils.NormalizeText(Get(body, "name")).Ok?
        && insertFault.Some? && DuplicateBarcode(insertFault.value)
  {
    var up := StoreImage(config, w.disk, file, tenant, io);
    var key := Key(tenant, newId);
    if CreateInserts(config, w, tenant, body, file, io) {
      CreateReachesInsert(config, w, tenant, body, file, io, newId, insertFault);
      if insertFault.None? && IdTaken(w.products, key.id) {
        IdCollisionIs500(w.products, key);
      }
    } else {
      CreateStopsEarly(config, w, tenant, body, file, io, newId, insertFault);
      if up.0.Err? {
        assert !DuplicateBarcode(Thrown(up.0.error));
      } else {
        assert !DuplicateBarcode(Thrown(TextUtils.NormalizeText(Get(body, "name")).error));
      }
    }
  }

  /** Lines 80-105: when the builder throws, the handler stops before any
      query, upload or response. */
  lemma UpdateBuilderThrows(config: StorageService.Config, w: World, id: string, tenant: string, body: Record,
                            file: Option<LocalStorage.UploadedFile>, io: LocalStorage.UploadIo,
                            updateFails: bool, unlinkFails: bool, now: JsValue)
    ensures ProductQueries.BuilderThrows(body) <==>
      UpdateOutcome(config, w, id, tenant, body, file, io, updateFails, unlinkFails, now).0.Unhandled?
    ensures ProductQueries.BuilderThrows(body) ==>
      UpdateOutcome(config, w, id, tenant, body, file, io, updateFails, unlinkFails, now).1 == w
  {
  }

  /** Lines 109-114 and 168-173: update and delete both answer 404 exactly
      when no row has the id and tenant, and an update then makes no upload
      and changes nothing. */
  lemma NotFoundRule(config: StorageService.Config, w: World, id: string, tenant: string, body: Record,
                     file: Option<LocalStorage.UploadedFile>, io: LocalStorage.UploadIo,
                     updateFails: bool, unlinkFails: bool, now: JsValue)
    requires !ProductQueries.BuilderThrows(body)
    ensures var out := UpdateOutcome(config, w, id, tenant, body, file, io, updateFails, unlinkFails, now);
      out.0 == Sent(404, Message(NotFoundMessage)) <==> Key(tenant, id) !in w.products
    ensures Key(tenant, id) !in w.products ==>
      UpdateOutcome(config, w, id, tenant, body, file, io, updateFails, unlinkFails, now).1
      == World(w.products, w.calls + [SelectRow(Key(tenant, id))], w.disk)
    ensures DeleteOutcome(w, id, tenant).0 == Sent(404, Message(NotFoundMessage)) <==> Key(tenant, id) !in w.products
  {
  }

  /** Lines 119-130: the "no fields" 400 comes after the lookup and the
      upload, and only when the body names no allowed field and there is no
      file. */
  lemma NoFieldsRule(config: StorageService.Config, w: World, id: string, tenant: string, body: Record,
                     file: Option<LocalStorage.UploadedFile>, io: LocalStorage.UploadIo,
                     updateFails: bool, unlinkFails: bool, now: JsValue)
    ensures var out := UpdateOutcome(config, w, id, tenant, body, file, io, updateFails, unlinkFails, now);
      out.0 == Sent(400, Message(NoFieldsMessage)) <==>
        !ProductQueries.BuilderThrows(body) && Key(tenant, id) in w.products && file.None?
        && forall f :: f in ProductQueries.AllowedFields ==> !ProductQueries.Present(body, f)
    ensures var out := UpdateOutcome(config, w, id, tenant, body, file, io, updateFails, unlinkFails, now);
      out.0 == Sent(400, Message(NoFieldsMessage)) ==> out.1.products == w.products && out.1.disk == w.disk
  {
    NoFieldsIff(body);
  }

  /** Whether an update reaches the row lookup's success, its UPDATE, and the
      deletion of the old image. */
  predicate UpdateFinds(w: World, id: string, tenant: string, body: Record)
  {
    !ProductQueries.BuilderThrows(body) && Key(tenant, id) in w.products
  }

  predicate UpdateRuns(config: StorageService.Config, w: World, id: string, tenant: string, body: Record,
                       file: Option<LocalStorage.UploadedFile>, io: LocalStorage.UploadIo)
  {
    UpdateFinds(w, id, tenant, body) && StoreImage(config, w.disk, file, tenant, io).0.Ok?
    && !(NoFields(body) && file.None?)
  }

  predicate UpdateRemoves(config: StorageService.Config, w: World, id: string, tenant: string, body: Record,
                          file: Option<LocalStorage.UploadedFile>, io: LocalStorage.UploadIo, updateFails: bool)
  {
    UpdateRuns(config, w, id, tenant, body, file, io) && !updateFails && file.Some?
    && OldImage(w.products[Key(tenant, id)]).Some?
  }

  /** The calls an update appends, in order. */
  function UpdateCallList(config: StorageService.Config, w: World, id: string, tenant: string, body: Record,
                          file: Option<LocalStorage.UploadedFile>, io: LocalStorage.UploadIo, updateFails: bool)
    : seq<Call>
  {
    var key := Key(tenant, id);
    if ProductQueries.BuilderThrows(body) then []
    else if key !in w.products then [SelectRow(key)]
    else
      var uploaded := [SelectRow(key)] + (if file.Some? then [StoreFile(tenant)] else []);
      if !UpdateRuns(config, w, id, tenant, body, file, io) then uploaded
      else uploaded + [UpdateRow(key)]
           + (if !updateFails && file.Some? && OldImage(w.products[key]).Some?
              then [RemoveFile(OldImage(w.products[key]).value)] else [])
  }

  /** The call list of an update: a delete comes last, after the upload and
      the UPDATE; an UPDATE is issued exactly when the update runs. */
  lemma CallListOrder(config: StorageService.Config, w: World, id: string, tenant: string, body: Record,
                      file: Option<LocalStorage.UploadedFile>, io: LocalStorage.UploadIo, updateFails: bool, p: string)
    ensures var calls := UpdateCallList(config, w, id, tenant, body, file, io, updateFails);
      var key := Key(tenant, id);
      && (RemoveFile(p) in calls ==>
            UpdateRemoves(config, w, id, tenant, body, file, io, updateFails)
            && OldImage(w.products[key]) == Some(p)
            && calls == [SelectRow(key), StoreFile(tenant), UpdateRow(key), RemoveFile(p)])
      && (UpdateRow(key) in calls <==> UpdateRuns(config, w, id, tenant, body, file, io))
      && (UpdateRemoves(config, w, id, tenant, body, file, io, updateFails) ==>
            RemoveFile(OldImage(w.products[key]).value) in calls)
  {
  }

  /** What an update does to the call list: it appends its call list. */
  lemma UpdateCalls(config: StorageService.Config, w: World, id: string, tenant: string, body: Record,
                    file: Option<LocalStorage.UploadedFile>, io: LocalStorage.UploadIo,
                    updateFails: bool, unlinkFails: bool, now: JsValue)
    ensures var out := UpdateOutcome(config, w, id, tenant, body, file, io, updateFails, unlinkFails, now);
      && out.1.calls == w.calls + UpdateCallList(config, w, id, tenant, body, file, io, updateFails)
      && out.1.calls[|w.calls|..] == UpdateCallList(config, w, id, tenant, body, file, io, updateFails)
  {
    if UpdateFinds(w, id, tenant, body) {
      FoundUpdateCalls(config, w, id, tenant, body, file, io, updateFails, unlinkFails, now);
    }
  }

  lemma FoundUpdateCalls(config: StorageService.Config, w: World, id: string, tenant: string, body: Record,
                         file: Option<LocalStorage.UploadedFile>, io: LocalStorage.UploadIo,
                         updateFails: bool, unlinkFails: bool, now: JsValue)
    requires UpdateFinds(w, id, tenant, body)
    ensures UpdateOutcome(config, w, id, tenant, body, file, io, updateFails, unlinkFails, now).1.calls
      == w.calls + UpdateCallList(config, w, id, tenant, body, file, io, updateFails)
  {
    var out := UpdateOutcome(config, w, id, tenant, body, file, io, updateFails, unlinkFails, now);
    var key := Key(tenant, id);
    assert out == ExistingOutcome(config, w, key, body, file, io, updateFails, unlinkFails, now);
    if UpdateRuns(config, w, id, tenant, body, file, io) {
      CommittedUpdateCalls(config, w, key, body, file, io, updateFails, unlinkFails, now);
    } else {
      assert out.1.calls == w.calls + [SelectRow(key)] + (if file.Some? then [StoreFile(tenant)] else []);
    }
  }

  lemma CommittedUpdateCalls(config: StorageService.Config, w: World, key: Key, body: Record,
                             file: Option<LocalStorage.UploadedFile>, io: LocalStorage.UploadIo,
                             updateFails: bool, unlinkFails: bool, now: JsValue)
    requires UpdateRuns(config, w, key.id, key.tenant, body, file, io)
    ensures ExistingOutcome(config, w, key, body, file, io, updateFails, unlinkFails, now).1.calls
      == w.calls + UpdateCallList(config, w, key.id, key.tenant, body, file, io, updateFails)
  {
    var up := StoreImage(config, w.disk, file, key.tenant, io);
    var uploaded := w.calls + [SelectRow(key)] + (if file.Some? then [StoreFile(key.tenant)] else []);
    assert ExistingOutcome(config, w, key, body, file, io, updateFails, unlinkFails, now)
      == CommitOutcome(config, World(w.products, uploaded, up.1), key, body, up.0.value,
                       updateFails, unlinkFails, now);
    assert file.Some? <==> up.0.value.Some?;
  }

  /** What an update does to the files: the only file it can lose is the old
      image it deletes. */
  lemma UpdateFiles(config: StorageService.Config, w: World, id: string, tenant: string, body: Record,
                    file: Option<LocalStorage.UploadedFile>, io: LocalStorage.UploadIo,
                    updateFails: bool, unlinkFails: bool, now: JsValue)
    ensures !UpdateRemoves(config, w, id, tenant, body, file, io, updateFails) ==>
      w.disk.files.Keys <= UpdateOutcome(config, w, id, tenant, body, file, io, updateFails, unlinkFails, now).1.disk.files.Keys
    ensures UpdateRemoves(config, w, id, tenant, body, file, io, updateFails) ==>
      w.disk.files.Keys - {OldImage(w.products[Key(tenant, id)]).value}
      <= UpdateOutcome(config, w, id, tenant, body, file, io, updateFails, unlinkFails, now).1.disk.files.Keys
  {
    var out := UpdateOutcome(config, w, id, tenant, body, file, io, updateFails, unlinkFails, now);
    var key := Key(tenant, id);
    if UpdateFinds(w, id, tenant, body) {
      var up := StoreImage(config, w.disk, file, tenant, io);
      var uploaded := w.calls + [SelectRow(key)] + (if file.Some? then [StoreFile(tenant)] else []);
      assert w.disk.files.Keys <= up.1.files.Keys;
      assert out == ExistingOutcome(config, w, key, body, file, io, updateFails, unlinkFails, now);
      if UpdateRuns(config, w, id, tenant, body, file, io) {
        assert out == CommitOutcome(config, World(w.products, uploaded, up.1), key, body, up.0.value,
                                    updateFails, unlinkFails, now);
        assert file.Some? <==> up.0.value.Some?;
      } else {
        assert out.1.disk == up.1;
      }
    }
  }

  /** Lines 145-152: the old image is deleted only after the UPDATE, and
      only when a new file was uploaded and an old `image_url` existed. */
  lemma OldImageDeletedAfterUpdate(config: StorageService.Config, w: World, id: string, tenant: string, body: Record,
                                   file: Option<LocalStorage.UploadedFile>, io: LocalStorage.UploadIo,
                                   updateFails: bool, unlinkFails: bool, now: JsValue, p: string)
    ensures var out := UpdateOutcome(config, w, id, tenant, body, file, io, updateFails, unlinkFails, now);
      var key := Key(tenant, id);
      RemoveFile(p) in out.1.calls[|w.calls|..] ==>
        && key in w.products && file.Some? && OldImage(w.products[key]) == Some(p)
        && out.1.calls[|w.calls|..] == [SelectRow(key), StoreFile(tenant), UpdateRow(key), RemoveFile(p)]
  {
    UpdateCalls(config, w, id, tenant, body, file, io, updateFails, unlinkFails, now);
    CallListOrder(config, w, id, tenant, body, file, io, updateFails, p);
  }

  /** An update loses no file it did not ask to delete: in particular, an
      update that fails or is refused keeps the old image. */
  lemma UpdateKeepsOtherFiles(config: StorageService.Config, w: World, id: string, tenant: string, body: Record,
                              file: Option<LocalStorage.UploadedFile>, io: LocalStorage.UploadIo,
                              updateFails: bool, unlinkFails: bool, now: JsValue, p: string)
    ensures var out := UpdateOutcome(config, w, id, tenant, body, file, io, updateFails, unlinkFails, now);
      p in w.disk.files && RemoveFile(p) !in out.1.calls[|w.calls|..] ==> p in out.1.disk.files
  {
    var key := Key(tenant, id);
    UpdateCalls(config, w, id, tenant, body, file, io, updateFails, unlinkFails, now);
    UpdateFiles(config, w, id, tenant, body, file, io, updateFails, unlinkFails, now);
    if UpdateRemoves(config, w, id, tenant, body, file, io, updateFails) {
      CallListOrder(config, w, id, tenant, body, file, io, updateFails, OldImage(w.products[key]).value);
    }
  }

  /** A successful update with a new file deletes the old image. */
  lemma UpdateDeletesOldImage(config: StorageService.Config, w: World, id: string, tenant: string, body: Record,
                              file: Option<LocalStorage.UploadedFile>, io: LocalStorage.UploadIo,
                              updateFails: bool, unlinkFails: bool, now: JsValue, p: string)
    requires Key(tenant, id) in w.products && file.Some? && OldImage(w.products[Key(tenant, id)]) == Some(p)
    ensures var out := UpdateOutcome(config, w, id, tenant, body, file, io, updateFails, unlinkFails, now);
      out.0.Sent? && out.0.status == 200 ==> RemoveFile(p) in out.1.calls[|w.calls|..]
  {
    var out := UpdateOutcome(config, w, id, tenant, body, file, io, updateFails, unlinkFails, now);
    UpdateCalls(config, w, id, tenant, body, file, io, updateFails, unlinkFails, now);
    CallListOrder(config, w, id, tenant, body, file, io, updateFails, p);
    if out.0.Sent? && out.0.status == 200 {
      assert UpdateRemoves(config, w, id, tenant, body, file, io, updateFails);
    }
  }

  /** Lines 132-154: a committed update replaces the row by its patch (see
      `ProductQueries.UpdateMeaning`) and leaves every other row alone. */
  lemma UpdatePatchesRow(config: StorageService.Config, w: World, id: string, tenant: string, body: Record,
                         file: Option<LocalStorage.UploadedFile>, io: LocalStorage.UploadIo,
                         updateFails: bool, unlinkFails: bool, now: JsValue)
    ensures var out := UpdateOutcome(config, w, id, tenant, body, file, io, updateFails, unlinkFails, now);
      var key := Key(tenant, id);
      out.0.Sent? && out.0.status == 200 ==>
        && key in w.products
        && var image := StoreImage(config, w.disk, file, tenant, io).0;
        && image.Ok?
        && out.1.products == w.products[key := ProductQueries.Patched(w.products[key], body, image.value, now)]
        && out.0.payload == WithProduct(UpdatedMessage, WithFullImageUrl(config, out.1.products[key]))
  {
    var out := UpdateOutcome(config, w, id, tenant, body, file, io, updateFails, unlinkFails, now);
    var key := Key(tenant, id);
    if out.0.Sent? && out.0.status == 200 {
      assert UpdateRuns(config, w, id, tenant, body, file, io) && !updateFails;
      assert out == ExistingOutcome(config, w, key, body, file, io, updateFails, unlinkFails, now);
    }
  }

  /** An update that never reaches its UPDATE leaves the table as it was. */
  lemma UncommittedUpdateKeepsTable(config: StorageService.Config, w: World, id: string, tenant: string, body: Record,
                                    file: Option<LocalStorage.UploadedFile>, io: LocalStorage.UploadIo,
                                    updateFails: bool, unlinkFails: bool, now: JsValue)
    ensures var out := UpdateOutcome(config, w, id, tenant, body, file, io, updateFails, unlinkFails, now);
      UpdateRow(Key(tenant, id)) !in out.1.calls[|w.calls|..] || updateFails ==> out.1.products == w.products
  {
    UpdateCalls(config, w, id, tenant, body, file, io, updateFails, unlinkFails, now);
    CallListOrder(config, w, id, tenant, body, file, io, updateFails, "");
    if UpdateFinds(w, id, tenant, body) {
      UnpatchedProducts(config, w, Key(tenant, id), body, file, io, updateFails, unlinkFails, now);
    }
  }

  lemma UnpatchedProducts(config: StorageService.Config, w: World, key: Key, body: Record,
                          file: Option<LocalStorage.UploadedFile>, io: LocalStorage.UploadIo,
                          updateFails: bool, unlinkFails: bool, now: JsValue)
    requires UpdateFinds(w, key.id, key.tenant, body)
    ensures !UpdateRuns(config, w, key.id, key.tenant, body, file, io) || updateFails ==>
      ExistingOutcome(config, w, key, body, file, io, updateFails, unlinkFails, now).1.products == w.products
  {
    if UpdateRuns(config, w, key.id, key.tenant, body, file, io) && updateFails {
      var up := StoreImage(config, w.disk, file, key.tenant, io);
      var uploaded := w.calls + [SelectRow(key)] + (if file.Some? then [StoreFile(key.tenant)] else []);
      assert ExistingOutcome(config, w, key, body, file, io, updateFails, unlinkFails, now)
        == CommitOutcome(config, World(w.products, uploaded, up.1), key, body, up.0.value,
                         updateFails, unlinkFails, now);
    }
  }

  /** Lines 120-152 under the object storage driver: no update ever calls
      `deleteFile`, which that driver does not export, so the TypeError of
      calling it is never raised and no file of the disk is lost. */
  lemma ObjectStorageUpdateNeverDeletes(config: StorageService.Config, w: World, id: string, tenant: string,
                                        body: Record, file: Option<LocalStorage.UploadedFile>,
                                        io: LocalStorage.UploadIo, updateFails: bool, unlinkFails: bool,
                                        now: JsValue, p: string)
    requires config.driver == StorageService.S3
    ensures var out := UpdateOutcome(config, w, id, tenant, body, file, io, updateFails, unlinkFails, now);
      RemoveFile(p) !in out.1.calls[|w.calls|..] && out.1.disk.files == w.disk.files
  {
    UpdateCalls(config, w, id, tenant, body, file, io, updateFails, unlinkFails, now);
    CallListOrder(config, w, id, tenant, body, file, io, updateFails, p);
    ObjectStorageNeverDeletes(config, w.disk, file, tenant, io);
    UpdateFiles(config, w, id, tenant, body, file, io, updateFails, unlinkFails, now);
  }

  /** Lines 163-180: a delete removes exactly the addressed row. */
  lemma DeleteRemovesRow(w: World, id: string, tenant: string)
    ensures Key(tenant, id) in w.products ==>
      DeleteOutcome(w, id, tenant).0 == Sent(200, Message(DeletedMessage))
      && DeleteOutcome(w, id, tenant).1.products == w.products - {Key(tenant, id)}
    ensures Key(tenant, id) !in w.products ==> DeleteOutcome(w, id, tenant).1.products == w.products
  {
  }

  /** The handlers' world: the `products` table, the driver chosen at start-up
      with the disk the local driver writes, and the calls made so far. */
  class ProductService {
    var products: map<Key, Record>
    var calls: seq<Call>
    const storage: StorageService.Config
    const disk: LocalStorage.Disk

    function Snapshot(): World
      reads this, disk
    {
      World(products, calls, disk.State())
    }

    predicate Valid()
      reads this, disk
    {
      ValidWorld(Snapshot())
    }

    constructor (storage: StorageService.Config, disk: LocalStorage.Disk)
      ensures this.storage == storage && this.disk == disk
      ensures products == map[] && calls == []
      ensures Valid()
    {
      this.storage := storage;
      this.disk := disk;
      products := map[];
      calls := [];
    }

    /** `createProduct`, step by step. */
    method CreateProduct(tenant: string, body: Record, file: Option<LocalStorage.UploadedFile>,
                         io: LocalStorage.UploadIo, newId: string, insertFault: Option<Failure>)
      returns (reply: Reply)
      requires Valid()
      modifies this, disk
      ensures Valid()
      ensures (reply, Snapshot()) == CreateOutcome(storage, old(Snapshot()), tenant, body, file, io, newId, insertFault)
    {
      if !Truthy(Get(body, "name")) || !Truthy(Get(body, "barcode")) || !Truthy(Get(body, "buy_price"))
         || !Truthy(Get(body, "sell_price")) || !Truthy(Get(body, "current_stock")) {
        return Sent(400, Message(MissingFieldsMessage));
      }
      var stored := Store(file, tenant, io);
      if stored.Err? {
        return CreateError(Thrown(stored.error));
      }
      var normalized := TextUtils.NormalizeText(Get(body, "name"));
      if normalized.Err? {
        return CreateError(Thrown(normalized.error));
      }
      reply := Insert(Key(tenant, newId), body, normalized.value, stored.value, insertFault);
    }

    /** The upload when a file is present (lines 16-19 and 119-125): no file
        leaves the path `null` and the disk alone. */
    method Store(file: Option<LocalStorage.UploadedFile>, tenant: string, io: LocalStorage.UploadIo)
      returns (image: Result<Option<string>, string>)
      modifies this, disk
      ensures (image, disk.State()) == StoreImage(storage, old(disk.State()), file, tenant, io)
      ensures calls == old(calls) + (if file.Some? then [StoreFile(tenant)] else [])
      ensures products == old(products)
    {
      image := Ok(None);
      if file.Some? {
        calls := calls + [StoreFile(tenant)];
        var r := StorageService.Upload(storage, disk, file.value, tenant, io);
        if r.Err? {
          return Err(r.error);
        }
        image := Ok(Some(r.value));
      }
    }

    /** Lines 28-42, step by step. */
    method Insert(key: Key, body: Record, normalized: string, image: Option<string>, insertFault: Option<Failure>)
      returns (reply: Reply)
      modifies this
      ensures (reply, Snapshot()) == InsertOutcome(storage, old(Snapshot()), key, body, normalized, image, insertFault)
    {
      ghost var w := Snapshot();
      calls := calls + [InsertRow(key)];
      var failure := InsertFailure(products, key, insertFault);
      if failure.Some? {
        assert InsertOutcome(storage, w, key, body, normalized, image, insertFault)
          == (CreateError(failure.value), World(w.products, calls, w.disk));
        return CreateError(failure.value);
      }
      var row := NewRow(key, body, normalized, image);
      products := products[key := row];
      reply := Sent(201, WithProduct(CreatedMessage, WithFullImageUrl(storage, row)));
      assert InsertOutcome(storage, w, key, body, normalized, image, insertFault)
        == (reply, World(products, calls, w.disk));
    }

    /** `updateProduct`, step by step: the builder, then the lookup. */
    method UpdateProduct(id: string, tenant: string, body: Record, file: Option<LocalStorage.UploadedFile>,
                         io: LocalStorage.UploadIo, updateFails: bool, unlinkFails: bool, now: JsValue)
      returns (reply: Reply)
      requires Valid()
      modifies this, disk
      ensures Valid()
      ensures (reply, Snapshot())
        == UpdateOutcome(storage, old(Snapshot()), id, tenant, body, file, io, updateFails, unlinkFails, now)
    {
      var updates, values, paramIndex, failure := ProductQueries.BuildUpdates(body);
      if failure.Some? {
        return Unhandled(failure.value);
      }
      var key := Key(tenant, id);
      if key !in products {
        calls := calls + [SelectRow(key)];
        return Sent(404, Message(NotFoundMessage));
      }
      ghost var w := Snapshot();
      assert UpdateOutcome(storage, w, id, tenant, body, file, io, updateFails, unlinkFails, now)
        == ExistingOutcome(storage, w, key, body, file, io, updateFails, unlinkFails, now);
      reply := UpdateExisting(key, body, file, io, updateFails, unlinkFails, now, updates, values, paramIndex);
    }

    /** Lines 109-159 once the row exists: the upload pushes the
        `image_url` clause, `updated_at` and the WHERE values are pushed, the
        store runs the statement, and the old image goes last. */
    method UpdateExisting(key: Key, body: Record, file: Option<LocalStorage.UploadedFile>,
                          io: LocalStorage.UploadIo, updateFails: bool, unlinkFails: bool, now: JsValue,
                          updates0: seq<ProductQueries.SetClause>, values0: seq<JsValue>, paramIndex0: nat)
      returns (reply: Reply)
      requires key in products && !ProductQueries.BuilderThrows(body)
      requires (updates0, values0) == ProductQueries.Built(body, ProductQueries.AllowedFields)
      requires paramIndex0 == |values0| + 1
      modifies this, disk
      ensures (reply, Snapshot())
        == ExistingOutcome(storage, old(Snapshot()), key, body, file, io, updateFails, unlinkFails, now)
    {
      ghost var w := Snapshot();
      ghost var up := StoreImage(storage, w.disk, file, key.tenant, io);
      calls := calls + [SelectRow(key)];
      var stored := Store(file, key.tenant, io);
      assert stored == up.0 && disk.State() == up.1;
      if stored.Err? {
        return Sent(500, Message(UpdateFailedMessage));
      }
      var image := stored.value;
      var updates, values, paramIndex := updates0, values0, paramIndex0;
      if image.Some? {
        updates := updates + [ProductQueries.Assign("image_url", paramIndex)];
        values := values + [Str(image.value)];
        paramIndex := paramIndex + 1;
      }
      assert image.Some? <==> file.Some?;
      if |updates| == 0 {
        assert NoFields(body) && file.None?;
        return Sent(400, Message(NoFieldsMessage));
      }
      assert !(NoFields(body) && file.None?);
      assert ExistingOutcome(storage, w, key, body, file, io, updateFails, unlinkFails, now)
        == CommitOutcome(storage, Snapshot(), key, body, image, updateFails, unlinkFails, now);
      reply := Commit(key, body, image, updates, values, paramIndex, updateFails, unlinkFails, now);
    }

    /** Lines 132-159, step by step: `updated_at` and the WHERE values are
        pushed, the store runs the statement, and the old image goes last. */
    method Commit(key: Key, body: Record, image: Option<string>,
                  updates0: seq<ProductQueries.SetClause>, values0: seq<JsValue>, paramIndex: nat,
                  updateFails: bool, unlinkFails: bool, now: JsValue)
      returns (reply: Reply)
      requires key in products
      requires updates0 == ProductQueries.Built(body, ProductQueries.AllowedFields).0
        + (if image.Some? then [ProductQueries.Assign("image_url", |ProductQueries.Built(body, ProductQueries.AllowedFields).1| + 1)] else [])
      requires values0 == ProductQueries.Built(body, ProductQueries.AllowedFields).1
        + (if image.Some? then [Str(image.value)] else [])
      requires paramIndex == |values0| + 1
      modifies this, disk
      ensures (reply, Snapshot()) == CommitOutcome(storage, old(Snapshot()), key, body, image, updateFails, unlinkFails, now)
    {
      var current := products[key];
      var oldImage := OldImage(current);
      var updates := updates0 + [ProductQueries.SetNow("updated_at")];
      var q := ProductQueries.UpdateStatement(updates, paramIndex, paramIndex + 1);
      var values := values0 + [Str(key.id), Str(key.tenant)];
      assert q == ProductQueries.UpdateQuery(body, image);
      assert values == ProductQueries.UpdateValues(body, image, key.id, key.tenant);
      ghost var w := Snapshot();
      calls := calls + [UpdateRow(key)];
      if updateFails {
        return Sent(500, Message(UpdateFailedMessage));
      }
      UpdateTargetsKey(products, body, image, key, now);
      ghost var patched := ProductQueries.Patched(current, body, image, now);
      products := ExecuteUpdate(products, q, values, now);
      assert products == w.products[key := patched];
      reply := Sent(200, WithProduct(UpdatedMessage, WithFullImageUrl(storage, products[key])));
      if image.Some? && oldImage.Some? {
        calls := calls + [RemoveFile(oldImage.value)];
        var d := StorageService.DeleteFile(storage, disk, oldImage, unlinkFails);
        if d.Err? {
          reply := Sent(500, Message(UpdateFailedMessage));
        }
      }
    }

    /** `deleteProduct`, step by step. */
    method DeleteProduct(id: string, tenant: string) returns (reply: Reply)
      requires Valid()
      modifies this
      ensures Valid()
      ensures (reply, Snapshot()) == DeleteOutcome(old(Snapshot()), id, tenant)
    {
      var key := Key(tenant, id);
      calls := calls + [DeleteRow(key)];
      var rowCount := if key in products then 1 else 0;
      if rowCount == 0 {
        return Sent(404, Message(NotFoundMessage));
      }
      products := products - {key};
      reply := Sent(200, Message(DeletedMessage));
    }
  }
}
