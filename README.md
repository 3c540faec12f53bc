# Product catalogue core of a multi-tenant clinic backend, in Dafny

This project models the product part of an Express/PostgreSQL backend. Every
product belongs to one tenant. It also models the pieces those handlers rely
on.

- **Text normalisation.** `normalizeText` folds the Turkish letters, lower-cases
  and trims. It produces the `normalized_name` column.
- **Storage drivers.** The local-disk driver writes files under `uploads/<tenant>/`
  and returns a locator. The object-storage driver is a stub that always
  throws on upload. The driver is picked once from `STORAGE_DRIVER`.
- **Bearer-token gate.** It turns `Authorization: Bearer <jwt>` into `req.user`,
  or answers 401.
- **Product handlers:**
  - `createProduct`: validation, upload, normalisation, INSERT, and mapping the
    store's error to 409 or 500;
  - `getProducts`: each row gets `full_image_url`;
  - `updateProduct`: the dynamic `SET` builder, the lookup, the upload, the 400
    for "no fields", the UPDATE, and the old image deleted after the UPDATE;
  - `deleteProduct`: the 404 when no row was affected.

The model is built in layers:

- **Values.** JavaScript values (`JsValues.JsValue`) carry the truthiness the
  source tests. Request bodies and rows are `map<string, JsValue>`.
- **Pure code** (the text pipeline, URL resolution, the error mapping, the
  builder's meaning) is written as functions with named results, plus lemmas
  about them.
- **Code that changes state** is written as methods:
  - the disk (`LocalStorage.Disk`);
  - the request/response exchange of the gate (`Auth.Exchange`);
  - the product table with the call log (`ProductController.ProductService`);
  - the builder's `forEach` loop (`ProductQueries.BuildUpdates`).

  Each method is proved against a specification function of the old state:
  `CreateOutcome`, `UpdateOutcome`, `DeleteOutcome`, `UploadEffect`,
  `DeleteEffect` and `Built`. The properties the source promises are lemmas
  about those functions.
- **The environment.** Every outside decision is a parameter:
  - `Date.now()`, `uuidv4()`, `path.extname` and the failures of `mkdir`/`writeFile`
    are in `LocalStorage.UploadIo`;
  - the store's failures, the generated id and `jwt.verify`;
  - the environment variables; and `CURRENT_TIMESTAMP` (`now`).
- **The call log.** The product handlers record each call to the store and to the
  driver (`ProductController.Call`). This lets the lemmas state the order of the
  calls: upload before INSERT, and UPDATE before the old image is removed.

## Model

| member | source | states |
|---|---|---|
| TextUtils.NormalizeText | src/utils/textUtils.js:1-13 | A falsy argument gives `""`. A string yields the pipeline's result. Any other truthy value fails with the `text.replace is not a function` TypeError. |
| TextUtils.Normalize | src/utils/textUtils.js:4-12 | The string path of `normalizeText`: the replace chain, then `toLowerCase`, then `trim`. The result is never longer than the input. |
| TextUtils.ReplaceTurkish | src/utils/textUtils.js:5-10 | The chain of thirteen global replaces, applied in source order. Each one maps a character to one character, so the length is kept. |
| TextUtils.LowerChar | src/utils/textUtils.js:11 | The lower-cased character is never an ASCII capital. |
| TextUtils.ToLowerCase | src/utils/textUtils.js:11 | `toLowerCase` works character by character and keeps the length. |
| TextUtils.SkipSpace | src/utils/textUtils.js:12 | The first non-whitespace position at or after `i`. Everything skipped is whitespace. |
| TextUtils.BackSpace | src/utils/textUtils.js:12 | The end of a slice once its trailing whitespace is dropped. Everything dropped is whitespace. |
| TextUtils.Trim | src/utils/textUtils.js:12 | `trim` returns the contiguous slice between leading and trailing whitespace. That slice neither starts nor ends with whitespace. |
| TextUtils.FoldPerCharacter | src/utils/textUtils.js:4-11 | The replace chain followed by lower-casing equals an independent per-character fold. |
| TextUtils.TurkishLettersFold | src/utils/textUtils.js:5-11 | İ, I and ı become i; Ğ/ğ become g; Ü/ü become u; Ş/ş become s; Ö/ö become o; Ç/ç become c. ASCII capitals are lowered and every other character is kept. |
| TextUtils.NormalizeIsTrimOfFolded | src/utils/textUtils.js:4-12 | Normalising is folding and then trimming. |
| TextUtils.NormalizeAlphabet | src/utils/textUtils.js:4-12 | Normalised text holds no Turkish letter and no ASCII capital. |
| TextUtils.NormalizeShape | src/utils/textUtils.js:4-12 | The result is never longer than the input and is already trimmed. |
| TextUtils.TrimTrimmed | src/utils/textUtils.js:12 | Trimming trimmed text changes nothing. |
| TextUtils.NormalizeIdempotent | src/utils/textUtils.js:4-12 | Normalising twice is the same as normalising once. |
| TextUtils.NormalizeTextIdempotent | src/utils/textUtils.js:1-13 | `normalizeText` applied to its own output returns the same output. |
| TextUtils.NormalizeEmpty | src/utils/textUtils.js:2 | The empty string, and every falsy argument (`undefined`, `null`, `false`, `0`, `""`), normalise to `""`. |
| LocalStorage.Locator | src/services/storage/local.js:40 | The stored locator has no backslash and starts with `uploads/`. |
| LocalStorage.Filename | src/services/storage/local.js:22-24 | The file name `img_<time>-<uuid><ext>`. Its property is `FilenameDistinct`: distinct inputs give distinct names. |
| LocalStorage.TenantDir | src/services/storage/local.js:26 | The tenant's directory `uploads/<destination>`. `UploadEffect` states that a successful upload leaves it on disk. |
| LocalStorage.JoinPath | src/services/storage/local.js:33 | `path.join` of three segments, written as joining them with `/`. `UploadEffect` names the written file by it. |
| LocalStorage.LocatorPlain | src/services/storage/local.js:40 | Without backslashes in its parts, the locator is exactly `uploads/<tenant>/<file>`. |
| LocalStorage.LocatorScoped | src/services/storage/local.js:26-40 | Equal locators mean the same tenant and the same file name. Two tenants' uploads never share a locator. |
| LocalStorage.FilenameDistinct | src/services/storage/local.js:22-24 | Different upload instants, random ids or extensions give different file names. |
| LocalStorage.BaseUrl | src/services/storage/local.js:59 | `ASSET_BASE_URL` when it is non-empty, otherwise `http://localhost:3000`. |
| LocalStorage.GetURL | src/services/storage/local.js:55-65 | A falsy path gives null. Otherwise the result is the base URL, `/`, and the path with one leading slash stripped. |
| LocalStorage.UploadedUrl | src/services/storage/local.js:40-65 | A fresh locator resolves to `<base>/uploads/<tenant>/<file>`. |
| LocalStorage.LeadingSlashCollapses | src/services/storage/local.js:62 | `"/a"` and `"a"` resolve to the same URL. Only one slash is stripped. |
| LocalStorage.UploadEffect | src/services/storage/local.js:16-48 | No file throws `No file provided for upload.` and touches nothing. A failed `mkdir` or write throws `Failed to save file.`. It removes no file, and the only file it can leave is whatever the failed write had put at the new path. Success stores the buffer under the tenant's directory and returns the locator. Directories are only ever added. |
| LocalStorage.DeleteEffect | src/services/storage/local.js:71-83 | A falsy path, or an unlink that fails, changes nothing and raises no error. Otherwise exactly that one file is removed. |
| LocalStorage.UploadThenDelete | src/services/storage/local.js:16-83 | Deleting the locator an upload returned removes the file that upload wrote and nothing else. |
| LocalStorage.Disk.constructor | src/services/storage/local.js:8 | A disk starts in the given state. |
| LocalStorage.Disk.Upload | src/services/storage/local.js:16-48 | The step-by-step upload returns, and leaves on disk, exactly what `UploadEffect` says. |
| LocalStorage.Disk.DeleteFile | src/services/storage/local.js:71-83 | The step-by-step delete leaves exactly the files `DeleteEffect` says and keeps the directories. |
| S3Storage.Upload | src/services/storage/s3.js:22-61 | Upload always throws `S3 storage is not implemented yet.` |
| S3Storage.GetURL | src/services/storage/s3.js:68-84 | A falsy key gives null. With no base URL the key itself is returned. Otherwise the result is `<base>/<key>`. |
| S3Storage.GetURLInjective | src/services/storage/s3.js:68-84 | Distinct keys resolve to distinct URLs. |
| S3Storage.LeadingSlashKept | src/services/storage/s3.js:83 | A leading slash is kept, which gives `//`. The local driver strips it. |
| StorageService.SelectDriver | src/services/storage/index.js:5-19 | The object-storage driver is chosen exactly when `STORAGE_DRIVER` is `s3`. Anything else, or no value, selects the local driver. |
| StorageService.Exports | src/services/storage/index.js:21 | Both drivers export `upload` and `getURL`. Only the local driver exports `deleteFile`. |
| StorageService.GetURL | src/services/storage/index.js:21 | Resolution through the chosen driver gives null exactly for a falsy locator. |
| StorageService.UploadOutcome | src/services/storage/index.js:21 | With the object-storage driver, upload fails and leaves the disk unchanged. With the local driver it is the local upload. A failed upload never removes a file. |
| StorageService.DeleteOutcome | src/services/storage/index.js:21 | Calling `deleteFile` fails with a TypeError exactly when the driver exports none. Otherwise the call is the local delete. |
| StorageService.Upload | src/services/storage/index.js:21 | The method returns the upload of the selected driver and leaves the disk in the matching state. |
| StorageService.DeleteFile | src/services/storage/index.js:21 | The method deletes through the selected driver: the files follow `DeleteOutcome` and the directories are kept. |
| Auth.Secret | src/middlewares/authMiddleware.js:18 | The secret is `JWT_SECRET` when it is non-empty, otherwise the built-in default. |
| Auth.BearerToken | src/middlewares/authMiddleware.js:14 | `split(' ')[1]` exists exactly when the header holds a space, and the token holds no space. |
| Auth.BearerTokenIsSecondWord | src/middlewares/authMiddleware.js:14 | After `Bearer `, the token is the text up to the next space. |
| Auth.UserOf | src/middlewares/authMiddleware.js:22-26 | `req.user` holds exactly the `id`, `tenant_id` and `role` claims. |
| Auth.UserIgnoresOtherClaims | src/middlewares/authMiddleware.js:22-26 | No other claim affects `req.user`. |
| Auth.RejectsWithoutBearerPrefix | src/middlewares/authMiddleware.js:9-11 | A missing or empty header, or one without the exact `Bearer ` prefix, gets 401 `Access denied. No token provided.` |
| Auth.Authenticate | src/middlewares/authMiddleware.js:6-34 | Every refusal carries one of the two 401 messages. An acceptance needs the `Bearer ` prefix, a token, and a payload from verification whose claims give the user. |
| Auth.AcceptIff | src/middlewares/authMiddleware.js:6-34 | A request is admitted, with user `u`, exactly when all three hold: the header has the prefix, a token follows it, and verification under the secret yields a payload whose claims give `u`. |
| Auth.Exchange.constructor | src/middlewares/authMiddleware.js:4 | A request with its header, before any response or `next`. |
| Auth.AuthMiddleware | src/middlewares/authMiddleware.js:4-35 | Each call adds exactly one response or one call to `next`. A rejection sends 401 with its message and leaves `req.user` untouched. An acceptance sets `req.user` and calls `next` once. |
| ProductQueries.Columns | src/controllers/productController.js:86-105 | The columns of a SET list, position by position. |
| ProductQueries.Step | src/controllers/productController.js:94-103 | One field of the `forEach`: an absent field adds nothing. A present one appends as many clauses as values and keeps what was built. |
| ProductQueries.Built | src/controllers/productController.js:93-105 | The builder loop as a function. It gives as many clauses as values. |
| ProductQueries.BuildUpdates | src/controllers/productController.js:86-105 | On every path the builder loop returns the clauses and values of `Built`, with `paramIndex` one past the values. It throws exactly when `name` is present and is not text. |
| ProductQueries.BuiltPlaceholders | src/controllers/productController.js:86-105 | There is one value per clause, and clause `k` reads placeholder `$k+1`. |
| ProductQueries.BuiltColumns | src/controllers/productController.js:86-105 | The clauses name the present fields in allowed-field order. `normalized_name` comes right after `name`. |
| ProductQueries.BuiltValues | src/controllers/productController.js:93-101 | Each bound value is the body's value for its column. The `normalized_name` value is the normalised name. |
| ProductQueries.ExpectedColumnsHas | src/controllers/productController.js:91-105 | A column is set exactly when it is a present field, or it is `normalized_name` and `name` is present. |
| ProductQueries.ExpectedColumnsDistinct | src/controllers/productController.js:91-105 | No column is set twice. |
| ProductQueries.ApplySetsAt | src/controllers/productController.js:136-141 | With distinct columns, `SET` writes each named column with its clause's value and keeps every other column. |
| ProductQueries.ApplySets | src/controllers/productController.js:136-141 | `SET` keeps every column of the row and writes every column it names. |
| ProductQueries.UpdateBindings | src/controllers/productController.js:119-143 | The statement's placeholders match its values: SET parameters come first, then `id` at `paramIndex`, then the tenant after it. |
| ProductQueries.UpdateColumnsDistinct | src/controllers/productController.js:119-138 | No column of the SET list is set twice. |
| ProductQueries.UpdateSets | src/controllers/productController.js:119-133 | The SET list ends in `updated_at = CURRENT_TIMESTAMP`. When a file was uploaded, `image_url` comes right before it. |
| ProductQueries.UpdateValues | src/controllers/productController.js:119-143 | The values end with the id and then the tenant. When a file was uploaded, its path comes right before them. |
| ProductQueries.UpdateQuery | src/controllers/productController.js:136-141 | The tenant placeholder comes right after the id placeholder, and it is the last value. |
| ProductQueries.Patched | src/controllers/productController.js:86-143 | The intended patch: which columns it has, and the value each column takes. |
| ProductQueries.ClauseAtPosition | src/controllers/productController.js:119-143 | Gives the column and value of the clause at each position of the statement. |
| ProductQueries.SetColumns | src/controllers/productController.js:119-143 | The statement sets exactly the columns the patch writes. |
| ProductQueries.UpdateMeaning | src/controllers/productController.js:119-147 | Running the built statement on a row gives exactly the patch. |
| ProductQueries.PatchedKeepsIdentity | src/controllers/productController.js:136-141 | An update never changes `id` or `tenant_id`. |
| ProductController.CreateError | src/controllers/productController.js:44-50 | 409 exactly for a 23505 on a constraint naming `barcode`. Every other error is 500 with the error's message, or the default message. |
| ProductController.Complete | src/controllers/productController.js:12 | The required-field test: all five fields truthy (its rule is `CreateRejectsIncomplete`). |
| ProductController.DuplicateBarcode | src/controllers/productController.js:46 | Code `23505` and a non-empty constraint name containing `barcode` (its rule is `CreateError`). |
| ProductController.ThrownIs500 | src/controllers/productController.js:44-50 | A thrown error (upload, normalisation) always gives 500 with its own message. |
| ProductController.InsertFailure | src/controllers/productController.js:28-35 | A store fault is passed on unchanged. Otherwise the insert fails, with a 23505, exactly when some row of any tenant already has the id, since `id` alone is the primary key. On success the key was free. |
| ProductController.IdTaken | src/controllers/productController.js:28-35 | Some row, of any tenant, has the id. |
| ProductController.UniqueIds | src/controllers/productController.js:28-35 | No two rows share an id. Every outcome keeps this. |
| ProductController.UniqueIdsOverwrite | src/controllers/productController.js:145 | Replacing an existing row keeps ids unique. |
| ProductController.ExistingKeepsValid | src/controllers/productController.js:116-159 | The update of a found row keeps every row well keyed and the ids unique. |
| ProductController.ExistingKeepsIds | src/controllers/productController.js:116-159 | The update of a found row keeps ids unique. |
| ProductController.OtherConstraintIs500 | src/controllers/productController.js:46 | A unique violation whose constraint name does not contain `barcode` gives 500. |
| ProductController.NoBarcodeWithoutB | src/controllers/productController.js:46 | A constraint name without the letter `b` cannot contain `barcode`. |
| ProductController.IdCollisionIs500 | src/controllers/productController.js:28-50 | A primary-key collision gives 500, not 409. |
| ProductController.NewRow | src/controllers/productController.js:28-33 | The INSERT stores the key, the five body fields, the normalised name and the image path. |
| ProductController.WithFullImageUrl | src/controllers/productController.js:63-69 | The row is kept unchanged, plus `full_image_url` resolved from `image_url`. |
| ProductController.ProductsWithImages | src/controllers/productController.js:63-69 | The rows keep the order the query returned, and each gets its resolved URL. |
| ProductController.GetProducts | src/controllers/productController.js:55-77 | A query failure gives 500 with the fixed message `An error occurred while fetching products.`. Otherwise the answer is 200 with one product per row. |
| ProductController.GetProductsKeepsRows | src/controllers/productController.js:63-69 | Every listed product is its row plus `full_image_url`. In particular its tenant is kept. |
| ProductController.StoreImage | src/controllers/productController.js:16-23 | With no file, the path is null and the disk is untouched. Otherwise the result is the driver's upload. |
| ProductController.StoreImageErrorNonEmpty | src/controllers/productController.js:50 | Every upload error carries a message, so the 500 never falls back to the default. |
| ProductController.ObjectStorageNeverDeletes | src/controllers/productController.js:120-152 | Under object storage a file never uploads, so the update never reaches `deleteFile`, which that driver lacks. |
| ProductController.ObjectStorageUpdateNeverDeletes | src/controllers/productController.js:120-152 | Under object storage, no update of any world appends a `deleteFile` call, and the files stay as they were. |
| ProductController.ExecuteUpdate | src/controllers/productController.js:136-147 | The UPDATE needs three things: the statement's bindings, a row with that id and that tenant, and the SET applied to that row. |
| ProductController.UpdateTargetsKey | src/controllers/productController.js:136-147 | The statement the handler builds changes exactly the row with the request's id and tenant. |
| ProductController.NoFieldsIff | src/controllers/productController.js:86-130 | The builder produces nothing exactly when no allowed field is present. |
| ProductController.NoFields | src/controllers/productController.js:128 | The builder produced no clause (its rule is `NoFieldsIff`). |
| ProductController.OldImage | src/controllers/productController.js:117-152 | The old image is the row's `image_url` when it is a non-empty string. |
| ProductController.CreateOutcome | src/controllers/productController.js:7-52 | `createProduct` as a function of the world. It keeps rows well keyed and only appends calls. |
| ProductController.InsertOutcome | src/controllers/productController.js:28-50 | One INSERT call. The answer is 201, with the stored row and its URL, exactly when the insert succeeds. Otherwise the error mapping decides and the table is unchanged. |
| ProductController.ExistingOutcome | src/controllers/productController.js:116-159 | The update of a found row. It never changes the table before the UPDATE. |
| ProductController.CommitOutcome | src/controllers/productController.js:132-159 | A failed UPDATE gives 500 and changes nothing. A successful one patches the row and answers 200. The old image is deleted only after the UPDATE, and only when a new file was uploaded. |
| ProductController.UpdateOutcome | src/controllers/productController.js:80-160 | `updateProduct` as a function of the world. It keeps rows well keyed and only appends calls. |
| ProductController.UpdateKeepsValid | src/controllers/productController.js:132-147 | The patched row keeps its key, and its image is text or null. |
| ProductController.DeleteOutcome | src/controllers/productController.js:163-180 | One DELETE call. The answer is 200 and the row is removed exactly when the row exists. Otherwise the answer is 404. |
| ProductController.CreateRejectsIncomplete | src/controllers/productController.js:12-14 | A missing required field gives 400 before any call or upload, and nothing changes. |
| ProductController.CreateCallOrder | src/controllers/productController.js:16-35 | The upload happens exactly when there is a file, and it comes before the INSERT. The INSERT happens exactly when validation, upload and normalisation all pass. |
| ProductController.CreateCallList | src/controllers/productController.js:16-35 | Lists the calls a create appends, in order. |
| ProductController.CreateCallListOrder | src/controllers/productController.js:16-35 | The upload appears before the INSERT, and the INSERT appears exactly when the create inserts. |
| ProductController.CreateReachesInsert | src/controllers/productController.js:16-35 | A create that passes the upload and normalisation ends as the INSERT's outcome. |
| ProductController.CreateStopsEarly | src/controllers/productController.js:16-50 | A create that fails to upload or to normalise gives 500, leaves the table unchanged and makes no INSERT. |
| ProductController.CreateCalls | src/controllers/productController.js:7-52 | A create appends exactly its call list. Without a file it leaves the disk alone. A 201 means the INSERT was reached. |
| ProductController.CreateStoresRow | src/controllers/productController.js:16-42 | After a 201 the id was free and only the new row was added. That row holds `name`, `barcode`, `buy_price`, `sell_price` and `current_stock` from the body, the normalised name, and `image_url`: null without a file, the uploaded locator with one. The response is that row with its resolved URL. |
| ProductController.CreateConflict | src/controllers/productController.js:44-50 | The answer is 409 exactly when the store reports a duplicate barcode. Then the table is unchanged. |
| ProductController.UpdateBuilderThrows | src/controllers/productController.js:86-105 | A throwing builder leaves the request without a response, and nothing changes. |
| ProductController.NotFoundRule | src/controllers/productController.js:109-114 | Update and delete (lines 171-173) both answer 404 exactly when no row has the id and the tenant. The update then makes only the lookup. |
| ProductController.NoFieldsRule | src/controllers/productController.js:119-130 | 400 exactly when the row exists, no allowed field is present and there is no file. The table and disk are then unchanged. |
| ProductController.CallListOrder | src/controllers/productController.js:109-152 | A delete of the old image is always the last call, after the lookup, the upload and the UPDATE. The UPDATE is issued exactly when the update runs. |
| ProductController.UpdateCallList | src/controllers/productController.js:109-152 | Lists the calls an update appends: lookup, upload, UPDATE, old-image delete (its rules are `CallListOrder` and `UpdateCalls`). |
| ProductController.UpdateCalls | src/controllers/productController.js:80-160 | An update appends exactly its call list. |
| ProductController.UpdateFiles | src/controllers/productController.js:120-152 | The only file an update can lose is the old image, and only after a successful UPDATE with a new file. |
| ProductController.OldImageDeletedAfterUpdate | src/controllers/productController.js:145-152 | If the old image is removed, the UPDATE succeeded first and a new image was uploaded. |
| ProductController.UpdateKeepsOtherFiles | src/controllers/productController.js:120-152 | An update loses no file it did not ask to delete. A failed UPDATE loses none. |
| ProductController.UpdateDeletesOldImage | src/controllers/productController.js:145-152 | A 200 update with a new file, on a row that has an old image, issues the removal of that image. |
| ProductController.UpdatePatchesRow | src/controllers/productController.js:132-154 | A 200 update replaces the addressed row by its patch and leaves every other row alone. |
| ProductController.UncommittedUpdateKeepsTable | src/controllers/productController.js:80-160 | An update that does not reach a successful UPDATE leaves the table unchanged. |
| ProductController.DeleteRemovesRow | src/controllers/productController.js:163-180 | A delete removes exactly the addressed row. |
| ProductController.ProductService.constructor | src/controllers/productController.js:1-4 | The handlers start with an empty table and no calls. |
| ProductController.ProductService.CreateProduct | src/controllers/productController.js:7-52 | The step-by-step create gives the reply and the world of `CreateOutcome`. |
| ProductController.ProductService.Store | src/controllers/productController.js:16-23 | The step-by-step upload gives the result and the disk of `StoreImage`. It logs the upload only when there is a file. |
| ProductController.ProductService.Insert | src/controllers/productController.js:28-50 | The step-by-step INSERT gives the reply and the world of `InsertOutcome`. |
| ProductController.ProductService.UpdateProduct | src/controllers/productController.js:80-160 | The step-by-step update gives the reply and the world of `UpdateOutcome`. |
| ProductController.ProductService.UpdateExisting | src/controllers/productController.js:109-159 | The step-by-step update of a found row gives the result of `ExistingOutcome`. |
| ProductController.ProductService.Commit | src/controllers/productController.js:132-159 | The step-by-step UPDATE and deletion of the old image give the result of `CommitOutcome`. |
| ProductController.ProductService.DeleteProduct | src/controllers/productController.js:163-180 | The step-by-step delete gives the reply and the world of `DeleteOutcome`. |

## Where the code and the documented design differ

The model follows the code in each of these cases.

- **Update with a file and no fields.** The design says an update with no
  recognised fields is always a 400. In the code the 400 comes only when there
  is also no file. An update with only a file sets `image_url` and answers 200
  (see `NoFieldsRule`).
- **Orphaned uploads.** Neither handler removes a file it uploaded when a later
  step fails. A create whose normalisation or INSERT fails after the upload
  leaves the file (`CreateStopsEarly`, `InsertOutcome`). So does an update
  whose UPDATE fails after the upload. A failed write can also leave a partial
  file (`UploadEffect`).
- **Builder exception.** A truthy `name` that is not text makes the update
  builder throw before its `try` block. A falsy one (`null`, `false`, `0`)
  normalises to `""`. The handler then sends no response (`Unhandled` in the model).
- **Object storage has no `deleteFile`.** An update that reached the deletion
  would throw a TypeError. `ObjectStorageNeverDeletes` proves that this path
  cannot be reached, because object-storage uploads always fail first.
- **Delete leaves the image.** Deleting a product does not remove its stored
  image.
- **Schema.** The schema file `src/models/initDb.js` has no `normalized_name` or
  `updated_at` column. The model follows the controller, which writes both.

## Left out

- **Path handling.** `path.join` normalisation (`..`, `.`, repeated separators)
  and Windows separators are not modelled. Path segments are plain text joined
  with `/`. Only the backslash replacement of line 40 is kept.
- **Character repertoire.** `toLowerCase` lowers ASCII capitals only. The
  replace chain has already removed the twelve Turkish letters before it runs.
  Other non-ASCII uppercase letters are kept as they are, because full Unicode
  case mapping is out of scope. Similarly,
  `trim`'s whitespace set is spelled out, not taken from Unicode tables.
- **Numbers.** JavaScript numbers are mathematical reals. NaN, whose
  falsiness affects the required-field check, is not modelled.
- **SQL.** SQL text, the store's type coercion, column defaults and
  `created_at` are not modelled. The INSERT stores the values it binds, and
  the UPDATE's meaning is given by `ProductQueries.ApplySets`.
- **getProducts query.** The `SELECT … WHERE tenant_id … ORDER BY` of getProducts
  is the store's work. Its rows are an input to `ProductController.GetProducts`.
- **Unmodelled store failures.** The lookup `SELECT` of the update and the
  `DELETE` of the delete never fail in the model. Only the INSERT, the UPDATE
  and the list query take a failure parameter.
- **Concurrency.** Another request deleting the row between the update's lookup
  and its UPDATE (`rows[0]` undefined) is not modelled. Each handler runs alone
  against the table.
- **Identifiers.** `req.user.tenant_id` and the route id are taken as strings.
  Their `toString` conversion is not modelled.
- **Logging.** `console.log`/`console.error` are left out because they do not
  change any outcome.
- **Outside services.** `jwt.verify` (signature, expiry), `Date.now()`, `uuidv4()`,
  `path.extname` and the file-system failures are parameters. Their
  implementations are not part of this model. The same holds for the
  environment variables `STORAGE_DRIVER`, `ASSET_BASE_URL` and `JWT_SECRET`.
- **Directories on a failed `mkdir`.** A recursive `mkdir` that fails part-way
  is modelled as creating no directory.
- **Object-storage upload.** The object-storage driver's upload is a stub in
  the source. Only its throw is modelled.
- ProductController.UpdateOutcome: the update's reply reports the UPDATE's
  `RETURNING *` row as the patch of the stored row. Store-side coercion of the
  bound values is not captured.
