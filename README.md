# Book catalog API — Dafny model

This project models the request logic of a small book-catalog REST API
(`backend/routes/books.js`) and the `Book` document it stores
(`backend/models/Books.js`). It then proves properties of that model.

- **BookModel** (`book_model.dfy`) holds the `Book` record. `title`, `author`
  and `isbn` are required non-empty text and `imagePath` is optional. The unique
  index on `isbn` becomes the collection invariant `Conforms`.
- **CatalogStore** (`catalog_store.dfy`) is the storage layer the routes call,
  written as a class `Store` over a `map` from `_id` to `Book`. Its methods are
  `Find`, `Save`, unordered `InsertMany`, `FindById` and `FindByIdAndDelete`.
  Each method keeps the invariant. The store has a `connected` flag: while the
  connection is down, every call fails with an error that has no code and no
  `writeErrors`. The errors the routes inspect are abstract records with
  `code`, `message`, `keyValue`, `writeErrors` and `result.insertedCount`. An
  unordered bulk insert follows the pure plan `PlanInsert`: taking the documents
  in submission order, a document is turned away when its ISBN is already held
  by the catalog or by an earlier document of the same batch, and the others
  still go in.
- **BookRoutes** (`book_routes.dfy`) holds the four handlers as methods over a
  `Store`: GET `/`, POST `/`, POST `/bulk` and DELETE `/:id`. It also holds
  their validators, the rules that turn a storage error into a response, the
  filter/map/filter pipeline that extracts duplicate ISBNs, and the bulk
  duplicate message. `ObjectId.isValid` is a parameter `isValidObjectId` of
  the delete handler, with no meaning assumed.
- **Scenarios** (`scenarios.dfy`) sequences requests against one store.
  A second create with the same ISBN leaves exactly one such book. The batch
  `[{A, X, "1"}, {B, Y, "1"}]` keeps one book and reports `["1"]`, one insert
  and two submitted. A deleted book is no longer listed.

The bulk catch block reads `error.writeErrors.map(w => w.err.errmsg)` before
it checks anything. An error without `writeErrors`, or with an entry lacking
`err`, makes the catch block itself throw. The handler then sends nothing
itself; what the server does after that is outside the model.
`BulkFailureResponse` returns `None` for that case. `Scenarios.BulkWhileDisconnected`
shows it for a bulk insert while the database is unreachable.

In these places the code's behaviour is worth noting:

- POST `/` builds the document from `title`, `author` and `isbn` only, so an
  image path in the body is not stored. POST `/bulk` passes the raw elements,
  so there an image path is kept.
- A bulk error without a write-error list is not turned into a 500 response:
  the catch block throws and the handler sends nothing itself.
- The delete handler checks the id with `ObjectId.isValid`. It falls back to a
  length-24 test only in its catch block. So an id that `isValid` accepts gets,
  if a later store call fails, the 400 "must be a 24 character hex string"
  text when its length is not 24, and 500 otherwise.
- Response keys keep the source's spellings (`sucess`, `messsage`,
  `sucessfulInserts`).

## Model

| member | source | states |
|---|---|---|
| `BookModel.AddKeepsConforming` | backend/models/Books.js:4-11 | adding a non-empty book whose ISBN is not yet held keeps every ISBN unique, and the held ISBNs grow by exactly that one |
| `BookModel.RemoveKeepsConforming` | backend/models/Books.js:11 | removing an entry keeps the collection conforming and frees exactly that entry's ISBN |
| `BookModel.UniqueIsbnsByCount` | backend/models/Books.js:11 | the unique index holds exactly when the catalog has as many distinct ISBNs as entries |
| `BookModel.IsbnSetSize` | backend/models/Books.js:11 | a catalog never holds more distinct ISBNs than entries |
| `BookModel.AtMostOneHolder` | backend/models/Books.js:11 | under the unique index, the ids holding a given ISBN number exactly one if the ISBN is held and zero otherwise |
| `CatalogStore.PlanRecordsRejections` | backend/routes/books.js:135 | each rejection of an unordered bulk insert records the index of the document it turned away and that document, and the rejections follow submission order |
| `CatalogStore.PlanPartitions` | backend/routes/books.js:135 | the admitted and the rejected documents together are the submitted ones as a multiset: none lost, none counted twice |
| `CatalogStore.PlanAdmitsEachNewIsbnOnce` | backend/routes/books.js:135 | the admitted documents have pairwise distinct ISBNs, none already taken, and they cover every submitted ISBN that was not taken |
| `CatalogStore.PlanRejectsOnlyDuplicates` | backend/routes/books.js:135 | a rejected document is the one at its recorded index, and its ISBN was held by the catalog or by an earlier document of the batch, in submission order |
| `CatalogStore.DuplicateIsRejected` | backend/routes/books.js:135 | conversely, a document whose ISBN is held by the catalog or by an earlier document of the batch, in submission order, is rejected at its own index |
| `CatalogStore.UnorderedInsertCoversBatch` | backend/routes/books.js:135 | after an unordered bulk insert every submitted ISBN is in the catalog, and the catalog grew by exactly the admitted documents |
| `CatalogStore.Store.Find` | backend/routes/books.js:30 | lists every stored book exactly once, with distinct ids and as many entries as the catalog; fails with the network error while disconnected |
| `CatalogStore.Store.Save` | backend/routes/books.js:59 | inserts under a fresh id exactly when connected, the book is non-empty and its ISBN is new; a taken ISBN fails with code 11000 and `keyValue.isbn`; an empty field fails validation before the connection is used; every failure leaves the catalog unchanged |
| `CatalogStore.Store.FindById` | backend/routes/books.js:210 | returns the book stored under the id, or nothing exactly when the id is absent |
| `CatalogStore.Store.FindByIdAndDelete` | backend/routes/books.js:219 | removes exactly that id and returns what it held; every other entry is unchanged |
| `CatalogStore.Store.InsertMany` | backend/routes/books.js:135 | inserts the planned documents under fresh distinct ids and keeps the others out; succeeds only when none was turned away, otherwise fails with code 11000, one write error per rejected document and the inserted count |
| `BookRoutes.HasRequiredFields` | backend/routes/books.js:50 | the body passes exactly when title, author and ISBN are present and the schema's required validators would accept the book they make |
| `BookRoutes.CreateDocument` | backend/routes/books.js:48-58 | the created document carries exactly the body's title, author and ISBN and no image path |
| `BookRoutes.BulkDocument` | backend/routes/books.js:105-135 | a bulk element is stored with all of its fields, image path included |
| `BookRoutes.EachBookComplete` | backend/routes/books.js:125-133 | the scan answers true exactly when every element has a non-empty title, author and ISBN |
| `BookRoutes.KeyValueIsbn` | backend/routes/books.js:75 | the duplicate ISBN is `keyValue.isbn` when that is present and non-empty, and undefined otherwise |
| `BookRoutes.CreateFailureResponse` | backend/routes/books.js:65-90 | status 400 exactly for code 11000, carrying `keyValue` and the duplicate ISBN; every other error is 500 "Error creating book" with the error's message |
| `BookRoutes.ConflictNamesIsbn` | backend/routes/books.js:68-82 | the store's collision on a non-empty ISBN is answered 400 naming that ISBN |
| `BookRoutes.DuplicateKeyWrites` | backend/routes/books.js:153-154 | keeps every write error with code 11000 and no other, never more than it was given |
| `BookRoutes.DuplicateKeyWritesAppend` | backend/routes/books.js:153-154 | the filter keeps the write errors' order: it distributes over concatenation |
| `BookRoutes.OpIsbns` | backend/routes/books.js:155-161 | one entry per write error: its document's ISBN, or undefined |
| `BookRoutes.Defined` | backend/routes/books.js:162 | a string is kept exactly when it was present in the input |
| `BookRoutes.DefinedAppend` | backend/routes/books.js:162 | the filter keeps order and multiplicity: it distributes over concatenation |
| `BookRoutes.DuplicateIsbns` | backend/routes/books.js:153-162 | the pipeline lists, in order, the ISBN of every write error with code 11000 that carries one |
| `BookRoutes.PipelineIsOnePass` | backend/routes/books.js:153-162 | the filter/map/filter pipeline equals a single pass over the write errors, in their order |
| `BookRoutes.ReportedIsbnsMembers` | backend/routes/books.js:153-162 | an ISBN is listed exactly when some write error with code 11000 carries a document with that ISBN |
| `BookRoutes.OnePassFindsRejected` | backend/routes/books.js:153-162 | over the store's bulk write errors the single pass lists the rejected documents' ISBNs in order |
| `BookRoutes.PipelineFindsRejected` | backend/routes/books.js:150-162 | over the store's bulk write errors the pipeline yields exactly the rejected documents' ISBNs, in submission order |
| `BookRoutes.Join` | backend/routes/books.js:171 | the joined text is as long as the elements plus one separator between each neighbouring pair, and starts with the first element |
| `BookRoutes.JoinContains` | backend/routes/books.js:171 | every element of a joined list occurs in the joined text |
| `BookRoutes.DuplicatesMessage` | backend/routes/books.js:170-172 | a non-empty list gives "Books with ISBNs ", the comma-joined list and " already exist"; an empty one gives the fixed "unknown" text |
| `BookRoutes.MessageNamesEveryDuplicate` | backend/routes/books.js:170-172 | the bulk duplicate message names every duplicate ISBN |
| `BookRoutes.InsertedCount` | backend/routes/books.js:168 | the insert count is `result.insertedCount`, or 0 when that is missing |
| `BookRoutes.ErrorMessages` | backend/routes/books.js:146 | one message per write error, taken from its `err.errmsg` |
| `BookRoutes.CaughtDuplicates` | backend/routes/books.js:148-165 | the pipeline is used when write errors exist; `[keyValue.isbn]` is used only when the list is empty and that ISBN is set; otherwise the list is empty |
| `BookRoutes.BulkFailureResponse` | backend/routes/books.js:144-191 | no response exactly when `writeErrors` or an entry's `err` is missing; 400 exactly for code 11000 with the duplicate list, its message, the insert count and the submitted count; otherwise 500 with every write error's message |
| `BookRoutes.BulkConflictReport` | backend/routes/books.js:147-181 | the store's bulk write error is answered 400 with the rejected ISBNs in order, the number inserted and the number submitted |
| `BookRoutes.DeleteFailureResponse` | backend/routes/books.js:224-233 | the catch block answers 400 exactly when the id is not 24 characters long, and 500 otherwise |
| `BookRoutes.ListBooks` | backend/routes/books.js:28-44 | 200 with every stored book once and `count` equal to the number listed; 500 "Error retrieving books" while disconnected |
| `BookRoutes.CreateBook` | backend/routes/books.js:46-91 | a missing or empty field gives 400 and leaves the store unchanged; a new ISBN gives 201 and stores exactly that one book; a taken ISBN or a storage failure is classified with the store unchanged |
| `BookRoutes.CreateBooks` | backend/routes/books.js:94-193 | not an array, then empty, then an incomplete element each give their own 400 before the store is touched; otherwise an unordered insert, with 201 when nothing was turned away, the duplicate report otherwise, and no response while disconnected |
| `BookRoutes.DeleteBook` | backend/routes/books.js:197-234 | an id failing `isValidObjectId` gives 400 with the store untouched; an absent id gives 404; an existing one is removed alone and returned with 200; a failing store call goes to the catch block |
| `Scenarios.ListEmptyCatalog` | backend/routes/books.js:28-35 | listing an empty catalog answers 200 with count 0 and no books |
| `Scenarios.CreateThenList` | backend/routes/books.js:46-64 | a created book is listed by the next GET and the count grew by one |
| `Scenarios.CreateTwice` | backend/routes/books.js:68-82 | a second create with the same ISBN is a 400 naming it, and exactly one book holds that ISBN |
| `Scenarios.PairPlan` | backend/routes/books.js:135 | of two documents sharing a new ISBN, the first in submission order is admitted and the second rejected |
| `Scenarios.PairReport` | backend/routes/books.js:147-181 | that rejection is reported as `["1"]`, one insert and two submitted |
| `Scenarios.SingleDuplicateMessage` | backend/routes/books.js:170-171 | a single duplicate ISBN "1" gives "Books with ISBNs 1 already exist" |
| `Scenarios.BulkDuplicateInBatch` | backend/routes/books.js:94-181 | the two-book batch with one ISBN keeps one book and reports `["1"]`, 1 and 2 |
| `Scenarios.BulkWhileDisconnected` | backend/routes/books.js:146 | a bulk insert while the database is unreachable gets no response from the handler and changes nothing |
| `Scenarios.DeleteThenList` | backend/routes/books.js:197-222 | a deleted book is returned and no longer listed, and the count dropped by one |

## Left out

- `CatalogStore.PlanInsert` runs an unordered bulk insert in submission order. The database does not promise that order for `ordered: false` and may reorder the documents. So which of two documents sharing a new ISBN is kept, and the order of `writeErrors` and of the reported duplicate ISBNs, follow from this choice of the model. That one holder per ISBN remains, that every submitted ISBN is held afterwards, the counts and the multiset of rejected ISBNs do not depend on it.
- `CatalogStore.PlanInsert` rejects a bulk element only for an ISBN clash. Client-supplied `_id`s in bulk elements are not modelled. In the source an element whose `_id` is already stored also fails with code 11000, and its `err.op` carries the element's ISBN, so the source then reports a new ISBN as a duplicate and does not store that book. The model's promise that every submitted ISBN is held afterwards (`CatalogStore.UnorderedInsertCoversBatch`, `BookRoutes.CreateBooks`) holds only for elements without an `_id`.
- `created_at` and its `Date.now` default are left out because they depend on the wall clock.
- `console.log` output, async/await scheduling and JSON serialisation are left out. The constant `success`/`sucess` flag of each body shape is implied by its `Body` variant.
- Concurrent requests are left out. Each store call is atomic, and a handler's calls run without interleaving, so the window between `findById` and `findByIdAndDelete` is not modelled.
- `ObjectId.isValid` is a parameter with no assumed meaning. How the driver generates ids is also left out: a new id is any id not in use.
- `CatalogStore.Store.FindById` and `CatalogStore.Store.FindByIdAndDelete` compare ids as plain strings. The driver casts the id to an ObjectId first, so ids that spell the same ObjectId (upper-case hex, say) match in the source but not in the model, where such a delete answers 404 instead of 200.
- The connection state is fixed when a `Store` is made. So `FindByIdAndDelete` cannot fail after a `FindById` that succeeded, and the delete handler's branch for that case is unreachable in the model, while in the source the call at backend/routes/books.js:219 can still fail into the catch block.
- `BookRoutes.DeleteFailureResponse`: the length test counts characters, while JavaScript's `.length` counts UTF-16 code units. The two differ only for ids with characters outside the Basic Multilingual Plane.
- Request fields are modelled as strings or missing. Other JSON values (numbers, objects) are left out. So are `null` elements of the bulk array, on which `book.title` throws and the catch block then throws too.
- `CatalogStore.Store.InsertMany` requires every document to be non-empty. Mongoose's per-document validation inside an unordered `insertMany` is not modelled, and the only caller validates first.
- The only storage failures modelled are a lost connection and duplicate keys. The server's error texts (the E11000 message, the connection error) are stand-ins. The classification functions still accept any error record, so the 500 branch of the bulk catch block is covered there, though this store never produces it.
- `backend/server.js` (Express wiring, multer uploads with timestamp names, static serving, the 404 handlers, `listen`), `backend/database.js` (the connection) and `webpack.config.js` are not part of this model.
- ISBNs are opaque text. No checksum is validated, as in the source.
