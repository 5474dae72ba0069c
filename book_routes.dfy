/**
 * The request handlers of backend/routes/books.js: GET `/`, POST `/`,
 * POST `/bulk` and DELETE `/:id`, with their validators, the rules that turn
 * storage errors into responses, and the response bodies they send.
 */
module BookRoutes {
  import opened Wrappers
  import opened BookModel
  import opened CatalogStore

  /**
   * The JSON bodies the handlers send, one variant per shape. The constant
   * `success`/`sucess` flag each shape carries is implied by its variant.
   */
  datatype Body =
    | BookList(count: nat, books: seq<Doc>)                        // { sucess: true, count, books }
    | ListFailure(messsage: string, error: string)                 // { messsage, success: false, error }
    | Rejected(message: string)                                     // { message, success: false, data: null }
    | Created(message: string, data: Doc)                           // { message, success: true, data }
    | DuplicateBook(message: string, keyValue: Option<KeyValue>, duplicateISBN: Option<string>)
                                                                    // { message, error: keyValue, success: false, data: null, duplicateISBN }
    | StorageFailure(message: string, error: string)               // { message, success: false, error }
    | BulkCreated(message: string, savedBooks: seq<Doc>)            // { message, sucess: true, data: savedBooks }
    | BulkDuplicates(message: string, duplicateISBNs: seq<string>, sucessfulInserts: nat, totalBooks: nat)
                                                                    // { message, success: false, data: null, duplicateISBNs, sucessfulInserts, totalBooks }
    | BulkFailure(message: string, errorText: string, allErrorsMessages: seq<Option<string>>, writeErrors: seq<WriteError>)
                                                                    // { message, sucess: false, data: errorText, allErrorsMessages, error: writeErrors }
    | InvalidId(message: string, invalidNote: Option<string>)      // { message, success: false, data: invalidNote } (no data in the catch block)
    | NotFound(message: string, missingNote: string)               // { message, success: false, data: missingNote }
    | Deleted(message: string, deletedBook: Option<Doc>)            // { message, deletedBook }
    | DeleteFailure(message: string)                                // { message }

  /** An HTTP status with its JSON body. */
  datatype Response = Response(status: int, body: Body)

  const RequiredFieldsMessage := "Title, author, and ISBN are required"
  const BookCreatedMessage := "Book created successfully"
  const CreateErrorMessage := "Error creating book"
  const NotAnArrayMessage := "Books must be an array"
  const EmptyArrayMessage := "Books array is empty"
  const IncompleteBookMessage := "Each book must have title, author, and isbn"
  const BooksCreatedMessage := "The books have been created successfully"
  const BulkErrorMessage := "Error creating books"
  const InvalidIdMessage := "Invalid book ID: Input must be a 24 character hex string"
  const BookNotFoundMessage := "Book not found"
  const BookDeletedMessage := "Book has been deleted successfully"
  const DeleteErrorMessage := "Error deleting book"
  const ListErrorMessage := "Error retrieving books"

  // ---------------------------------------------------------------------------
  // Validators

  /** `!title || !author || !isbn` is false: all three required fields are present and non-empty. */
  function HasRequiredFields(f: BookFields): (ok: bool)
    ensures ok <==> f.title.Some? && f.author.Some? && f.isbn.Some?
                    && Storable(Book(f.title.value, f.author.value, f.isbn.value, f.imagePath))
  {
    Truthy(f.title) && Truthy(f.author) && Truthy(f.isbn)
  }

  /**
   * The document POST `/` saves: `new Book({ title, author, isbn })`. Any image
   * path in the body is dropped.
   */
  function CreateDocument(f: BookFields): (b: Book)
    requires HasRequiredFields(f)
    ensures Storable(b) && b.imagePath == None
    ensures FieldsOf(b) == f.(imagePath := None)
  {
    Book(f.title.value, f.author.value, f.isbn.value, None)
  }

  /** A raw element of the bulk array as `insertMany` stores it: the image path is kept. */
  function BulkDocument(f: BookFields): (b: Book)
    requires HasRequiredFields(f)
    ensures Storable(b)
    ensures FieldsOf(b) == f
  {
    Book(f.title.value, f.author.value, f.isbn.value, f.imagePath)
  }

  /** The raw elements of the bulk array as `insertMany` stores them, in order. */
  function BulkDocuments(fs: seq<BookFields>): (bs: seq<Book>)
    requires forall k :: 0 <= k < |fs| ==> HasRequiredFields(fs[k])
    ensures |bs| == |fs|
    ensures forall k :: 0 <= k < |fs| ==> bs[k] == BulkDocument(fs[k])
  {
    if fs == [] then [] else [BulkDocument(fs[0])] + BulkDocuments(fs[1..])
  }

  /** `req.body.books` as the bulk handler sees it. */
  datatype BulkBody = Absent | NotArray | Items(books: seq<BookFields>)

  /**
   * The `for (const book of books)` check: true exactly when every element has
   * its three required fields; the first element without them ends the scan.
   */
  method EachBookComplete(books: seq<BookFields>) returns (ok: bool)
    ensures ok <==> forall k :: 0 <= k < |books| ==> HasRequiredFields(books[k])
  {
    for k := 0 to |books|
      invariant forall j :: 0 <= j < k ==> HasRequiredFields(books[j])
    {
      if !HasRequiredFields(books[k]) {
        return false;
      }
    }
    return true;
  }

  // ---------------------------------------------------------------------------
  // Error classification for POST `/`

  /** `error.keyValue && error.keyValue.isbn ? error.keyValue.isbn : undefined` */
  function KeyValueIsbn(e: DbError): (r: Option<string>)
    ensures r.Some? <==> e.keyValue.Some? && Truthy(e.keyValue.value.isbn)
    ensures r.Some? ==> Some(r.value) == e.keyValue.value.isbn
  {
    if e.keyValue.Some? && Truthy(e.keyValue.value.isbn) then e.keyValue.value.isbn else None
  }

  /** A template literal's rendering of a possibly undefined value. */
  function Render(s: Option<string>): string {
    if s.Some? then s.value else "undefined"
  }

  /**
   * The catch block of POST `/`: a duplicate-key error (code 11000) is a client
   * error naming the ISBN that collided; every other error is a server error.
   */
  function CreateFailureResponse(e: DbError): (r: Response)
    ensures r.status == 400 <==> e.code == Some(DuplicateKeyCode)
    ensures r.status != 400 ==> r == Response(500, StorageFailure(CreateErrorMessage, e.message))
    ensures r.status == 400 ==> r.body.DuplicateBook? && r.body.keyValue == e.keyValue
    ensures r.status == 400 ==> r.body.duplicateISBN == KeyValueIsbn(e)
    ensures r.status == 400 ==> r.body.message == "Book already exists with this ISBN " + Render(KeyValueIsbn(e))
  {
    if e.code == Some(DuplicateKeyCode) then
      var duplicateISBN := KeyValueIsbn(e);
      Response(400, DuplicateBook("Book already exists with this ISBN " + Render(duplicateISBN), e.keyValue, duplicateISBN))
    else
      Response(500, StorageFailure(CreateErrorMessage, e.message))
  }

  /** A collision the store reports for a non-empty ISBN is answered with that very ISBN. */
  lemma ConflictNamesIsbn(isbn: string)
    requires isbn != ""
    ensures CreateFailureResponse(DuplicateKeyError(isbn))
         == Response(400, DuplicateBook("Book already exists with this ISBN " + isbn, Some(KeyValue(Some(isbn))), Some(isbn)))
  {
  }

  // ---------------------------------------------------------------------------
  // The duplicate-ISBN pipeline of POST `/bulk`

  /** `writeError.err?.code === 11000` */
  predicate IsDuplicateKeyWrite(w: WriteError) {
    w.err.Some? && w.err.value.code == Some(DuplicateKeyCode)
  }

  /** `writeError.err?.op?.isbn` */
  function OpIsbn(w: WriteError): Option<string> {
    if w.err.Some? && w.err.value.op.Some? then w.err.value.op.value.isbn else None
  }

  /** `.filter(writeError => writeError.err?.code === 11000)` */
  function DuplicateKeyWrites(ws: seq<WriteError>): (r: seq<WriteError>)
    ensures |r| <= |ws|
    ensures forall w :: w in r ==> w in ws && IsDuplicateKeyWrite(w)
    ensures forall w :: w in ws && IsDuplicateKeyWrite(w) ==> w in r
  {
    if ws == [] then []
    else (if IsDuplicateKeyWrite(ws[0]) then [ws[0]] else []) + DuplicateKeyWrites(ws[1..])
  }

  /** `.map(writeError => writeError.err?.op?.isbn)` */
  function OpIsbns(ws: seq<WriteError>): (r: seq<Option<string>>)
    ensures |r| == |ws|
    ensures forall k :: 0 <= k < |ws| ==> r[k] == OpIsbn(ws[k])
  {
    if ws == [] then [] else [OpIsbn(ws[0])] + OpIsbns(ws[1..])
  }

  /** `.filter(isbn => isbn !== undefined)` */
  function Defined(xs: seq<Option<string>>): (r: seq<string>)
    ensures |r| <= |xs|
    ensures forall s :: s in r <==> Some(s) in xs
  {
    if xs == [] then []
    else (if xs[0].Some? then [xs[0].value] else []) + Defined(xs[1..])
  }

  /** The first filter keeps the order of the write errors: it distributes over concatenation. */
  lemma {:induction false} DuplicateKeyWritesAppend(a: seq<WriteError>, b: seq<WriteError>)
    ensures DuplicateKeyWrites(a + b) == DuplicateKeyWrites(a) + DuplicateKeyWrites(b)
  {
    if a != [] {
      assert (a + b)[1..] == a[1..] + b;
      DuplicateKeyWritesAppend(a[1..], b);
    } else {
      assert a + b == b;
    }
  }

  /** The last filter keeps order and multiplicity: it distributes over concatenation. */
  lemma {:induction false} DefinedAppend(a: seq<Option<string>>, b: seq<Option<string>>)
    ensures Defined(a + b) == Defined(a) + Defined(b)
  {
    if a != [] {
      assert (a + b)[1..] == a[1..] + b;
      DefinedAppend(a[1..], b);
    } else {
      assert a + b == b;
    }
  }

  /**
   * The filter, map, filter pipeline over `error.writeErrors`: it lists, in
   * order, the ISBN of every key-collision write error that carries one.
   */
  function DuplicateIsbns(ws: seq<WriteError>): (r: seq<string>)
    ensures r == ReportedIsbns(ws)
  {
    PipelineIsOnePass(ws);
    Defined(OpIsbns(DuplicateKeyWrites(ws)))
  }

  /** What one write error contributes to the duplicate list: its document's ISBN if it is a key collision. */
  function ReportedIsbn(w: WriteError): Option<string> {
    if IsDuplicateKeyWrite(w) then OpIsbn(w) else None
  }

  /** The duplicate list in one pass over the write errors, in their order. */
  function ReportedIsbns(ws: seq<WriteError>): seq<string> {
    if ws == [] then []
    else (if ReportedIsbn(ws[0]).Some? then [ReportedIsbn(ws[0]).value] else []) + ReportedIsbns(ws[1..])
  }

  /** The three-stage pipeline computes the one-pass list: same ISBNs, same order. */
  lemma {:induction false} PipelineIsOnePass(ws: seq<WriteError>)
    ensures Defined(OpIsbns(DuplicateKeyWrites(ws))) == ReportedIsbns(ws)
  {
    if ws != [] {
      PipelineIsOnePass(ws[1..]);
      var w := ws[0];
      var tail := DuplicateKeyWrites(ws[1..]);
      if IsDuplicateKeyWrite(w) {
        assert DuplicateKeyWrites(ws) == [w] + tail;
        assert ([w] + tail)[1..] == tail;
        assert OpIsbns([w] + tail) == [OpIsbn(w)] + OpIsbns(tail);
        assert ([OpIsbn(w)] + OpIsbns(tail))[1..] == OpIsbns(tail);
      } else {
        assert DuplicateKeyWrites(ws) == tail;
      }
    }
  }

  /** An ISBN is listed exactly when some write error is a key collision over a document with that ISBN. */
  lemma {:induction false} ReportedIsbnsMembers(ws: seq<WriteError>, s: string)
    ensures s in ReportedIsbns(ws) <==> exists k :: 0 <= k < |ws| && ReportedIsbn(ws[k]) == Some(s)
  {
    if ws != [] {
      ReportedIsbnsMembers(ws[1..], s);
      if exists k :: 1 <= k < |ws| && ReportedIsbn(ws[k]) == Some(s) {
        var k :| 1 <= k < |ws| && ReportedIsbn(ws[k]) == Some(s);
        assert ws[1..][k - 1] == ws[k];
      }
      if exists k :: 0 <= k < |ws[1..]| && ReportedIsbn(ws[1..][k]) == Some(s) {
        var k :| 0 <= k < |ws[1..]| && ReportedIsbn(ws[1..][k]) == Some(s);
        assert ws[k + 1] == ws[1..][k];
      }
    }
  }

  /** The ISBNs of the documents a bulk insert turned away, in the order they were submitted. */
  function RejectedIsbns(rs: seq<Rejection>): (r: seq<string>)
    ensures |r| == |rs|
    ensures forall j :: 0 <= j < |rs| ==> r[j] == rs[j].book.isbn
  {
    if rs == [] then [] else [rs[0].book.isbn] + RejectedIsbns(rs[1..])
  }

  /** Over the store's bulk write errors the pipeline yields exactly the ISBNs of the rejected documents. */
  lemma {:induction false} PipelineFindsRejected(rs: seq<Rejection>)
    ensures DuplicateIsbns(WriteErrorsOf(rs)) == RejectedIsbns(rs)
  {
    OnePassFindsRejected(rs);
  }

  /** Over the store's bulk write errors the single pass lists the rejected ISBNs in order. */
  lemma {:induction false} OnePassFindsRejected(rs: seq<Rejection>)
    ensures ReportedIsbns(WriteErrorsOf(rs)) == RejectedIsbns(rs)
  {
    if rs != [] {
      OnePassFindsRejected(rs[1..]);
      assert WriteErrorsOf(rs)[1..] == WriteErrorsOf(rs[1..]);
    }
  }

  // ---------------------------------------------------------------------------
  // The duplicate message of POST `/bulk`

  /** The combined length of a list of strings. */
  function TotalLength(xs: seq<string>): nat {
    if xs == [] then 0 else |xs[0]| + TotalLength(xs[1..])
  }

  /** `array.join(sep)`: the elements in order, with one separator between each neighbouring pair. */
  function Join(xs: seq<string>, sep: string): (r: string)
    ensures |r| == TotalLength(xs) + if xs == [] then 0 else (|xs| - 1) * |sep|
    ensures |xs| > 0 ==> |xs[0]| <= |r| && r[..|xs[0]|] == xs[0]
  {
    if xs == [] then "" else if |xs| == 1 then xs[0] else xs[0] + sep + Join(xs[1..], sep)
  }

  /** Every element of a joined list occurs in the joined text, at the returned offset. */
  lemma {:induction false} JoinContains(xs: seq<string>, sep: string, k: nat) returns (off: nat)
    requires k < |xs|
    ensures off + |xs[k]| <= |Join(xs, sep)|
    ensures Join(xs, sep)[off..off + |xs[k]|] == xs[k]
  {
    if k == 0 {
      off := 0;
      if |xs| > 1 {
        assert Join(xs, sep) == xs[0] + (sep + Join(xs[1..], sep));
      }
    } else {
      var o := JoinContains(xs[1..], sep, k - 1);
      var rest := Join(xs[1..], sep);
      var prefix := xs[0] + sep;
      assert Join(xs, sep) == prefix + rest;
      off := |prefix| + o;
      assert (prefix + rest)[off..off + |xs[k]|] == rest[o..o + |xs[k]|];
    }
  }

  const DuplicatesPrefix := "Books with ISBNs "

  const DuplicatesSuffix := " already exist"
  const NoDuplicatesMessage := "A book already exists with this ISBN unknown already exists"

  /**
   * The message of the bulk duplicate response: the prefix, the joined list and
   * the suffix when the list is non-empty, and the fixed "unknown" text otherwise.
   */
  function DuplicatesMessage(dups: seq<string>): (m: string)
    ensures dups == [] ==> m == NoDuplicatesMessage
    ensures dups != [] ==> && |m| == |DuplicatesPrefix| + |Join(dups, ", ")| + |DuplicatesSuffix|
                           && m[..|DuplicatesPrefix|] == DuplicatesPrefix
                           && m[|DuplicatesPrefix|..|m| - |DuplicatesSuffix|] == Join(dups, ", ")
                           && m[|m| - |DuplicatesSuffix|..] == DuplicatesSuffix
  {
    if |dups| > 0 then DuplicatesPrefix + Join(dups, ", ") + DuplicatesSuffix
    else NoDuplicatesMessage
  }

  /** The bulk duplicate message names every duplicate ISBN. */
  lemma MessageNamesEveryDuplicate(dups: seq<string>, k: nat) returns (off: nat)
    requires k < |dups|
    ensures off + |dups[k]| <= |DuplicatesMessage(dups)|
    ensures DuplicatesMessage(dups)[off..off + |dups[k]|] == dups[k]
  {
    var o := JoinContains(dups, ", ", k);
    var joined := Join(dups, ", ");
    assert DuplicatesMessage(dups) == DuplicatesPrefix + (joined + " already exist");
    off := |DuplicatesPrefix| + o;
    assert (DuplicatesPrefix + (joined + " already exist"))[off..off + |dups[k]|] == joined[o..o + |dups[k]|];
  }

  // ---------------------------------------------------------------------------
  // Error classification for POST `/bulk`

  /** `error.result?.insertedCount || 0` */
  function InsertedCount(e: DbError): (n: nat)
    ensures e.result.Some? && e.result.value.insertedCount.Some? ==> n == e.result.value.insertedCount.value
    ensures e.result.None? || e.result.value.insertedCount.None? ==> n == 0
  {
    if e.result.Some? && e.result.value.insertedCount.Some? then e.result.value.insertedCount.value else 0
  }

  /** `writeError.err.errmsg` for each write error; undefined when `err` is missing. */
  function ErrorMessages(ws: seq<WriteError>): (r: seq<Option<string>>)
    requires forall j :: 0 <= j < |ws| ==> ws[j].err.Some?
    ensures |r| == |ws|
    ensures forall j :: 0 <= j < |ws| ==> r[j] == ws[j].err.value.errmsg
  {
    if ws == [] then [] else [ws[0].err.value.errmsg] + ErrorMessages(ws[1..])
  }

  /**
   * The duplicate list of the catch block: the pipeline when there are write
   * errors, otherwise `[keyValue.isbn]` when that is set, otherwise empty.
   */
  function CaughtDuplicates(e: DbError): (dups: seq<string>)
    requires e.writeErrors.Some?
    ensures |e.writeErrors.value| > 0 ==> dups == ReportedIsbns(e.writeErrors.value)
    ensures |e.writeErrors.value| == 0 ==> dups == if KeyValueIsbn(e).Some? then [KeyValueIsbn(e).value] else []
  {
    var ws := e.writeErrors.value;
    PipelineIsOnePass(ws);
    if |ws| > 0 then DuplicateIsbns(ws)
    else if e.keyValue.Some? && Truthy(e.keyValue.value.isbn) then [e.keyValue.value.isbn.value]
    else []
  }

  /**
   * The catch block of POST `/bulk`. It reads `error.writeErrors` and every
   * entry's `err` before anything else, so an error without them leaves the
   * handler throwing without sending anything itself (`None`). Otherwise code 11000 is
   * a 400 listing the duplicate ISBNs with the insert and submission counts,
   * and anything else is a 500 with every write error's message.
   */
  function BulkFailureResponse(e: DbError, booksLength: nat): (r: Option<Response>)
    ensures r.None? <==> e.writeErrors.None? || exists j :: 0 <= j < |e.writeErrors.value| && e.writeErrors.value[j].err.None?
    ensures r.Some? ==> (r.value.status == 400 <==> e.code == Some(DuplicateKeyCode))
    ensures r.Some? && r.value.status == 400 ==>
      && r.value.body.BulkDuplicates?
      && r.value.body.duplicateISBNs == CaughtDuplicates(e)
      && r.value.body.message == DuplicatesMessage(r.value.body.duplicateISBNs)
      && r.value.body.sucessfulInserts == InsertedCount(e)
      && r.value.body.totalBooks == booksLength
    ensures r.Some? && r.value.status != 400 ==>
      r.value == Response(500, BulkFailure(BulkErrorMessage, e.message, ErrorMessages(e.writeErrors.value), e.writeErrors.value))
  {
    if e.writeErrors.None? then None
    else
      var ws := e.writeErrors.value;
      if exists j :: 0 <= j < |ws| && ws[j].err.None? then None
      else
        var allErrorsMessages := ErrorMessages(ws);
        if e.code == Some(DuplicateKeyCode) then
          var duplicateISBNs := CaughtDuplicates(e);
          Some(Response(400, BulkDuplicates(DuplicatesMessage(duplicateISBNs), duplicateISBNs, InsertedCount(e), booksLength)))
        else
          Some(Response(500, BulkFailure(BulkErrorMessage, e.message, allErrorsMessages, ws)))
  }

  /**
   * The store's bulk write error is answered with the rejected documents'
   * ISBNs in submission order, the number inserted and the number submitted.
   */
  lemma BulkConflictReport(rejected: seq<Rejection>, insertedCount: nat, booksLength: nat)
    requires rejected != []
    ensures var dups := RejectedIsbns(rejected);
      BulkFailureResponse(BulkWriteError(rejected, insertedCount), booksLength)
        == Some(Response(400, BulkDuplicates(DuplicatesMessage(dups), dups, insertedCount, booksLength)))
  {
    var e := BulkWriteError(rejected, insertedCount);
    OnePassFindsRejected(rejected);
    assert !exists j :: 0 <= j < |e.writeErrors.value| && e.writeErrors.value[j].err.None?;
  }

  // ---------------------------------------------------------------------------
  // Error classification for DELETE `/:id`

  /** The catch block of DELETE `/:id`: an id that is not 24 characters long is a client error, anything else a server error. */
  function DeleteFailureResponse(id: string): (r: Response)
    ensures r.status == 400 <==> |id| != 24
    ensures r.status != 400 ==> r == Response(500, DeleteFailure(DeleteErrorMessage))
    ensures r.status == 400 ==> r.body == InvalidId(InvalidIdMessage, None)
  {
    if |id| != 24 then Response(400, InvalidId(InvalidIdMessage, None))
    else Response(500, DeleteFailure(DeleteErrorMessage))
  }

  // ---------------------------------------------------------------------------
  // Handlers

  /** GET `/`: every stored book and their number. */
  method ListBooks(store: Store) returns (resp: Response)
    ensures store.connected ==>
      && resp.status == 200 && resp.body.BookList?
      && resp.body.count == |resp.body.books| == |store.books|
      && ListsCatalog(resp.body.books, store.books)
    ensures !store.connected ==> resp == Response(500, ListFailure(ListErrorMessage, NetworkError.message))
  {
    var r := store.Find();
    match r
    case Success(books) =>
      resp := Response(200, BookList(|books|, books));
    case Failure(e) =>
      resp := Response(500, ListFailure(ListErrorMessage, e.message));
  }

  /** POST `/`: validate, save the three required fields, and classify a failure. */
  method CreateBook(store: Store, body: BookFields) returns (resp: Response)
    requires store.Valid()
    modifies store
    ensures store.Valid()
    ensures !HasRequiredFields(body) ==> resp == Response(400, Rejected(RequiredFieldsMessage)) && store.books == old(store.books)
    ensures HasRequiredFields(body) && store.connected && CreateDocument(body).isbn !in IsbnSet(old(store.books)) ==>
      && resp.status == 201 && resp.body.Created? && resp.body.message == BookCreatedMessage
      && resp.body.data.book == CreateDocument(body)
      && resp.body.data.id !in old(store.books)
      && store.books == old(store.books)[resp.body.data.id := CreateDocument(body)]
    ensures HasRequiredFields(body) && store.connected && CreateDocument(body).isbn in IsbnSet(old(store.books)) ==>
      resp == CreateFailureResponse(DuplicateKeyError(CreateDocument(body).isbn)) && store.books == old(store.books)
    ensures HasRequiredFields(body) && !store.connected ==>
      resp == CreateFailureResponse(NetworkError) && store.books == old(store.books)
  {
    if !HasRequiredFields(body) {
      return Response(400, Rejected(RequiredFieldsMessage));
    }
    var newBook := CreateDocument(body);
    var saved := store.Save(newBook);
    match saved
    case Success(doc) =>
      resp := Response(201, Created(BookCreatedMessage, doc));
    case Failure(e) =>
      resp := CreateFailureResponse(e);
  }

  /**
   * POST `/bulk`: validate in a fixed order (an array, not empty, every element
   * complete), insert unordered, and report what the unique index turned away.
   * `None` is the case where the catch block itself throws and nothing is sent.
   */
  method CreateBooks(store: Store, body: BulkBody) returns (resp: Option<Response>)
    requires store.Valid()
    modifies store
    ensures store.Valid()
    ensures !body.Items? ==> resp == Some(Response(400, Rejected(NotAnArrayMessage))) && store.books == old(store.books)
    ensures body == Items([]) ==> resp == Some(Response(400, Rejected(EmptyArrayMessage))) && store.books == old(store.books)
    ensures body.Items? && |body.books| > 0 && (exists k :: 0 <= k < |body.books| && !HasRequiredFields(body.books[k])) ==>
      resp == Some(Response(400, Rejected(IncompleteBookMessage))) && store.books == old(store.books)
    ensures body.Items? && |body.books| > 0 && (forall k :: 0 <= k < |body.books| ==> HasRequiredFields(body.books[k])) ==>
      var plan := PlanInsert(IsbnSet(old(store.books)), BulkDocuments(body.books), 0);
      && (!store.connected ==> resp == None && store.books == old(store.books))
      && (store.connected ==>
            && IsbnSet(store.books) == IsbnSet(old(store.books)) + IsbnsFrom(BulkDocuments(body.books), 0)
            && |store.books| == |old(store.books)| + |plan.admitted|)
      && (store.connected && plan.rejected == [] ==>
            && resp.Some? && resp.value.status == 201 && resp.value.body.BulkCreated?
            && resp.value.body.message == BooksCreatedMessage
            && InsertedAsPlanned(old(store.books), plan, resp.value.body.savedBooks)
            && store.books == old(store.books) + MapOf(resp.value.body.savedBooks))
      && (store.connected && plan.rejected != [] ==>
            && resp == BulkFailureResponse(BulkWriteError(plan.rejected, |plan.admitted|), |body.books|)
            && exists inserted :: InsertedAsPlanned(old(store.books), plan, inserted) && store.books == old(store.books) + MapOf(inserted))
  {
    var booksLength := 0;
    if !body.Items? {
      return Some(Response(400, Rejected(NotAnArrayMessage)));
    }
    var books := body.books;
    booksLength := |books|;
    if |books| == 0 {
      return Some(Response(400, Rejected(EmptyArrayMessage)));
    }
    var complete := EachBookComplete(books);
    if !complete {
      return Some(Response(400, Rejected(IncompleteBookMessage)));
    }
    var r, inserted := store.InsertMany(BulkDocuments(books));
    if store.connected {
      UnorderedInsertCoversBatch(old(store.books), BulkDocuments(books), inserted);
    }
    match r
    case Success(savedBooks) =>
      resp := Some(Response(201, BulkCreated(BooksCreatedMessage, savedBooks)));
    case Failure(e) =>
      resp := BulkFailureResponse(e, booksLength);
  }

  /**
   * DELETE `/:id`: reject a malformed id before touching the store, answer 404
   * for an unknown one, otherwise remove that one book and send it back. A
   * failing store call lands in the catch block.
   */
  method DeleteBook(store: Store, id: string, isValidObjectId: string -> bool) returns (resp: Response)
    requires store.Valid()
    modifies store
    ensures store.Valid()
    ensures !isValidObjectId(id) ==>
      resp == Response(400, InvalidId(InvalidIdMessage, Some("ID: " + id + " is not a valid ID"))) && store.books == old(store.books)
    ensures isValidObjectId(id) && !store.connected ==>
      resp == DeleteFailureResponse(id) && store.books == old(store.books)
    ensures isValidObjectId(id) && store.connected && id !in old(store.books) ==>
      resp == Response(404, NotFound(BookNotFoundMessage, "Book ID: " + id + " does not exist")) && store.books == old(store.books)
    ensures isValidObjectId(id) && store.connected && id in old(store.books) ==>
      && resp == Response(200, Deleted(BookDeletedMessage, Some(Doc(id, old(store.books)[id]))))
      && store.books == old(store.books) - {id}
  {
    if !isValidObjectId(id) {
      return Response(400, InvalidId(InvalidIdMessage, Some("ID: " + id + " is not a valid ID")));
    }
    var bookExists := store.FindById(id);
    if bookExists.Failure? {
      return DeleteFailureResponse(id);
    }
    if bookExists.value.None? {
      return Response(404, NotFound(BookNotFoundMessage, "Book ID: " + id + " does not exist"));
    }
    var deletedBook := store.FindByIdAndDelete(id);
    if deletedBook.Failure? {
      return DeleteFailureResponse(id);
    }
    resp := Response(200, Deleted(BookDeletedMessage, deletedBook.value));
  }
}
