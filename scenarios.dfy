/**
 * Sequences of requests against one store, showing what the handlers promise
 * together: a duplicate create leaves one book, a batch with an internal
 * duplicate keeps one of them, a deleted book is no longer listed.
 */
module Scenarios {
  import opened Wrappers
  import opened BookModel
  import opened CatalogStore
  import opened BookRoutes

  /** Listing a fresh, empty catalog answers 200 with a count of 0 and no books. */
  method ListEmptyCatalog() returns (resp: Response)
    ensures resp == Response(200, BookList(0, []))
  {
    var store := new Store(true);
    resp := ListBooks(store);
  }

  /** A created book is among those a following GET `/` lists. */
  method CreateThenList(store: Store, body: BookFields) returns (created: Response, listed: Response)
    requires store.Valid() && store.connected
    requires HasRequiredFields(body) && body.isbn.value !in IsbnSet(store.books)
    modifies store
    ensures created.status == 201 && created.body.Created?
    ensures listed.status == 200 && listed.body.BookList?
    ensures exists k :: 0 <= k < |listed.body.books| && listed.body.books[k] == created.body.data
    ensures listed.body.count == |old(store.books)| + 1
  {
    created := CreateBook(store, body);
    listed := ListBooks(store);
    var d := created.body.data;
    assert d.id in store.books;
    var k :| 0 <= k < |listed.body.books| && listed.body.books[k].id == d.id;
  }

  /**
   * Two creates with the same ISBN: the second is a 400 naming that ISBN, and
   * exactly one book with it is stored afterwards.
   */
  method CreateTwice(store: Store, first: BookFields, second: BookFields) returns (r1: Response, r2: Response)
    requires store.Valid() && store.connected
    requires HasRequiredFields(first) && HasRequiredFields(second)
    requires first.isbn == second.isbn && first.isbn.value !in IsbnSet(store.books)
    modifies store
    ensures store.Valid()
    ensures r1.status == 201
    ensures r2 == Response(400, DuplicateBook("Book already exists with this ISBN " + first.isbn.value,
                                              Some(KeyValue(first.isbn)), first.isbn))
    ensures |set id | id in store.books && store.books[id].isbn == first.isbn.value| == 1
    ensures |store.books| == |old(store.books)| + 1
  {
    var isbn := first.isbn.value;
    r1 := CreateBook(store, first);
    var id := r1.body.data.id;
    assert store.books[id].isbn == isbn;
    r2 := CreateBook(store, second);
    ConflictNamesIsbn(isbn);
    AtMostOneHolder(store.books, isbn);
  }

  /** Two documents with one new ISBN: the first goes in, the second is turned away. */
  lemma PairPlan(taken: set<string>, x: Book, y: Book)
    requires x.isbn == y.isbn && x.isbn !in taken
    ensures PlanInsert(taken, [x, y], 0) == BulkPlan([x], [Rejection(1, y)])
  {
    assert PlanInsert(taken + {x.isbn}, [x, y], 1) == BulkPlan([], [Rejection(1, y)]);
  }

  /** The report for a batch whose second document repeated the first one's ISBN "1". */
  lemma PairReport(y: Book)
    requires y.isbn == "1"
    ensures BulkFailureResponse(BulkWriteError([Rejection(1, y)], 1), 2)
         == Some(Response(400, BulkDuplicates("Books with ISBNs 1 already exist", ["1"], 1, 2)))
  {
    BulkConflictReport([Rejection(1, y)], 1, 2);
    assert RejectedIsbns([Rejection(1, y)]) == ["1"];
    SingleDuplicateMessage();
  }

  /** The bulk duplicate message for the single ISBN "1". */
  lemma SingleDuplicateMessage()
    ensures DuplicatesMessage(["1"]) == "Books with ISBNs 1 already exist"
  {
    assert Join(["1"], ", ") == "1";
    assert DuplicatesPrefix + "1" + " already exist" == "Books with ISBNs 1 already exist";
  }

  /** A bulk insert that added one document added one entry holding its ISBN. */
  lemma OneInserted(before: map<string, Book>, after: map<string, Book>, plan: BulkPlan, b: Book) returns (id: string)
    requires plan.admitted == [b]
    requires exists inserted: seq<Doc> :: InsertedAsPlanned(before, plan, inserted) && after == before + MapOf(inserted)
    ensures id !in before && after == before[id := b]
  {
    var inserted: seq<Doc> :| InsertedAsPlanned(before, plan, inserted) && after == before + MapOf(inserted);
    var d := SoleDoc(plan, inserted);
    assert inserted[0].id !in before;
    SingleEntry(before, d);
    id := d.id;
  }

  /** The entries one document adds, merged into a catalog, are that one update. */
  lemma SingleEntry(before: map<string, Book>, d: Doc)
    ensures before + MapOf([d]) == before[d.id := d.book]
  {
    assert [d][..0] == [];
    assert MapOf([d]) == map[d.id := d.book];
  }

  /** A plan admitting one book was carried out by inserting exactly one document. */
  lemma SoleDoc(plan: BulkPlan, inserted: seq<Doc>) returns (d: Doc)
    requires |plan.admitted| == 1 && BooksOf(inserted) == plan.admitted
    ensures inserted == [d] && d.book == plan.admitted[0]
  {
    d := inserted[0];
    assert inserted == [d];
  }

  /** Adding one entry under a new id grows the catalog by one, and that ISBN then has one holder. */
  lemma OneMore(before: map<string, Book>, after: map<string, Book>, id: string, b: Book)
    requires id !in before && after == before[id := b] && UniqueIsbns(after)
    ensures |set k | k in after && after[k].isbn == b.isbn| == 1
    ensures |after| == |before| + 1
  {
    assert after[id].isbn == b.isbn;
    AtMostOneHolder(after, b.isbn);
  }


  /**
   * Bulk-creating two books that share an ISBN not yet in the catalog keeps
   * one of them and reports the other: `duplicateISBNs: ["1"]`, one insert,
   * two submitted.
   */
  method BulkDuplicateInBatch(store: Store) returns (resp: Option<Response>)
    requires store.Valid() && store.connected
    requires "1" !in IsbnSet(store.books)
    modifies store
    ensures store.Valid()
    ensures resp == Some(Response(400, BulkDuplicates("Books with ISBNs 1 already exist", ["1"], 1, 2)))
    ensures |set id | id in store.books && store.books[id].isbn == "1"| == 1
    ensures |store.books| == |old(store.books)| + 1
  {
    var a := BookFields(Some("A"), Some("X"), Some("1"), None);
    var b := BookFields(Some("B"), Some("Y"), Some("1"), None);
    ghost var before := store.books;
    assert HasRequiredFields(a) && HasRequiredFields(b);
    assert forall k :: 0 <= k < |[a, b]| ==> HasRequiredFields([a, b][k]);
    assert BulkDocuments([a, b]) == [BulkDocument(a), BulkDocument(b)];
    PairPlan(IsbnSet(before), BulkDocument(a), BulkDocument(b));
    ghost var plan := BulkPlan([BulkDocument(a)], [Rejection(1, BulkDocument(b))]);
    assert PlanInsert(IsbnSet(before), BulkDocuments([a, b]), 0) == plan;
    resp := CreateBooks(store, Items([a, b]));
    assert resp == BulkFailureResponse(BulkWriteError(plan.rejected, 1), 2);
    PairReport(BulkDocument(b));
    var id := OneInserted(before, store.books, plan, BulkDocument(a));
    OneMore(before, store.books, id, BulkDocument(a));
  }

  /**
   * A bulk insert while the database is unreachable fails with an error that
   * has no `writeErrors`; the catch block throws on it and the handler sends nothing itself.
   */
  method BulkWhileDisconnected(store: Store, books: seq<BookFields>) returns (resp: Option<Response>)
    requires store.Valid() && !store.connected
    requires |books| > 0 && forall k :: 0 <= k < |books| ==> HasRequiredFields(books[k])
    modifies store
    ensures resp == None
    ensures store.books == old(store.books)
  {
    resp := CreateBooks(store, Items(books));
  }

  /** Deleting an existing book returns it, and a following GET `/` no longer lists it. */
  method DeleteThenList(store: Store, id: string, isValidObjectId: string -> bool) returns (deleted: Response, listed: Response)
    requires store.Valid() && store.connected
    requires isValidObjectId(id) && id in store.books
    modifies store
    ensures deleted == Response(200, Deleted(BookDeletedMessage, Some(Doc(id, old(store.books)[id]))))
    ensures listed.status == 200 && listed.body.BookList?
    ensures forall k :: 0 <= k < |listed.body.books| ==> listed.body.books[k].id != id
    ensures listed.body.count == |old(store.books)| - 1
  {
    deleted := DeleteBook(store, id, isValidObjectId);
    listed := ListBooks(store);
  }
}
