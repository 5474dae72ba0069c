/**
 * The storage layer the routes call into: the `Book` model's `find`, `save`,
 * unordered `insertMany`, `findById` and `findByIdAndDelete`, stated as
 * contracts over a catalog map. The error records are the abstract shape of
 * the errors the driver rejects with; only the fields the routes read are kept.
 */
module CatalogStore {
  import opened Wrappers
  import opened BookModel

  /** The duplicate-key error code of the unique index. */
  const DuplicateKeyCode: int := 11000

  /** `error.keyValue`: the key that collided. */
  datatype KeyValue = KeyValue(isbn: Option<string>)

  /** `writeError.err`: one rejected document of a bulk write, with the document as `op`. */
  datatype WriteErrorInfo = WriteErrorInfo(index: nat, code: Option<int>, errmsg: Option<string>, op: Option<BookFields>)

  /** One entry of `error.writeErrors`. */
  datatype WriteError = WriteError(err: Option<WriteErrorInfo>)

  /** `error.result`: the partial result of a bulk write. */
  datatype BulkResult = BulkResult(insertedCount: Option<nat>)

  /** An error as the routes see it: `code`, `message`, `keyValue`, `writeErrors` and `result`. */
  datatype DbError = DbError(code: Option<int>, message: string, keyValue: Option<KeyValue>,
                             writeErrors: Option<seq<WriteError>>, result: Option<BulkResult>)

  /** The error every operation fails with while the database connection is down. */
  const NetworkError: DbError := DbError(None, "database connection is not available", None, None, None)

  /** The schema validation error: a required path is missing or empty. */
  const ValidationError: DbError := DbError(None, "Book validation failed", None, None, None)

  /** The server's text for a key collision on the `isbn_1` index. */
  function DuplicateKeyMessage(isbn: string): string {
    "E11000 duplicate key error collection: books index: isbn_1 dup key: { isbn: \"" + isbn + "\" }"
  }

  /** The error a single insert gets when its ISBN is already taken. */
  function DuplicateKeyError(isbn: string): DbError {
    DbError(Some(DuplicateKeyCode), DuplicateKeyMessage(isbn), Some(KeyValue(Some(isbn))), None, None)
  }

  /** A book as a raw document. */
  function FieldsOf(b: Book): BookFields {
    BookFields(Some(b.title), Some(b.author), Some(b.isbn), b.imagePath)
  }

  /** A document of a bulk insert that the unique index turned away, with its position in the batch. */
  datatype Rejection = Rejection(index: nat, book: Book)

  /** The write error the server reports for a rejected document. */
  function WriteErrorOf(r: Rejection): WriteError {
    WriteError(Some(WriteErrorInfo(r.index, Some(DuplicateKeyCode), Some(DuplicateKeyMessage(r.book.isbn)), Some(FieldsOf(r.book)))))
  }

  /** One code-11000 write error per rejected document, in the order of the rejections. */
  function WriteErrorsOf(rs: seq<Rejection>): (ws: seq<WriteError>)
    ensures |ws| == |rs|
    ensures forall j :: 0 <= j < |rs| ==> ws[j] == WriteErrorOf(rs[j])
  {
    if rs == [] then [] else [WriteErrorOf(rs[0])] + WriteErrorsOf(rs[1..])
  }

  /**
   * The error an unordered bulk insert rejects with when some documents were
   * turned away: code 11000 (that of its first write error), one write error per
   * rejected document and the number of documents that were inserted.
   */
  function BulkWriteError(rejected: seq<Rejection>, insertedCount: nat): DbError
    requires rejected != []
  {
    DbError(Some(DuplicateKeyCode), DuplicateKeyMessage(rejected[0].book.isbn), None,
            Some(WriteErrorsOf(rejected)), Some(BulkResult(Some(insertedCount))))
  }

  /** Which documents of an unordered bulk insert go in, and which are turned away. */
  datatype BulkPlan = BulkPlan(admitted: seq<Book>, rejected: seq<Rejection>)

  /**
   * The unordered bulk insert of `docs[i..]` against the ISBNs already `taken`,
   * taking the documents in submission order: a document whose ISBN is taken
   * (by the catalog or by an earlier document of the batch) is rejected, and
   * the rest carry on regardless.
   */
  function PlanInsert(taken: set<string>, docs: seq<Book>, i: nat): BulkPlan
    requires i <= |docs|
    decreases |docs| - i
  {
    if i == |docs| then BulkPlan([], [])
    else if docs[i].isbn in taken then
      var rest := PlanInsert(taken, docs, i + 1);
      BulkPlan(rest.admitted, [Rejection(i, docs[i])] + rest.rejected)
    else
      var rest := PlanInsert(taken + {docs[i].isbn}, docs, i + 1);
      BulkPlan([docs[i]] + rest.admitted, rest.rejected)
  }

  /** The ISBNs of `docs[i..]`. */
  function IsbnsFrom(docs: seq<Book>, i: nat): set<string>
    requires i <= |docs|
  {
    set k | i <= k < |docs| :: docs[k].isbn
  }

  /** The ISBNs of a plan's admitted documents. */
  function AdmittedIsbns(p: BulkPlan): set<string> {
    set k | 0 <= k < |p.admitted| :: p.admitted[k].isbn
  }

  /**
   * Each rejection records the index and the document it was made for, and
   * the rejections come in submission order.
   */
  lemma {:induction false} PlanRecordsRejections(taken: set<string>, docs: seq<Book>, i: nat)
    requires i <= |docs|
    ensures var p := PlanInsert(taken, docs, i);
      && (forall r :: r in p.rejected ==> i <= r.index < |docs| && r.book == docs[r.index])
      && (forall a, b :: 0 <= a < b < |p.rejected| ==> p.rejected[a].index < p.rejected[b].index)
    decreases |docs| - i
  {
    if i < |docs| {
      var x := docs[i].isbn;
      if x in taken {
        PlanRecordsRejections(taken, docs, i + 1);
      } else {
        PlanRecordsRejections(taken + {x}, docs, i + 1);
      }
    }
  }

  /** The books of a list of rejections, in order. */
  function RejectedBooks(rs: seq<Rejection>): (bs: seq<Book>)
    ensures |bs| == |rs|
    ensures forall j :: 0 <= j < |rs| ==> bs[j] == rs[j].book
  {
    if rs == [] then [] else [rs[0].book] + RejectedBooks(rs[1..])
  }

  /**
   * The admitted and the rejected documents are, between them, exactly the
   * submitted ones: none lost, none counted twice.
   */
  lemma {:induction false} PlanPartitions(taken: set<string>, docs: seq<Book>, i: nat)
    requires i <= |docs|
    ensures var p := PlanInsert(taken, docs, i);
      && multiset(p.admitted) + multiset(RejectedBooks(p.rejected)) == multiset(docs[i..])
      && |p.admitted| + |p.rejected| == |docs| - i
    decreases |docs| - i
  {
    if i < |docs| {
      var x := docs[i].isbn;
      var p := PlanInsert(taken, docs, i);
      assert docs[i..] == [docs[i]] + docs[i + 1..];
      if x in taken {
        PlanPartitions(taken, docs, i + 1);
        var rest := PlanInsert(taken, docs, i + 1);
        assert RejectedBooks(p.rejected) == [docs[i]] + RejectedBooks(rest.rejected);
      } else {
        PlanPartitions(taken + {x}, docs, i + 1);
      }
    }
  }

  /**
   * Conversely, a document whose ISBN is taken before it (by the catalog or by
   * an earlier document of the batch) is rejected, recorded at its own index.
   */
  lemma {:induction false} DuplicateIsRejected(taken: set<string>, docs: seq<Book>, i: nat, j: nat)
    requires i <= j < |docs|
    requires docs[j].isbn in taken || exists m :: i <= m < j && docs[m].isbn == docs[j].isbn
    ensures Rejection(j, docs[j]) in PlanInsert(taken, docs, i).rejected
    decreases j - i
  {
    var x := docs[i].isbn;
    if i == j {
      assert x in taken;
    } else {
      var taken' := if x in taken then taken else taken + {x};
      if docs[j].isbn !in taken' {
        var m :| i <= m < j && docs[m].isbn == docs[j].isbn;
        assert m != i;
      }
      DuplicateIsRejected(taken', docs, i + 1, j);
    }
  }

  /** Admitting one more document in front adds exactly its ISBN. */
  lemma AdmittedIsbnsCons(p: BulkPlan, b: Book, rest: BulkPlan)
    requires p.admitted == [b] + rest.admitted
    ensures AdmittedIsbns(p) == {b.isbn} + AdmittedIsbns(rest)
  {
    forall s | s in AdmittedIsbns(rest) ensures s in AdmittedIsbns(p) {
      var k :| 0 <= k < |rest.admitted| && rest.admitted[k].isbn == s;
      assert p.admitted[k + 1] == rest.admitted[k];
    }
    forall s | s in AdmittedIsbns(p) ensures s == b.isbn || s in AdmittedIsbns(rest) {
      var k :| 0 <= k < |p.admitted| && p.admitted[k].isbn == s;
      if k > 0 {
        assert p.admitted[k] == rest.admitted[k - 1];
      }
    }
    assert p.admitted[0].isbn == b.isbn;
  }

  /**
   * The admitted documents carry pairwise distinct ISBNs none of which was taken,
   * and between them they cover every ISBN of the batch that was not taken.
   */
  lemma {:induction false} PlanAdmitsEachNewIsbnOnce(taken: set<string>, docs: seq<Book>, i: nat)
    requires i <= |docs|
    ensures var p := PlanInsert(taken, docs, i);
      && (forall k :: 0 <= k < |p.admitted| ==> p.admitted[k].isbn !in taken)
      && (forall a, b :: 0 <= a < b < |p.admitted| ==> p.admitted[a].isbn != p.admitted[b].isbn)
      && AdmittedIsbns(p) == IsbnsFrom(docs, i) - taken
    decreases |docs| - i
  {
    if i < |docs| {
      var x := docs[i].isbn;
      assert IsbnsFrom(docs, i) == {x} + IsbnsFrom(docs, i + 1);
      if x in taken {
        PlanAdmitsEachNewIsbnOnce(taken, docs, i + 1);
      } else {
        PlanAdmitsEachNewIsbnOnce(taken + {x}, docs, i + 1);
        var rest := PlanInsert(taken + {x}, docs, i + 1);
        var p := PlanInsert(taken, docs, i);
        AdmittedIsbnsCons(p, docs[i], rest);
      }
    }
  }

  /**
   * A rejected document is the one at its recorded position in `docs[i..]`, and
   * its ISBN was taken before it: by the catalog or by an earlier document of the batch.
   */
  ghost predicate DuplicateBefore(taken: set<string>, docs: seq<Book>, i: nat, r: Rejection) {
    && i <= r.index < |docs| && r.book == docs[r.index]
    && (r.book.isbn in taken || exists m :: i <= m < r.index && docs[m].isbn == r.book.isbn)
  }

  /** The unordered bulk insert turns a document away only when its ISBN is already taken. */
  lemma {:induction false} PlanRejectsOnlyDuplicates(taken: set<string>, docs: seq<Book>, i: nat)
    requires i <= |docs|
    ensures forall r :: r in PlanInsert(taken, docs, i).rejected ==> DuplicateBefore(taken, docs, i, r)
    decreases |docs| - i
  {
    if i < |docs| {
      var x := docs[i].isbn;
      var p := PlanInsert(taken, docs, i);
      if x in taken {
        PlanRejectsOnlyDuplicates(taken, docs, i + 1);
        var rest := PlanInsert(taken, docs, i + 1);
        assert p.rejected == [Rejection(i, docs[i])] + rest.rejected;
        forall r | r in p.rejected ensures DuplicateBefore(taken, docs, i, r) {
          if r in rest.rejected && r.book.isbn !in taken {
            var m :| i + 1 <= m < r.index && docs[m].isbn == r.book.isbn;
          }
        }
      } else {
        PlanRejectsOnlyDuplicates(taken + {x}, docs, i + 1);
        var rest := PlanInsert(taken + {x}, docs, i + 1);
        assert p.rejected == rest.rejected;
        forall r | r in p.rejected ensures DuplicateBefore(taken, docs, i, r) {
          assert DuplicateBefore(taken + {x}, docs, i + 1, r);
          if r.book.isbn == x {
            assert docs[i].isbn == r.book.isbn;
          } else if r.book.isbn !in taken {
            var m :| i + 1 <= m < r.index && docs[m].isbn == r.book.isbn;
          }
        }
      }
    }
  }

  /** The ghost view of what an unordered bulk insert added to the catalog. */
  ghost predicate InsertedAsPlanned(before: map<string, Book>, plan: BulkPlan, inserted: seq<Doc>) {
    && BooksOf(inserted) == plan.admitted
    && DistinctIds(inserted)
    && (forall k :: 0 <= k < |inserted| ==> inserted[k].id !in before)
  }

  /** Documents with distinct ids each contribute their own entry. */
  lemma {:induction false} MapOfHolds(docs: seq<Doc>)
    requires DistinctIds(docs)
    ensures forall k :: 0 <= k < |docs| ==> docs[k].id in MapOf(docs) && MapOf(docs)[docs[k].id] == docs[k].book
  {
    if docs != [] {
      var init := docs[..|docs| - 1];
      assert forall k :: 0 <= k < |init| ==> init[k] == docs[k];
      MapOfHolds(init);
    }
  }

  /** Every entry a sequence of documents adds is the id of one of them. */
  lemma {:induction false} MapOfOnly(docs: seq<Doc>)
    ensures forall id :: id in MapOf(docs) ==> exists k :: 0 <= k < |docs| && docs[k].id == id
  {
    if docs != [] {
      var init := docs[..|docs| - 1];
      MapOfOnly(init);
      forall id | id in MapOf(docs) ensures exists k :: 0 <= k < |docs| && docs[k].id == id {
        if id != docs[|docs| - 1].id {
          assert MapOf(docs) == MapOf(init)[docs[|docs| - 1].id := docs[|docs| - 1].book];
          assert id in MapOf(init);
          var k :| 0 <= k < |init| && init[k].id == id;
          assert docs[k].id == id;
        }
      }
    }
  }

  /** Documents with distinct ids add one entry each. */
  lemma {:induction false} MapOfSize(docs: seq<Doc>)
    requires DistinctIds(docs)
    ensures |MapOf(docs)| == |docs|
  {
    if docs != [] {
      var init := docs[..|docs| - 1];
      var last := docs[|docs| - 1];
      assert forall k :: 0 <= k < |init| ==> init[k] == docs[k];
      MapOfSize(init);
      MapOfOnly(init);
      assert last.id !in MapOf(init);
      assert MapOf(docs).Keys == MapOf(init).Keys + {last.id};
    }
  }

  /**
   * An unordered bulk insert does not stop at a rejected document: afterwards
   * every submitted ISBN is in the catalog, and the catalog grew by exactly the
   * documents admitted.
   */
  lemma UnorderedInsertCoversBatch(before: map<string, Book>, docs: seq<Book>, inserted: seq<Doc>)
    requires InsertedAsPlanned(before, PlanInsert(IsbnSet(before), docs, 0), inserted)
    ensures IsbnSet(before + MapOf(inserted)) == IsbnSet(before) + IsbnsFrom(docs, 0)
    ensures |before + MapOf(inserted)| == |before| + |inserted|
  {
    var plan := PlanInsert(IsbnSet(before), docs, 0);
    PlanAdmitsEachNewIsbnOnce(IsbnSet(before), docs, 0);
    AddedIsbnsWithin(before, plan, inserted);
    AddedIsbnsCover(before, plan, inserted);
    AddedSize(before, inserted);
  }

  /** Documents with distinct new ids grow the catalog by exactly their number. */
  lemma AddedSize(before: map<string, Book>, inserted: seq<Doc>)
    requires DistinctIds(inserted) && forall k :: 0 <= k < |inserted| ==> inserted[k].id !in before
    ensures |before + MapOf(inserted)| == |before| + |inserted|
  {
    var added := MapOf(inserted);
    MapOfOnly(inserted);
    MapOfSize(inserted);
    assert before.Keys !! added.Keys;
    assert (before + added).Keys == before.Keys + added.Keys;
  }

  /** After a bulk insert carried out as planned, every held ISBN is an old one or an admitted one. */
  lemma AddedIsbnsWithin(before: map<string, Book>, plan: BulkPlan, inserted: seq<Doc>)
    requires InsertedAsPlanned(before, plan, inserted)
    ensures IsbnSet(before + MapOf(inserted)) <= IsbnSet(before) + AdmittedIsbns(plan)
  {
    var added := MapOf(inserted);
    var after := before + added;
    MapOfHolds(inserted);
    MapOfOnly(inserted);
    forall s | s in IsbnSet(after) ensures s in IsbnSet(before) + AdmittedIsbns(plan) {
      var id :| id in after && after[id].isbn == s;
      if id in added {
        var k :| 0 <= k < |inserted| && inserted[k].id == id;
        assert plan.admitted[k].isbn == s;
      } else {
        assert before[id].isbn == s;
      }
    }
  }

  /** After a bulk insert carried out as planned, every old ISBN and every admitted one is held. */
  lemma AddedIsbnsCover(before: map<string, Book>, plan: BulkPlan, inserted: seq<Doc>)
    requires InsertedAsPlanned(before, plan, inserted)
    ensures IsbnSet(before) + AdmittedIsbns(plan) <= IsbnSet(before + MapOf(inserted))
  {
    var added := MapOf(inserted);
    var after := before + added;
    MapOfHolds(inserted);
    MapOfOnly(inserted);
    forall s | s in IsbnSet(before) + AdmittedIsbns(plan) ensures s in IsbnSet(after) {
      if s in AdmittedIsbns(plan) {
        var k :| 0 <= k < |plan.admitted| && plan.admitted[k].isbn == s;
        assert after[inserted[k].id] == inserted[k].book;
      } else {
        var id :| id in before && before[id].isbn == s;
        assert id !in added;
        assert after[id] == before[id];
      }
    }
  }

  /** The whole catalog is listed: every entry exactly once. */
  ghost predicate ListsCatalog(docs: seq<Doc>, books: map<string, Book>) {
    && |docs| == |books|
    && DistinctIds(docs)
    && (forall k :: 0 <= k < |docs| ==> docs[k].id in books && books[docs[k].id] == docs[k].book)
    && (forall id :: id in books ==> exists k :: 0 <= k < |docs| && docs[k].id == id)
  }

  /** One step of the bulk insert that turns the document at `i` away keeps the plan's account. */
  lemma RejectStep(whole: BulkPlan, taken: set<string>, docs: seq<Book>, i: nat, admitted: seq<Book>, turnedAway: seq<Rejection>)
    requires i < |docs| && docs[i].isbn in taken
    requires var rest := PlanInsert(taken, docs, i);
      whole == BulkPlan(admitted + rest.admitted, turnedAway + rest.rejected)
    ensures var rest := PlanInsert(taken, docs, i + 1);
      whole == BulkPlan(admitted + rest.admitted, (turnedAway + [Rejection(i, docs[i])]) + rest.rejected)
  {
    var next := PlanInsert(taken, docs, i + 1);
    assert turnedAway + ([Rejection(i, docs[i])] + next.rejected) == (turnedAway + [Rejection(i, docs[i])]) + next.rejected;
  }

  /** One step of the bulk insert that admits the document at `i` keeps the plan's account. */
  lemma AdmitStep(whole: BulkPlan, taken: set<string>, docs: seq<Book>, i: nat, admitted: seq<Book>, turnedAway: seq<Rejection>)
    requires i < |docs| && docs[i].isbn !in taken
    requires var rest := PlanInsert(taken, docs, i);
      whole == BulkPlan(admitted + rest.admitted, turnedAway + rest.rejected)
    ensures var rest := PlanInsert(taken + {docs[i].isbn}, docs, i + 1);
      whole == BulkPlan((admitted + [docs[i]]) + rest.admitted, turnedAway + rest.rejected)
  {
    var next := PlanInsert(taken + {docs[i].isbn}, docs, i + 1);
    assert admitted + ([docs[i]] + next.admitted) == (admitted + [docs[i]]) + next.admitted;
  }

  /** Recording one freshly inserted document extends the catalog and the admitted books by it. */
  lemma AppendDoc(before: map<string, Book>, books: map<string, Book>, done: seq<Doc>, d: Doc)
    requires books == before + MapOf(done)
    ensures books[d.id := d.book] == before + MapOf(done + [d])
    ensures BooksOf(done + [d]) == BooksOf(done) + [d.book]
  {
    assert (done + [d])[..|done|] == done;
  }

  /** A fresh id keeps the ids of a bulk insert's documents distinct and new. */
  lemma AppendFreshId(before: map<string, Book>, books: map<string, Book>, done: seq<Doc>, d: Doc)
    requires DistinctIds(done)
    requires forall k :: 0 <= k < |done| ==> done[k].id in books && done[k].id !in before
    requires d.id !in books && before.Keys <= books.Keys
    ensures DistinctIds(done + [d])
    ensures forall k :: 0 <= k < |done + [d]| ==> (done + [d])[k].id in books[d.id := d.book] && (done + [d])[k].id !in before
  {
  }

  /**
   * The state of an unordered bulk insert after the first `i` documents: the
   * catalog conforms, it is the old catalog plus the documents inserted so far
   * under fresh distinct ids, and what was done plus what the plan still
   * holds for the remaining documents is the whole plan.
   */
  ghost predicate Progress(before: map<string, Book>, books: map<string, Book>, docs: seq<Book>, i: nat,
                           done: seq<Doc>, turnedAway: seq<Rejection>, whole: BulkPlan)
  {
    && i <= |docs|
    && Conforms(books)
    && books == before + MapOf(done)
    && DistinctIds(done)
    && (forall k :: 0 <= k < |done| ==> done[k].id in books && done[k].id !in before)
    && var rest := PlanInsert(IsbnSet(books), docs, i);
       whole == BulkPlan(BooksOf(done) + rest.admitted, turnedAway + rest.rejected)
  }

  /** Before the first document, nothing is done and the whole plan lies ahead. */
  lemma StartProgress(books: map<string, Book>, docs: seq<Book>, whole: BulkPlan)
    requires Conforms(books) && whole == PlanInsert(IsbnSet(books), docs, 0)
    ensures Progress(books, books, docs, 0, [], [], whole)
  {
    assert books == books + MapOf([]);
    assert whole == BulkPlan(BooksOf([]) + whole.admitted, [] + whole.rejected);
  }

  /** Turning away a document whose ISBN is taken keeps the bulk insert on plan. */
  lemma RejectKeepsProgress(before: map<string, Book>, books: map<string, Book>, docs: seq<Book>, i: nat,
                            done: seq<Doc>, turnedAway: seq<Rejection>, whole: BulkPlan)
    requires Progress(before, books, docs, i, done, turnedAway, whole)
    requires i < |docs| && docs[i].isbn in IsbnSet(books)
    ensures Progress(before, books, docs, i + 1, done, turnedAway + [Rejection(i, docs[i])], whole)
  {
    RejectStep(whole, IsbnSet(books), docs, i, BooksOf(done), turnedAway);
  }

  /** Inserting a document whose ISBN is new under a fresh id keeps the bulk insert on plan. */
  lemma AdmitKeepsProgress(before: map<string, Book>, books: map<string, Book>, docs: seq<Book>, i: nat,
                           done: seq<Doc>, turnedAway: seq<Rejection>, whole: BulkPlan, id: string)
    requires Progress(before, books, docs, i, done, turnedAway, whole)
    requires i < |docs| && docs[i].isbn !in IsbnSet(books) && Storable(docs[i])
    requires id !in books
    ensures Progress(before, books[id := docs[i]], docs, i + 1, done + [Doc(id, docs[i])], turnedAway, whole)
  {
    var d := Doc(id, docs[i]);
    AddKeepsConforming(books, id, docs[i]);
    AdmitStep(whole, IsbnSet(books), docs, i, BooksOf(done), turnedAway);
    AppendDoc(before, books, done, d);
    AppendFreshId(before, books, done, d);
  }

  /** Once every document was handled, the bulk insert did exactly what the plan says. */
  lemma FinishedAsPlanned(before: map<string, Book>, books: map<string, Book>, docs: seq<Book>,
                          done: seq<Doc>, turnedAway: seq<Rejection>, whole: BulkPlan)
    requires Progress(before, books, docs, |docs|, done, turnedAway, whole)
    ensures InsertedAsPlanned(before, whole, done) && whole.rejected == turnedAway
  {
    assert PlanInsert(IsbnSet(books), docs, |docs|) == BulkPlan([], []);
    assert whole == BulkPlan(BooksOf(done), turnedAway);
  }

  class Store {
    /** The documents, by `_id`. */
    var books: map<string, Book>
    /** Whether the connection opened at start-up is up; while it is not, every operation fails. */
    const connected: bool

    /** The schema and the unique index hold of the stored documents. */
    ghost predicate Valid()
      reads this
    {
      Conforms(books)
    }

    constructor (connected: bool)
      ensures Valid() && books == map[] && this.connected == connected
    {
      books := map[];
      this.connected := connected;
    }

    /** `Book.find()`: every stored document, in no particular order. */
    method Find() returns (r: Result<seq<Doc>, DbError>)
      ensures !connected ==> r == Failure(NetworkError)
      ensures connected ==> r.Success? && ListsCatalog(r.value, books)
    {
      if !connected {
        return Failure(NetworkError);
      }
      var docs: seq<Doc> := [];
      var remaining := books.Keys;
      while remaining != {}
        invariant remaining <= books.Keys
        invariant |docs| + |remaining| == |books|
        invariant forall k :: 0 <= k < |docs| ==> docs[k].id in books && docs[k].id !in remaining && books[docs[k].id] == docs[k].book
        invariant DistinctIds(docs)
        invariant forall id :: id in books && id !in remaining ==> exists k :: 0 <= k < |docs| && docs[k].id == id
        decreases remaining
      {
        var id :| id in remaining;
        var listed := docs;
        docs := docs + [Doc(id, books[id])];
        forall other | other in books && other !in remaining - {id}
          ensures exists k :: 0 <= k < |docs| && docs[k].id == other
        {
          if other == id {
            assert docs[|listed|].id == other;
          } else {
            var k :| 0 <= k < |listed| && listed[k].id == other;
            assert docs[k].id == other;
          }
        }
        remaining := remaining - {id};
      }
      r := Success(docs);
    }

    /** `new Book(b).save()`: validate against the schema, then insert under a fresh `_id`. */
    method Save(b: Book) returns (r: Result<Doc, DbError>)
      requires Valid()
      modifies this
      ensures Valid()
      ensures !Storable(b) ==> r == Failure(ValidationError)
      ensures Storable(b) && !connected ==> r == Failure(NetworkError)
      ensures connected && Storable(b) && b.isbn in IsbnSet(old(books)) ==> r == Failure(DuplicateKeyError(b.isbn))
      ensures r.Failure? ==> books == old(books)
      ensures r.Success? <==> connected && Storable(b) && b.isbn !in IsbnSet(old(books))
      ensures r.Success? ==> r.value.book == b && r.value.id !in old(books) && books == old(books)[r.value.id := b]
    {
      if !Storable(b) {
        return Failure(ValidationError);
      }
      if !connected {
        return Failure(NetworkError);
      }
      if b.isbn in IsbnSet(books) {
        return Failure(DuplicateKeyError(b.isbn));
      }
      FreshIdExists(books.Keys);
      var id :| id !in books;
      AddKeepsConforming(books, id, b);
      books := books[id := b];
      r := Success(Doc(id, b));
    }

    /** `Book.findById(id)`. */
    method FindById(id: string) returns (r: Result<Option<Doc>, DbError>)
      ensures !connected ==> r == Failure(NetworkError)
      ensures connected ==> r.Success?
      ensures r.Success? ==> (r.value.Some? <==> id in books)
      ensures r.Success? && r.value.Some? ==> r.value.value == Doc(id, books[id])
    {
      if !connected {
        return Failure(NetworkError);
      }
      r := Success(if id in books then Some(Doc(id, books[id])) else None);
    }

    /** `Book.findByIdAndDelete(id)`: remove the entry and hand back what it held. */
    method FindByIdAndDelete(id: string) returns (r: Result<Option<Doc>, DbError>)
      requires Valid()
      modifies this
      ensures Valid()
      ensures !connected ==> r == Failure(NetworkError) && books == old(books)
      ensures connected ==> books == old(books) - {id}
      ensures connected ==> r == Success(if id in old(books) then Some(Doc(id, old(books)[id])) else None)
    {
      if !connected {
        return Failure(NetworkError);
      }
      if id in books {
        RemoveKeepsConforming(books, id);
        r := Success(Some(Doc(id, books[id])));
      } else {
        r := Success(None);
      }
      books := books - {id};
    }

    /**
     * `Book.insertMany(docs, { ordered: false })`: try every document in turn;
     * one the unique index turns away does not stop the others. If any was
     * turned away the call rejects with a bulk write error listing them.
     */
    method InsertMany(docs: seq<Book>) returns (r: Result<seq<Doc>, DbError>, ghost inserted: seq<Doc>)
      requires Valid()
      requires forall k :: 0 <= k < |docs| ==> Storable(docs[k])
      modifies this
      ensures Valid()
      ensures !connected ==> r == Failure(NetworkError) && books == old(books) && inserted == []
      ensures connected ==>
        var plan := PlanInsert(IsbnSet(old(books)), docs, 0);
        && InsertedAsPlanned(old(books), plan, inserted)
        && books == old(books) + MapOf(inserted)
        && r == if plan.rejected == [] then Success(inserted) else Failure(BulkWriteError(plan.rejected, |inserted|))
    {
      if !connected {
        return Failure(NetworkError), [];
      }
      ghost var before := books;
      ghost var whole := PlanInsert(IsbnSet(before), docs, 0);
      var done, turnedAway := InsertEach(docs, whole);
      FinishedAsPlanned(before, books, docs, done, turnedAway, whole);
      inserted := done;
      r := if turnedAway == [] then Success(done) else Failure(BulkWriteError(turnedAway, |done|));
    }

    /** The loop of an unordered bulk insert: each document in turn goes in or is turned away. */
    method InsertEach(docs: seq<Book>, ghost whole: BulkPlan) returns (done: seq<Doc>, turnedAway: seq<Rejection>)
      requires Conforms(books)
      requires forall k :: 0 <= k < |docs| ==> Storable(docs[k])
      requires whole == PlanInsert(IsbnSet(books), docs, 0)
      modifies this
      ensures Progress(old(books), books, docs, |docs|, done, turnedAway, whole)
    {
      ghost var before := books;
      var i := 0;
      done, turnedAway := [], [];
      StartProgress(books, docs, whole);
      while i < |docs|
        invariant 0 <= i <= |docs|
        invariant Progress(before, books, docs, i, done, turnedAway, whole)
      {
        done, turnedAway := InsertOne(docs, i, before, done, turnedAway, whole);
        i := i + 1;
      }
    }

    /** One step of an unordered bulk insert: document `i` goes in under a fresh id, or is turned away. */
    method InsertOne(docs: seq<Book>, i: nat, ghost before: map<string, Book>, done: seq<Doc>,
                     turnedAway: seq<Rejection>, ghost whole: BulkPlan)
      returns (done': seq<Doc>, turnedAway': seq<Rejection>)
      requires Progress(before, books, docs, i, done, turnedAway, whole)
      requires i < |docs| && Storable(docs[i])
      modifies this
      ensures Progress(before, books, docs, i + 1, done', turnedAway', whole)
    {
      var b := docs[i];
      if b.isbn in IsbnSet(books) {
        RejectKeepsProgress(before, books, docs, i, done, turnedAway, whole);
        done', turnedAway' := done, turnedAway + [Rejection(i, b)];
      } else {
        FreshIdExists(books.Keys);
        var id :| id !in books;
        AdmitKeepsProgress(before, books, docs, i, done, turnedAway, whole, id);
        books := books[id := b];
        done', turnedAway' := done + [Doc(id, b)], turnedAway;
      }
    }
  }
}
