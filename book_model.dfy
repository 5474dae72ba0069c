/**
 * The `Book` document of backend/models/Books.js: three required text
 * fields, an optional image path, and a unique index on `isbn`.
 */
module BookModel {
  import opened Wrappers

  /** A stored book. `created_at` (a wall-clock default) is not modelled. */
  datatype Book = Book(title: string, author: string, isbn: string, imagePath: Option<string>)

  /** A stored book together with the `_id` the storage layer gave it. */
  datatype Doc = Doc(id: string, book: Book)

  /**
   * The fields of a request body or raw document before the schema casts it:
   * each one may be missing.
   */
  datatype BookFields = BookFields(title: Option<string>, author: Option<string>,
                                   isbn: Option<string>, imagePath: Option<string>)

  /** JavaScript truthiness of an optional string: present and non-empty. */
  predicate Truthy(s: Option<string>) {
    s.Some? && s.value != ""
  }

  /** The schema's `required: true` on a string path rejects the empty string. */
  predicate Storable(b: Book) {
    b.title != "" && b.author != "" && b.isbn != ""
  }

  /** The set of ISBNs held by a catalog. */
  function IsbnSet(books: map<string, Book>): set<string> {
    set id | id in books :: books[id].isbn
  }

  /** The unique index `{ isbn: 1 }`: no two stored books share an ISBN. */
  ghost predicate UniqueIsbns(books: map<string, Book>) {
    forall id1, id2 :: id1 in books && id2 in books && books[id1].isbn == books[id2].isbn ==> id1 == id2
  }

  /** The schema invariant of the whole collection. */
  ghost predicate Conforms(books: map<string, Book>) {
    UniqueIsbns(books) && forall id :: id in books ==> Storable(books[id])
  }

  /** The ids of a sequence of documents are pairwise distinct. */
  ghost predicate DistinctIds(docs: seq<Doc>) {
    forall i, j :: 0 <= i < j < |docs| ==> docs[i].id != docs[j].id
  }

  /** The books carried by a sequence of documents, in order. */
  function BooksOf(docs: seq<Doc>): (r: seq<Book>)
    ensures |r| == |docs|
    ensures forall k :: 0 <= k < |docs| ==> r[k] == docs[k].book
  {
    if docs == [] then [] else BooksOf(docs[..|docs| - 1]) + [docs[|docs| - 1].book]
  }

  /** The catalog entries a sequence of documents adds, later ids overriding earlier ones. */
  function MapOf(docs: seq<Doc>): map<string, Book> {
    if docs == [] then map[]
    else MapOf(docs[..|docs| - 1])[docs[|docs| - 1].id := docs[|docs| - 1].book]
  }

  /** Adding a book whose ISBN is new keeps the collection conforming. */
  lemma AddKeepsConforming(books: map<string, Book>, id: string, b: Book)
    requires Conforms(books) && Storable(b)
    requires id !in books && b.isbn !in IsbnSet(books)
    ensures Conforms(books[id := b])
    ensures IsbnSet(books[id := b]) == IsbnSet(books) + {b.isbn}
  {
    var m := books[id := b];
    forall k | k in books ensures books[k].isbn != b.isbn {
      assert books[k].isbn in IsbnSet(books);
    }
    assert IsbnSet(m) == IsbnSet(books) + {b.isbn} by {
      forall s | s in IsbnSet(books) ensures s in IsbnSet(m) {
        var k :| k in books && books[k].isbn == s;
        assert m[k] == books[k];
      }
      assert m[id].isbn == b.isbn;
    }
  }

  /** Removing an entry keeps the collection conforming and frees exactly that ISBN. */
  lemma {:induction false} RemoveKeepsConforming(books: map<string, Book>, id: string)
    requires Conforms(books) && id in books
    ensures Conforms(books - {id})
    ensures IsbnSet(books - {id}) == IsbnSet(books) - {books[id].isbn}
  {
    var m := books - {id};
    forall s | s in IsbnSet(books) - {books[id].isbn} ensures s in IsbnSet(m) {
      var k :| k in books && books[k].isbn == s;
      assert k != id && m[k] == books[k];
    }
  }

  /** In a conforming catalog, an ISBN is held by exactly one id or by none. */
  lemma {:induction false} AtMostOneHolder(books: map<string, Book>, isbn: string)
    requires UniqueIsbns(books)
    ensures |set id | id in books && books[id].isbn == isbn| == if isbn in IsbnSet(books) then 1 else 0
  {
    var holders := set id | id in books && books[id].isbn == isbn;
    if isbn in IsbnSet(books) {
      var k :| k in books && books[k].isbn == isbn;
      assert holders == {k};
    } else {
      assert holders == {};
    }
  }

  /** A catalog never holds more distinct ISBNs than entries. */
  lemma {:induction false} IsbnSetSize(books: map<string, Book>)
    ensures |IsbnSet(books)| <= |books|
    decreases |books|
  {
    if books != map[] {
      var id :| id in books;
      var rest := books - {id};
      IsbnSetSize(rest);
      assert IsbnSet(books) <= IsbnSet(rest) + {books[id].isbn} by {
        forall s | s in IsbnSet(books) ensures s in IsbnSet(rest) + {books[id].isbn} {
          var k :| k in books && books[k].isbn == s;
          if k != id {
            assert rest[k] == books[k];
          }
        }
      }
      SubsetSize(IsbnSet(books), IsbnSet(rest) + {books[id].isbn});
    }
  }

  /** A subset is no larger than its superset. */
  lemma {:induction false} SubsetSize<T>(a: set<T>, b: set<T>)
    requires a <= b
    ensures |a| <= |b|
  {
    assert b == a + (b - a);
  }

  /**
   * The unique index holds exactly when the catalog has as many distinct
   * ISBNs as entries.
   */
  lemma {:induction false} UniqueIsbnsByCount(books: map<string, Book>)
    ensures UniqueIsbns(books) <==> |IsbnSet(books)| == |books|
    decreases |books|
  {
    if UniqueIsbns(books) {
      if books != map[] {
        var id :| id in books;
        var rest := books - {id};
        UniqueIsbnsByCount(rest);
        assert IsbnSet(books) == IsbnSet(rest) + {books[id].isbn} by {
          forall s | s in IsbnSet(books) ensures s in IsbnSet(rest) + {books[id].isbn} {
            var k :| k in books && books[k].isbn == s;
            if k != id {
              assert rest[k] == books[k];
            }
          }
          forall s | s in IsbnSet(rest) ensures s in IsbnSet(books) {
            var k :| k in rest && rest[k].isbn == s;
            assert books[k] == rest[k];
          }
        }
        forall k | k in rest ensures rest[k].isbn != books[id].isbn {
          assert k != id;
        }
      }
    } else {
      var id1, id2 :| id1 in books && id2 in books && books[id1].isbn == books[id2].isbn && id1 != id2;
      var rest := books - {id1};
      IsbnSetSize(rest);
      assert IsbnSet(books) <= IsbnSet(rest) by {
        forall s | s in IsbnSet(books) ensures s in IsbnSet(rest) {
          var k :| k in books && books[k].isbn == s;
          var j := if k == id1 then id2 else k;
          assert j in rest && rest[j].isbn == s;
        }
      }
      SubsetSize(IsbnSet(books), IsbnSet(rest));
    }
  }

  /** Every finite set of ids leaves some id unused: the storage layer can always pick a fresh `_id`. */
  lemma FreshIdExists(used: set<string>)
    ensures exists id :: id !in used
  {
    var n := LengthBound(used);
    assert seq(n, _ => 'a') !in used;
  }

  /** A bound above the length of every id in a finite set. */
  lemma {:induction false} LengthBound(used: set<string>) returns (n: nat)
    ensures forall s :: s in used ==> |s| < n
    decreases |used|
  {
    if used == {} {
      n := 0;
    } else {
      var x :| x in used;
      var m := LengthBound(used - {x});
      n := if |x| + 1 > m then |x| + 1 else m;
    }
  }
}
