/** The catalogue records, the preview a book renders as, the search criteria
    and the filter `BookList.filter` applies (scripts.js). */
module Catalogue {
  import opened Wrappers
  import opened Text

  /** `Object.entries` of an id-to-name object such as `authors` or `genres`, in iteration order. */
  type Entries = seq<(string, string)>

  /** A record of the catalogue; never changed by the page. */
  datatype Book = Book(
    id: string,
    title: string,
    author: string,
    genres: seq<string>,
    image: string,
    description: string,
    published: string)

  /** What `Book.createElement` renders: its `data-preview` id, image, title and author name. */
  datatype Preview = Preview(id: string, image: string, title: string, author: Option<string>)

  /** What the detail overlay shows for a selected book. */
  datatype Detail = Detail(image: string, title: string, author: Option<string>, published: string, description: string)

  /** The search form's fields: a genre id or "any", an author id or "any", free title text. */
  datatype Criteria = Criteria(genre: string, author: string, title: string)

  /** No two entries share a key, as holds of the entries of a JavaScript object. */
  predicate UniqueKeys(m: Entries) {
    forall i, j :: 0 <= i < j < |m| ==> m[i].0 != m[j].0
  }

  /** `m[key]`: the name stored under `key`, or `None` where JavaScript reads `undefined`. */
  function Lookup(m: Entries, key: string): (r: Option<string>)
    ensures r.Some? <==> exists i :: 0 <= i < |m| && m[i].0 == key
    ensures r.Some? ==> exists i :: 0 <= i < |m| && m[i] == (key, r.value)
  {
    if m == [] then None
    else if m[0].0 == key then Some(m[0].1)
    else
      var r := Lookup(m[1..], key);
      assert forall i :: 1 <= i < |m| ==> m[i] == m[1..][i - 1];
      r
  }

  /** With unique keys, the lookup finds the name stored beside the key. */
  lemma {:induction false} LookupUnique(m: Entries, i: nat)
    requires UniqueKeys(m) && i < |m|
    ensures Lookup(m, m[i].0) == Some(m[i].1)
  {
    if i > 0 {
      assert m[1..][i - 1] == m[i];
      LookupUnique(m[1..], i - 1);
    }
  }

  /** `Book.createElement(book)` (scripts.js:10-22), as a record. */
  function CreateElement(book: Book, authors: Entries): Preview {
    Preview(book.id, book.image, book.title, Lookup(authors, book.author))
  }

  /** The previews of `s`, one per book, in order. */
  function Previews(s: seq<Book>, authors: Entries): seq<Preview> {
    if s == [] then [] else Previews(s[..|s| - 1], authors) + [CreateElement(s[|s| - 1], authors)]
  }

  /** Rendering gives one preview per book, the k-th made from the k-th book. */
  lemma {:induction false} PreviewsPointwise(s: seq<Book>, authors: Entries)
    ensures |Previews(s, authors)| == |s|
    ensures forall k :: 0 <= k < |s| ==> Previews(s, authors)[k] == CreateElement(s[k], authors)
  {
    if s != [] {
      PreviewsPointwise(s[..|s| - 1], authors);
    }
  }

  /** Rendering two runs one after the other renders their concatenation. */
  lemma {:induction false} PreviewsConcat(a: seq<Book>, b: seq<Book>, authors: Entries)
    ensures Previews(a + b, authors) == Previews(a, authors) + Previews(b, authors)
  {
    if b == [] {
      assert a + b == a;
    } else {
      assert (a + b)[..|a + b| - 1] == a + b[..|b| - 1];
      PreviewsConcat(a, b[..|b| - 1], authors);
    }
  }

  predicate GenreMatch(c: Criteria, b: Book) {
    c.genre == "any" || c.genre in b.genres
  }

  /** Blankness is judged on the trimmed query; a non-blank query is matched untrimmed. */
  predicate TitleMatch(c: Criteria, b: Book) {
    IsBlank(c.title) || Contains(ToLower(b.title), ToLower(c.title))
  }

  predicate AuthorMatch(c: Criteria, b: Book) {
    c.author == "any" || b.author == c.author
  }

  /** The predicate `books.filter` is given (scripts.js:97-101). */
  predicate Keeps(c: Criteria, b: Book) {
    TitleMatch(c, b) && AuthorMatch(c, b) && GenreMatch(c, b)
  }

  /** Queries that lower-case alike select alike: the title test ignores letter case. */
  lemma TitleMatchIgnoresCase(c1: Criteria, c2: Criteria, b: Book)
    requires ToLower(c1.title) == ToLower(c2.title)
    ensures TitleMatch(c1, b) <==> TitleMatch(c2, b)
  {
    LowerKeepsBlank(c1.title);
    LowerKeepsBlank(c2.title);
  }

  /** "HARRY" finds "Harry Potter". */
  lemma UpperCaseQueryMatches(b: Book, c: Criteria)
    requires b.title == "Harry Potter" && c.title == "HARRY"
    ensures TitleMatch(c, b)
  {
    assert ToLower(c.title) == "harry";
    assert ToLower(b.title)[0..5] == "harry";
    assert OccursAt(ToLower(b.title), ToLower(c.title), 0);
  }

  /** A query is matched untrimmed: "Potter " with its trailing space does not find "Harry Potter". */
  lemma QueryIsNotTrimmed(b: Book, c: Criteria)
    requires b.title == "Harry Potter" && c.title == "Potter "
    ensures !TitleMatch(c, b)
  {
    assert !IsWhitespace(c.title[0]);
    BlankIffAllWhitespace(c.title);
    var hay, needle := ToLower(b.title), ToLower(c.title);
    forall i ensures !OccursAt(hay, needle, i) {
      if 0 <= i && i + |needle| <= |hay| {
        assert needle[6] == ' ' && hay[i + 6] != ' ';
        assert hay[i..i + |needle|][6] != needle[6];
      }
    }
  }

  /** `s` is `t` with some elements left out, the rest in their original order. */
  predicate IsSubsequence<T(==)>(s: seq<T>, t: seq<T>)
    decreases |t|
  {
    s == [] || (t != [] && ((s[0] == t[0] && IsSubsequence(s[1..], t[1..])) || IsSubsequence(s, t[1..])))
  }

  lemma {:induction false} SubsequenceReflexive<T>(s: seq<T>)
    ensures IsSubsequence(s, s)
  {
    if s != [] {
      SubsequenceReflexive(s[1..]);
    }
  }

  lemma {:induction false} SubsequenceMembers<T>(s: seq<T>, t: seq<T>)
    requires IsSubsequence(s, t)
    ensures forall x :: x in s ==> x in t
    decreases |t|
  {
    if s != [] {
      if s[0] == t[0] && IsSubsequence(s[1..], t[1..]) {
        SubsequenceMembers(s[1..], t[1..]);
        assert forall x :: x in s ==> x == s[0] || x in s[1..];
      } else {
        SubsequenceMembers(s, t[1..]);
      }
    }
  }

  /** `books.filter(...)` with the predicate of scripts.js:97-101. */
  function FilterBooks(books: seq<Book>, c: Criteria): seq<Book> {
    if books == [] then []
    else if Keeps(c, books[0]) then [books[0]] + FilterBooks(books[1..], c)
    else FilterBooks(books[1..], c)
  }

  /** The matches keep the catalogue's order: they are a subsequence of it. */
  lemma {:induction false} FilterSubsequence(books: seq<Book>, c: Criteria)
    ensures IsSubsequence(FilterBooks(books, c), books)
  {
    if books != [] {
      FilterSubsequence(books[1..], c);
    }
  }

  /** Each book the criteria accept is kept as often as the catalogue holds it; every other is dropped. */
  lemma {:induction false} FilterCounts(books: seq<Book>, c: Criteria)
    ensures forall b :: multiset(FilterBooks(books, c))[b] == if Keeps(c, b) then multiset(books)[b] else 0
  {
    if books != [] {
      FilterCounts(books[1..], c);
      assert books == [books[0]] + books[1..];
    }
  }

  /** A book is kept exactly when it is in the catalogue and passes all three tests;
      every dropped catalogue book fails at least one of them. */
  lemma FilterKeepsExactly(books: seq<Book>, c: Criteria, b: Book)
    ensures b in FilterBooks(books, c) <==> b in books && GenreMatch(c, b) && AuthorMatch(c, b) && TitleMatch(c, b)
  {
    FilterCounts(books, c);
    assert b in FilterBooks(books, c) <==> multiset(FilterBooks(books, c))[b] > 0;
    assert b in books <==> multiset(books)[b] > 0;
  }

  /** With genre and author "any" and a blank title, the filter keeps the whole catalogue in order. */
  lemma {:induction false} FilterAllAny(books: seq<Book>, c: Criteria)
    requires c.genre == "any" && c.author == "any" && IsBlank(c.title)
    ensures FilterBooks(books, c) == books
  {
    if books != [] {
      FilterAllAny(books[1..], c);
    }
  }

  /** No two books share an id. */
  predicate UniqueIds(s: seq<Book>) {
    forall i, j :: 0 <= i < j < |s| ==> s[i].id != s[j].id
  }

  /** A subsequence of a catalogue with unique ids has unique ids: no book is matched twice. */
  lemma {:induction false} SubsequenceUniqueIds(s: seq<Book>, t: seq<Book>)
    requires IsSubsequence(s, t) && UniqueIds(t)
    ensures UniqueIds(s)
    decreases |t|
  {
    if s != [] {
      if s[0] == t[0] && IsSubsequence(s[1..], t[1..]) {
        SubsequenceUniqueIds(s[1..], t[1..]);
        SubsequenceMembers(s[1..], t[1..]);
        forall j | 0 < j < |s| ensures s[0].id != s[j].id {
          assert s[j] == s[1..][j - 1] && s[j] in s[1..];
          var k :| 0 <= k < |t[1..]| && t[1..][k] == s[j];
          assert t[k + 1] == s[j];
        }
      } else {
        SubsequenceUniqueIds(s, t[1..]);
      }
    }
  }

  /** `books.find(book => book.id === id)`: the first book carrying `id`, if any. */
  function FindById(books: seq<Book>, id: string): (r: Option<Book>)
    ensures r.Some? <==> exists i :: 0 <= i < |books| && books[i].id == id
    ensures r.Some? ==> r.value in books && r.value.id == id
    ensures r.Some? ==> exists i :: FirstWithId(books, id, i) && books[i] == r.value
  {
    if books == [] then None
    else if books[0].id == id then
      assert FirstWithId(books, id, 0);
      Some(books[0])
    else
      var r := FindById(books[1..], id);
      assert forall i :: 1 <= i < |books| ==> books[i] == books[1..][i - 1];
      if r.Some? then
        var i :| FirstWithId(books[1..], id, i) && books[1..][i] == r.value;
        assert FirstWithId(books, id, i + 1);
        r
      else r
  }

  /** Index `i` holds the first book with this id. */
  predicate FirstWithId(books: seq<Book>, id: string, i: int) {
    0 <= i < |books| && books[i].id == id && forall j :: 0 <= j < i ==> books[j].id != id
  }

  /** With unique ids, looking up the id of a catalogue book finds that very book. */
  lemma {:induction false} FindOwnId(books: seq<Book>, b: Book)
    requires UniqueIds(books) && b in books
    ensures FindById(books, b.id) == Some(b)
  {
    if books[0] != b {
      assert books[0].id != b.id by {
        var k :| 0 <= k < |books| && books[k] == b;
      }
      assert b in books[1..] by {
        var k :| 0 <= k < |books| && books[k] == b;
        assert books[1..][k - 1] == b;
      }
      FindOwnId(books[1..], b);
    }
  }

  /** The detail handler's view of a book (scripts.js:186-191), the year left as the raw date. */
  function DetailOf(b: Book, authors: Entries): Detail {
    Detail(b.image, b.title, Lookup(authors, b.author), b.published, b.description)
  }

  /** Clicking a preview of a matched book opens the detail of that very book, when ids are unique. */
  lemma PreviewSelectsItsBook(books: seq<Book>, matches: seq<Book>, authors: Entries, k: nat)
    requires UniqueIds(books) && IsSubsequence(matches, books) && k < |matches|
    ensures FindById(books, CreateElement(matches[k], authors).id) == Some(matches[k])
  {
    SubsequenceMembers(matches, books);
    FindOwnId(books, matches[k]);
  }
}
