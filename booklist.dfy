/** The book list manager of scripts.js:76-118 and the handlers that drive it:
    start-up (124-125), search submit (157-170), show more (172-177) and
    preview selection (179-194). */
module BookLists {
  import opened Wrappers
  import opened Catalogue
  import opened Pagination

  class BookList {
    /** The catalogue, the author names and `BOOKS_PER_PAGE`, as supplied by the data module. */
    const books: seq<Book>
    const authors: Entries
    const pageSize: nat

    var matches: seq<Book>
    var page: nat
    /** The previews in the list container, in order. */
    var container: seq<Preview>
    /** The "show more" button's `disabled` flag and the count in its label. */
    var disabled: bool
    var remainingLabel: nat
    /** The book shown in the detail overlay, once one has been selected. */
    var active: Option<Detail>

    /** Between events: the matches come from the catalogue in order, the container holds
        the previews of exactly the pages shown so far, and the button reflects both. */
    ghost predicate Valid()
      reads this
    {
      pageSize > 0 &&
      IsSubsequence(matches, books) &&
      container == Previews(Shown(matches, page, pageSize), authors) &&
      disabled == (|matches| <= page * pageSize) &&
      remainingLabel == RemainingLabel(|matches|, page, pageSize)
    }

    /** The object literal (`page: 1`, `matches: books`) and the first render at start-up. */
    constructor (books: seq<Book>, authors: Entries, pageSize: nat)
      requires pageSize > 0
      ensures Valid()
      ensures this.books == books && this.authors == authors && this.pageSize == pageSize
      ensures matches == books && page == 1 && active == None
      ensures container == Previews(Slice(books, 0, pageSize), authors)
    {
      this.books := books;
      this.authors := authors;
      this.pageSize := pageSize;
      matches := books;
      page := 1;
      container := [];
      disabled := false;
      remainingLabel := 0;
      active := None;
      new;
      SubsequenceReflexive(books);
      Render(Slice(matches, 0, pageSize));
      UpdateShowMoreButton();
      FirstPageIsShown(matches, pageSize);
    }

    /** `render`: appends one preview per book, in order, and removes nothing. */
    method Render(s: seq<Book>)
      modifies this`container
      ensures container == old(container) + Previews(s, authors)
    {
      var fragment: seq<Preview> := [];
      var i := 0;
      while i < |s|
        invariant 0 <= i <= |s|
        invariant fragment == Previews(s[..i], authors)
      {
        assert s[..i + 1][..i] == s[..i];
        fragment := fragment + [CreateElement(s[i], authors)];
        i := i + 1;
      }
      assert s[..i] == s;
      container := container + fragment;
    }

    /** `filter`: the matches become the catalogue books passing the criteria and the page is reset. */
    method Filter(c: Criteria)
      modifies this`matches, this`page
      ensures matches == FilterBooks(books, c) && page == 1
    {
      matches := FilterBooks(books, c);
      page := 1;
    }

    /** `updateShowMoreButton`. */
    method UpdateShowMoreButton()
      modifies this`disabled, this`remainingLabel
      ensures disabled == (|matches| <= page * pageSize)
      ensures remainingLabel == RemainingLabel(|matches|, page, pageSize)
    {
      var remaining := |matches| - page * pageSize;
      disabled := remaining <= 0;
      remainingLabel := if remaining > 0 then remaining else 0;
    }

    /** The search form's submit handler: filter, clear the container, render the first page,
        update the button. Returns whether the no-matches message is shown. */
    method SearchSubmit(c: Criteria) returns (noMatches: bool)
      requires pageSize > 0
      modifies this`matches, this`page, this`container, this`disabled, this`remainingLabel
      ensures Valid()
      ensures matches == FilterBooks(books, c) && page == 1
      ensures container == Previews(Slice(matches, 0, pageSize), authors)
      ensures noMatches <==> |matches| == 0
      ensures noMatches ==> container == []
    {
      Filter(c);
      FilterSubsequence(books, c);
      noMatches := |matches| == 0;
      container := [];
      FirstPageStep(matches, pageSize, authors);
      Render(Slice(matches, 0, pageSize));
      UpdateShowMoreButton();
    }

    /** The "show more" handler: render the next page, advance the page, update the button. */
    method ShowMore()
      requires Valid()
      modifies this`page, this`container, this`disabled, this`remainingLabel
      ensures Valid()
      ensures matches == old(matches) && page == old(page) + 1
      ensures container == old(container) + Previews(NextPage(matches, old(page), pageSize), authors)
    {
      var next := Slice(matches, page * pageSize, (page + 1) * pageSize);
      ShowMoreStep(matches, page, pageSize, authors);
      Render(next);
      page := page + 1;
      UpdateShowMoreButton();
    }

    /** The list's click handler: `clicked` is the `data-preview` id of the clicked preview,
        `None` when the click was outside every preview. A found book fills the overlay;
        otherwise nothing changes. */
    method ShowDetail(clicked: Option<string>)
      modifies this`active
      ensures clicked.Some? && FindById(books, clicked.value).Some? ==>
                active == Some(DetailOf(FindById(books, clicked.value).value, authors))
      ensures clicked.None? || FindById(books, clicked.value).None? ==> active == old(active)
    {
      if clicked.Some? {
        var book := FindById(books, clicked.value);
        if book.Some? {
          active := Some(DetailOf(book.value, authors));
        }
      }
    }
  }

  /** The first page rendered is what page 1 shows, and nothing when nothing matched. */
  lemma FirstPageStep(matches: seq<Book>, pageSize: nat, authors: Entries)
    ensures Previews(Slice(matches, 0, pageSize), authors) == Previews(Shown(matches, 1, pageSize), authors)
    ensures matches == [] ==> Previews(Slice(matches, 0, pageSize), authors) == []
  {
    FirstPageIsShown(matches, pageSize);
  }

  /** The "show more" slice is the next page, and rendering it after the pages shown so far
      leaves the container holding the pages shown one page later. */
  lemma ShowMoreStep(matches: seq<Book>, page: nat, pageSize: nat, authors: Entries)
    ensures Slice(matches, page * pageSize, (page + 1) * pageSize) == NextPage(matches, page, pageSize)
    ensures Previews(Shown(matches, page, pageSize), authors) + Previews(NextPage(matches, page, pageSize), authors)
            == Previews(Shown(matches, page + 1, pageSize), authors)
  {
    NextPageExtendsShown(matches, page, pageSize);
    PreviewsConcat(Shown(matches, page, pageSize), NextPage(matches, page, pageSize), authors);
  }

  /** Every preview in the container opens the detail of the book it was rendered from,
      when the catalogue's ids are unique. */
  lemma ContainerSelectsRenderedBooks(books: seq<Book>, authors: Entries, matches: seq<Book>,
                                      page: nat, pageSize: nat, k: nat)
    requires UniqueIds(books) && IsSubsequence(matches, books)
    requires k < |Shown(matches, page, pageSize)|
    ensures k < |Previews(Shown(matches, page, pageSize), authors)|
    ensures FindById(books, Previews(Shown(matches, page, pageSize), authors)[k].id) == Some(matches[k])
  {
    ShownIsPrefix(matches, page, pageSize);
    PreviewsPointwise(Shown(matches, page, pageSize), authors);
    PreviewSelectsItsBook(books, matches, authors, k);
  }

  /** With unique catalogue ids, no book is previewed twice: the container's ids are distinct. */
  lemma ContainerIdsDistinct(l: BookList)
    requires l.Valid() && UniqueIds(l.books)
    ensures forall i, j :: 0 <= i < j < |l.container| ==> l.container[i].id != l.container[j].id
  {
    var shown := Shown(l.matches, l.page, l.pageSize);
    SubsequenceUniqueIds(l.matches, l.books);
    ShownIsPrefix(l.matches, l.page, l.pageSize);
    PreviewsPointwise(shown, l.authors);
    forall i, j | 0 <= i < j < |l.container|
      ensures l.container[i].id != l.container[j].id
    {
      assert l.container[i].id == l.matches[i].id && l.container[j].id == l.matches[j].id;
    }
  }

  /** A catalogue of 25 books shown 20 to a page: 20 previews and "(5)" with the button enabled,
      then one click shows all 25 with "(0)" and the button disabled. */
  method TwentyFiveBooks(books: seq<Book>, authors: Entries)
    returns (first: nat, label1: nat, disabled1: bool, second: nat, label2: nat, disabled2: bool)
    requires |books| == 25
    ensures first == 20 && label1 == 5 && !disabled1
    ensures second == 25 && label2 == 0 && disabled2
  {
    var list := new BookList(books, authors, 20);
    PreviewsPointwise(Slice(books, 0, 20), authors);
    first, label1, disabled1 := |list.container|, list.remainingLabel, list.disabled;
    list.ShowMore();
    PreviewsPointwise(NextPage(books, 1, 20), authors);
    second, label2, disabled2 := |list.container|, list.remainingLabel, list.disabled;
  }
}
