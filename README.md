# Book catalogue browser: a Dafny model

This project models the logic of a client-side book catalogue page. The page shows a
paginated list of book previews, filters them by genre, author and title, and opens a
detail view when a preview is clicked. It switches the page between a day and a night
colour pair. It also fills select controls with options from id-to-name mappings. The
modelled sources are `scripts.js` (book list manager, preview renderer, theme manager,
dropdown populator and event handlers), `theme-Toggler.js` (the `theme-toggler`
element's click handler) and `searchFilter.js` (the `search-filter` element).

Modules, by source file:

- `Text` (text.dfy): the string operations the code relies on. `trim` uses the
  ECMAScript whitespace set, `toLowerCase` covers ASCII letters only, and `includes`
  is a substring test.
- `Catalogue` (catalogue.dfy): book records, previews (`Book.createElement`), filter
  criteria, the filter predicate and `books.filter`, the `authors[...]` lookup and
  `books.find`.
- `Pagination` (pagination.dfy): `Array.prototype.slice` with clamped bounds, the pages
  shown so far, the next page, and the remaining count.
- `BookLists` (booklist.dfy): the `BookList` object as a class with fields `matches`,
  `page`, `container`, `disabled`, `remainingLabel` and the detail overlay's `active`
  book. Its methods are `render`, `filter`, `updateShowMoreButton`, the search-submit
  handler, the show-more handler and the preview-click handler.
- `Dropdowns` (dropdowns.dfy): the option list built from a mapping, and
  `Dropdown.populate` as a method that appends to a select control.
- `SearchFilters` (searchfilter.dfy): the `search-filter` element's `render`. The
  default-label fallback and the JSON-parse fallback are functions of the element's
  attributes.
- `Themes` (themes.dfy): the `--color-dark` / `--color-light` pair and the settings
  selector, written by `Theme.update`, `Theme.initialize` and the toggler click.
- `App` (app.dfy): start-up (theme, both dropdowns, first page, button) and the
  settings form's submit handler.
- `Wrappers` (wrappers.dfy): `Option` and `Result`.

The main invariant is `BookList.Valid()`, which holds after start-up, after every
search and after every "show more" click:

- `matches` is a subsequence of the catalogue.
- `container` holds the previews of exactly `matches[..min(|matches|, page * BOOKS_PER_PAGE)]`.
- The button is disabled exactly when no match is left unshown.
- The button's label counts the matches not yet shown.

The page number is only ever reset to 1 or increased by 1, but no proof relies on
`page >= 1`.

Inputs that the code reads from outside are parameters of the model:

- the catalogue, the author and genre mappings and `BOOKS_PER_PAGE` (from the data module);
- the colour-scheme preference (`window.matchMedia`);
- the clicked preview's id;
- the outcome of `JSON.parse` on the `options` attribute.

## Model

| member | source | states |
|---|---|---|
| `Text.TrimStartSuffix` | scripts.js:99 | the left half of `trim`: drops exactly the leading whitespace and leaves a suffix whose first character is not whitespace |
| `Text.TrimEndPrefix` | theme-Toggler.js:29 | the right half of `trim`: drops exactly the trailing whitespace and leaves a prefix whose last character is not whitespace |
| `Text.BlankIffAllWhitespace` | scripts.js:99 | `title.trim() === ''` holds exactly when every character of the title is whitespace |
| `Text.TrimUnpadded` | theme-Toggler.js:29 | a value that neither starts nor ends with whitespace is unchanged by `trim` |
| `Text.Trim` | theme-Toggler.js:29 | `trim`: the left half, then the right half; its properties are `TrimStartSuffix`, `TrimEndPrefix` and `TrimUnpadded` |
| `Text.IsBlank` | scripts.js:99 | `title.trim() === ''`; characterised by `BlankIffAllWhitespace` |
| `Text.ToLower` | scripts.js:99 | `toLowerCase` keeps the length, leaves no ASCII capital, turns each capital into its small letter and keeps every other character where it was |
| `Text.LowerIdempotent` | scripts.js:99 | lower-casing an already lower-cased string changes nothing |
| `Text.LowerKeepsBlank` | scripts.js:99 | lower-casing a query never changes whether it is blank |
| `Text.Contains` | scripts.js:99 | `includes` is true exactly when the needle occurs at some index of the haystack |
| `Catalogue.Lookup` | scripts.js:18 | `authors[id]` is defined exactly when some entry has that key, and then it is the name stored beside that key |
| `Catalogue.LookupUnique` | scripts.js:18 | with unique keys, the author lookup returns the name of exactly that entry |
| `Catalogue.CreateElement` | scripts.js:10-22 | a preview carries the book's id, image and title and the looked-up author name; used through `PreviewsPointwise` and `PreviewSelectsItsBook` |
| `Catalogue.PreviewsPointwise` | scripts.js:84-90 | rendering yields one preview per book, in order, the k-th being `createElement` of the k-th book (id, image, title, looked-up author) |
| `Catalogue.PreviewsConcat` | scripts.js:86-89 | rendering two runs in sequence appends their previews in sequence |
| `Catalogue.GenreMatch` | scripts.js:98 | genre "any", or the book's genre list contains the chosen genre |
| `Catalogue.TitleMatch` | scripts.js:99 | a blank query, or the lower-cased title contains the lower-cased, untrimmed query |
| `Catalogue.AuthorMatch` | scripts.js:100 | author "any", or the book's author id equals the chosen one |
| `Catalogue.Keeps` | scripts.js:98-101 | the filter callback: the conjunction of the title, author and genre tests |
| `Catalogue.TitleMatchIgnoresCase` | scripts.js:99 | two queries that lower-case alike accept the same books: the title test ignores case |
| `Catalogue.UpperCaseQueryMatches` | scripts.js:99 | the query "HARRY" matches the title "Harry Potter" |
| `Catalogue.QueryIsNotTrimmed` | scripts.js:99 | a non-blank query is matched untrimmed: "Potter " does not match "Harry Potter" |
| `Catalogue.FilterBooks` | scripts.js:97-102 | `books.filter` with `Keeps`; its properties are `FilterSubsequence`, `FilterCounts`, `FilterKeepsExactly` and `FilterAllAny` |
| `Catalogue.FilterSubsequence` | scripts.js:97-102 | the matches are a subsequence of the catalogue, in catalogue order |
| `Catalogue.FilterCounts` | scripts.js:97-102 | every book the criteria accept is kept as many times as the catalogue holds it; every other book is dropped |
| `Catalogue.FilterKeepsExactly` | scripts.js:97-101 | a book is among the matches iff it is in the catalogue and passes the genre test, the author test and the title test; a dropped catalogue book fails at least one |
| `Catalogue.FilterAllAny` | scripts.js:96-102 | with genre "any", author "any" and a blank title, the matches are the whole catalogue in the same order |
| `Catalogue.SubsequenceUniqueIds` | scripts.js:97 | if the catalogue's ids are unique, so are the ids of the matches: no book is matched twice |
| `Catalogue.FindById` | scripts.js:183 | `books.find` finds a book iff some book carries the id, and the book it finds is the first catalogue book with that id |
| `Catalogue.FindOwnId` | scripts.js:183 | with unique ids, looking up a catalogue book's id finds that book |
| `Catalogue.DetailOf` | scripts.js:187-191 | the detail view shows the book's image, title, looked-up author, publication date and description |
| `Catalogue.PreviewSelectsItsBook` | scripts.js:179-185 | the id that `createElement` puts on a matched book's preview leads the click handler back to that very book |
| `Pagination.Slice` | scripts.js:124 | `slice(start, end)` with both bounds clamped to the length, empty once `end` does not exceed `start` |
| `Pagination.Shown` | scripts.js:124 | the prefix pages 1 to `page` show, `BOOKS_PER_PAGE` books per page; its exact length and prefix property are `ShownIsPrefix` |
| `Pagination.NextPage` | scripts.js:173 | `slice(page * BOOKS_PER_PAGE, (page + 1) * BOOKS_PER_PAGE)`; characterised by `NextPageRun` and `NextPageExtendsShown` |
| `Pagination.ShownIsPrefix` | scripts.js:124 | pages 1 to `page` show the prefix of the matches of length exactly `min(matches.length, page * BOOKS_PER_PAGE)` |
| `Pagination.NextPageRun` | scripts.js:173 | the next page holds exactly `BOOKS_PER_PAGE` books, or the fewer left after index `page * BOOKS_PER_PAGE` (none when nothing is left), and they are the ones starting at that index |
| `Pagination.FirstPageIsShown` | scripts.js:124 | `slice(0, BOOKS_PER_PAGE)` is what page 1 shows |
| `Pagination.NextPageExtendsShown` | scripts.js:172-175 | appending the next page to what is shown gives what the following page shows |
| `Pagination.Remaining` | scripts.js:110 | `matches.length - page * BOOKS_PER_PAGE`, which may be negative |
| `Pagination.RemainingLabel` | scripts.js:115 | `Math.max(remaining, 0)`; tied to what is shown by `ButtonReflectsShown` |
| `Pagination.ButtonReflectsShown` | scripts.js:110-115 | the button's disabled condition holds iff every match is shown, and the label equals the number of matches not yet shown |
| `Pagination.PagesAreShown` | scripts.js:172-177 | pages rendered one after another are contiguous and disjoint, and together they give exactly the shown prefix, each match once |
| `BookLists.BookList.constructor` | scripts.js:124-125 | start-up state, with the object starting at `page: 1` and `matches: books` (scripts.js:77-78): the first page of the catalogue is rendered and `Valid()` holds |
| `BookLists.BookList.Render` | scripts.js:84-90 | the container becomes its old content followed by the previews of the given books; nothing is removed |
| `BookLists.BookList.Filter` | scripts.js:96-104 | `matches` becomes the filtered catalogue and `page` becomes 1; the catalogue is a constant |
| `BookLists.BookList.UpdateShowMoreButton` | scripts.js:109-117 | `disabled` iff `matches.length <= page * BOOKS_PER_PAGE`; label `max(matches.length - page * BOOKS_PER_PAGE, 0)` |
| `BookLists.BookList.SearchSubmit` | scripts.js:157-170 | after a search the matches are the filtered catalogue, `page` is 1, the container holds the first page only and `Valid()` holds; the no-matches flag is `matches.length === 0`, and then the container is empty |
| `BookLists.BookList.ShowMore` | scripts.js:172-177 | a click appends the previews of the next page, increases `page` by exactly 1, leaves the matches alone and keeps `Valid()` |
| `BookLists.BookList.ShowDetail` | scripts.js:179-194 | a click on a preview whose id some book carries shows the first such book's details; any other click changes nothing |
| `BookLists.ContainerSelectsRenderedBooks` | scripts.js:179-185 | with unique ids, the k-th preview in the container opens the k-th match |
| `BookLists.ContainerIdsDistinct` | scripts.js:97-124 | in any valid state, with unique catalogue ids, no two previews in the container carry the same id |
| `BookLists.TwentyFiveBooks` | scripts.js:124-125 | 25 books at 20 per page: 20 shown, label 5, button enabled; after one click 25 shown, label 0, button disabled |
| `Dropdowns.EntryOptions` | scripts.js:64-69 | one option per entry, in entry order, with value = id and text = name |
| `Dropdowns.OptionList` | scripts.js:59-69 | the synthetic `("any", default)` option followed by the entry options; characterised by `OptionListShape` |
| `Dropdowns.OptionListShape` | scripts.js:59-69 | the option list has one more option than entries: `("any", default)` first, then entry `i` as option `i + 1` |
| `Dropdowns.SelectControl.Populate` | scripts.js:57-72 | the control's options become its old options followed by the option list; nothing is replaced |
| `Dropdowns.PopulateTwice` | scripts.js:57-71 | populating a control twice, whatever it held, appends the option list twice: nothing is de-duplicated |
| `SearchFilters.DefaultLabel` | searchFilter.js:8 | the `default-option` attribute when present and non-empty, otherwise `'Select an option'` |
| `SearchFilters.RenderOptions` | searchFilter.js:7-34 | the first option is `("any", default label)`, followed by one option per parsed entry; invalid JSON yields the default option alone; a `null` parse result (also a missing attribute) is an error and the only one |
| `SearchFilters.SameListAsPopulate` | searchFilter.js:29-32 | the element builds the same option list that `Dropdown.populate` appends |
| `SearchFilters.SearchFilter.Render` | searchFilter.js:6-35 | the content is replaced whole by the option list, or left untouched when `Object.entries` throws |
| `SearchFilters.RenderTwice` | searchFilter.js:6-34 | for every parse outcome, rendering twice leaves the same content as rendering once: the rendered list, or the old content when `render` throws |
| `Themes.UpdatePalette` | scripts.js:31-35 | `update` always writes one of the two consistent pairs, and the toggler reads it back as night exactly when the argument is "night" |
| `Themes.IsNight` | theme-Toggler.js:29-30 | the toggler's night test: the trimmed dark value equals the white triple; see `PaddedWhiteIsNight` and `OtherValuesAreDay` |
| `Themes.TogglePalette` | theme-Toggler.js:29-40 | a click always writes one of the two consistent pairs, whatever the light value was, and flips the night reading |
| `Themes.ToggleTwice` | theme-Toggler.js:30-40 | from either consistent pair, two clicks restore it |
| `Themes.PaddedWhiteIsNight` | theme-Toggler.js:29-30 | surrounding whitespace on the dark value is trimmed before the exact comparison |
| `Themes.OtherValuesAreDay` | theme-Toggler.js:30 | an unset variable, the day value and a differently spaced triple all read as not night |
| `Themes.ThemeStyle.Update` | scripts.js:31-37 | writes the pair for the argument and stores the argument in the settings selector |
| `Themes.ThemeStyle.Initialize` | scripts.js:42-46 | a dark preference gives the night pair and "night", otherwise the day pair and "day" |
| `Themes.ThemeStyle.Toggle` | theme-Toggler.js:27-41 | writes the toggled pair and nothing else; the settings selector keeps its value |
| `Themes.NightThenDay` | scripts.js:31-36 | on an existing style in any state, `update("night")` then `update("day")` yields the day pair and "day" in the selector |
| `Themes.DarkStartThenDay` | scripts.js:42-46 | after a dark-preference start, `update("night")` then `update("day")` shows the day pair, which differs from the night pair shown at start: the previous values are not restored |
| `Themes.ToggleAfterNight` | theme-Toggler.js:33-40 | in any state, a click after `update("night")` shows the day pair while the selector still reads "night" |
| `App.Page.constructor` | scripts.js:121-125 | start-up: theme from the preference, genre and author dropdowns each populated once, the first page of the catalogue rendered, `Valid()` established |
| `App.Page.SettingsSubmit` | scripts.js:149-155 | the settings form applies `Theme.update` with the chosen value |

## Notes on the code

Where the code differs from what its design describes, the model follows the code:

- `Theme.update` writes the day pair for every argument other than "night". It never
  leaves the variables half-set. So `update("night")` then `update("day")` yields the
  day pair: it restores the previous values only when those were the day pair.
- The `search-filter` element does not always render. A missing `options` attribute
  makes `JSON.parse(null)` return `null`. `Object.entries(null)` then throws outside the
  `try` block, so the element's content is left unchanged and the error escapes
  `render`.
- Matches contain no book twice only when the catalogue itself has unique ids. That is
  a property of the data module, taken here as a hypothesis.
- Detail lookup compares the preview's `data-preview` string with `book.id` by strict
  equality. Ids are modelled as strings. Numeric ids in the data module would never
  match.

## Left out

- DOM and event plumbing are not modelled: opening and closing the overlays, `focus`,
  `scrollTo`, `customElements.define`, `connectedCallback` and `addEventListener`.
  The no-matches message's class toggle is modelled only as the boolean returned by
  `SearchSubmit`.
- `FormData` extraction is not modelled. The search handler receives the three criteria
  fields directly, and the settings handler receives the chosen theme.
- HTML and CSS templating is left out. Previews, options and details are records. The
  code does not escape anything, and the model claims no escaping. The `<style>` blocks
  and the toggler's button markup are left out.
- `window.matchMedia` is replaced by the `prefersDark` parameter of `Initialize`.
- `getComputedStyle(...).getPropertyValue` is read as the value last stored for the
  variable, or "" when it was never set. CSS serialisation of custom properties is not
  modelled.
- `JSON.parse` and `Object.entries` are replaced by the `Parsed` parameter: invalid
  JSON, `null`, or the value's entries as (id, name) strings. The `console.error` call
  in the catch block is left out.
- The detail subtitle's year, from `new Date(book.published).getFullYear()`, is left
  out because it is date-library behaviour. The detail record carries the raw
  `published` value.
- Assigning a value that no option carries to the settings `<select>` is left out. The
  browser would then report an empty value, while the model stores the argument as
  given.
- Text.ToLower: lower-cases ASCII letters only, because full Unicode case mapping is
  outside the model. Titles and queries outside ASCII compare as if their other
  characters were already lower case.
- The contents of the data module are left out. The catalogue, the author and genre
  mappings and `BOOKS_PER_PAGE` are parameters. A missing author key reads as `None`
  and is not hardened.
- JavaScript object quirks are not modelled: prototype keys such as `constructor`
  looked up through `authors[...]`, and integer-like keys that `Object.entries` lists
  first.
