/** The page as scripts.js sets it up (lines 120-125) and the settings form's submit
    handler (lines 149-155). */
module App {
  import opened Catalogue
  import opened Pagination
  import opened BookLists
  import opened Dropdowns
  import opened Themes

  class Page {
    const theme: ThemeStyle
    const genreSelect: SelectControl
    const authorSelect: SelectControl
    const list: BookList

    /** Start-up: the theme from the colour-scheme preference, both dropdowns populated,
        the first page of the whole catalogue rendered and the button updated. */
    constructor (books: seq<Book>, authors: Entries, genres: Entries, pageSize: nat,
                 prefersDark: bool, selector: string)
      requires pageSize > 0
      ensures fresh(theme) && fresh(genreSelect) && fresh(authorSelect) && fresh(list)
      ensures genreSelect != authorSelect
      ensures Palette(theme.dark, theme.light) == (if prefersDark then NightPalette else DayPalette)
      ensures theme.selector == (if prefersDark then "night" else "day")
      ensures genreSelect.options == OptionList("All Genres", genres)
      ensures authorSelect.options == OptionList("All Authors", authors)
      ensures list.Valid() && list.books == books && list.authors == authors && list.pageSize == pageSize
      ensures list.matches == books && list.page == 1
      ensures list.container == Previews(Slice(books, 0, pageSize), authors)
    {
      var t := new ThemeStyle(selector);
      t.Initialize(prefersDark);
      var g := new SelectControl();
      g.Populate(genres, "All Genres");
      var a := new SelectControl();
      a.Populate(authors, "All Authors");
      var l := new BookList(books, authors, pageSize);
      theme, genreSelect, authorSelect, list := t, g, a, l;
    }

    /** The settings form: `Theme.update` with the chosen theme. */
    method SettingsSubmit(chosen: string)
      modifies theme
      ensures Palette(theme.dark, theme.light) == UpdatePalette(chosen) && theme.selector == chosen
    {
      theme.Update(chosen);
    }
  }
}
