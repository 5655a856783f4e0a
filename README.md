# Cineberry catalog logic in Dafny

Cineberry is a Streamlit web app for browsing a catalog of TV series held in a tantivy
full-text index. This project models the logic that sits inside its pages, with the index,
Streamlit and HTML kept abstract:

- **Filter** (`facet_filter.dfy`, `FacetFilter`). The "Gefilterte Ergebnisse" list of the
  search page, for checked genre, country and rating filters.
  - A document's raw genre and country tags are resolved through the genre and country
    catalogs by case-insensitive tag comparison.
  - A genre entry names a `filter` and an optional `filter2`.
  - Ratings fall into the six half-open `RATING_OPTIONS` buckets.
  - Within a category the selected values are OR-ed. Across active categories the results
    are AND-ed. Kept hits stay in index order.
  - The sorted, duplicate-free `ALL_GENRE_FILTERS` list belongs here too.
- **Filter panels** (`facet_panel.dfy`, `FacetPanels`). The genre, country and rating panels.
  - Each has a "select all" master checkbox and one checkbox per option, held in the session
    state, and the list of selected options.
- **Stars** (`stars.dfy`, `Stars`). The five full/half/empty stars of the detail view.
  - Rounding uses Python 3's round-half-to-even.
- **Detail view** (`detail_view.dfy`, `DetailView`). The metadata line of the detail view:
  rating, year, and the country list with "USA"/"UK" abbreviations.
  - Also covers the decision whether the detail dialog opens at all.
- **Query builder** (`query_builder.dfy`, `QueryBuilder`). The free-text search turns the
  query into one `Must` clause per lower-cased, whitespace-separated term.
- **Card window** (`card_window.dfy`, `CardWindow`). `display_series_cards` on the home page.
  - It works on a copy of the hits, then shuffles it, stably sorts it by year or popularity
    (descending), or keeps it as is.
  - It then makes at most `limit` cards from the hits that have a poster.
- **Pagination** (`pagination.dfy`, `Pagination`). `display_random_items`.
  - It computes the page count and cuts out the window of the current page.
  - A session-held page number moves with the Prev/Next buttons.
- **Trailer** (`trailer.dfy`, `Trailer`). `get_key`: the key of the first YouTube trailer in an
  allowed language in a TMDB video response.
  - Python exceptions on ill-typed JSON are a `Raises` outcome.

Shared modules:

- `PyStr`: the Python string built-ins used: `isspace`, `lower`, `strip`, `split`, `join`, string
  order, `sorted(set(...))`.
- `Documents`: the document record, with absent fields as `Option`.
- `Optional`: the `Option` type.

Ratings are modelled as `real`. The index's hits are inputs: a `Hit` carries its score and the
document its address resolves to.

## Model

| member | source | states |
|---|---|---|
| FacetFilter.RatingOptionsPartition | seiten/seite2.py:232-239 | the six rating buckets are pairwise disjoint and their union is exactly [0, 5.01) |
| FacetFilter.PyInt | seiten/seite2.py:229 | `int(x)` truncates toward zero: the result is within 1 of x, on the side of 0 |
| FacetFilter.BucketStarCounts | seiten/seite2.py:229-239 | the label of bucket k (five stars down to none) has `int(max_r + 0.1)` = 5 - k stars |
| FacetFilter.EntryFilters | seiten/seite2.py:435-437 | a catalog entry stands for its `filter` and, when present and non-empty, its `filter2`, and nothing else |
| FacetFilter.GenreFilterNamesMembers | seiten/seite2.py:115-121 | the collected genre filter names are exactly the filters of all catalog entries |
| FacetFilter.AllGenreFilters | seiten/seite2.py:115-121 | ALL_GENRE_FILTERS is strictly sorted (so duplicate-free) and holds exactly every `filter` and every truthy `filter2` |
| FacetFilter.CountryFilterNames | seiten/seite2.py:172-174 | one name per country entry, its `filter`, in catalog order |
| FacetFilter.AllCountryFilters | seiten/seite2.py:172-174 | ALL_COUNTRY_FILTERS is strictly sorted and holds exactly the catalog's `filter` values |
| FacetFilter.MatchGenres | seiten/seite2.py:431-443 | the nested loop with its two breaks sets genre_match iff some document genre equals, case-insensitively, the tag of a catalog entry one of whose filters is selected |
| FacetFilter.MatchCountries | seiten/seite2.py:446-454 | the nested loop sets country_match iff some document country equals, case-insensitively, the tag of a catalog entry whose filter is selected |
| FacetFilter.Rating5 | seiten/seite2.py:420-424 | rating_5 is half the vote average (so 0..5 for a vote in 0..10), and 0 without a vote average |
| FacetFilter.MatchRating | seiten/seite2.py:457-461 | rating_match iff rating_5 lies in some selected half-open bucket [min, max) |
| FacetFilter.DocMatches | seiten/seite2.py:410-475 | the loop body keeps a document iff every active category matches; a missing genre or country field reads as empty and a missing vote average as rating 0 |
| FacetFilter.GridCard | seiten/seite2.py:404-408 | a result card carries the document's id and title; its address is non-empty iff the document has a poster, and is then the small TMDB address plus the poster path |
| FacetFilter.FilterHits | seiten/seite2.py:397-492 | the loop over hits yields exactly the kept hits in input order, one card per kept hit, and match_found iff something was kept |
| FacetFilter.FilteredIsOrderedSelection | seiten/seite2.py:401-485 | the kept hits are the input hits at strictly increasing positions, and a position is kept iff its document passes: each kept hit appears once, in input order |
| FacetFilter.InactiveKeepsAll | seiten/seite2.py:466-475 | with no category active every hit is kept |
| FacetFilter.NoGenresNoMatch | seiten/seite2.py:410-413 | a document without genres never passes an active genre filter |
| FacetFilter.UnknownGenreIgnored | seiten/seite2.py:432-434 | a genre tag matching no catalog entry does not change the genre match |
| FacetFilter.UnknownCountryIgnored | seiten/seite2.py:447-449 | a country tag matching no catalog entry does not change the country match |
| FacetFilter.ResolveGenreMembers | seiten/seite2.py:433-437 | a filter is resolved for a tag iff some entry with that tag (case-insensitively) names it |
| FacetFilter.GenreMatchByLookup | seiten/seite2.py:431-443 | the entry-by-entry scan agrees with looking each genre up in a tag-to-filters table |
| FacetFilter.DramaExample | seiten/seite2.py:431-443 | a "Drama" document passes the filter "Drama" through the entry tagged "drama" and fails "Comedy" |
| FacetFilter.AndAcrossCategories | seiten/seite2.py:466-475 | a genre match does not keep a document whose active country filter fails |
| FacetPanels.CheckedOptionsMembers | seiten/seite2.py:154-165 | the selected list holds exactly the checked options |
| FacetPanels.FacetPanel.constructor | seiten/seite2.py:123-132 | on the first run the master and every option checkbox are unchecked |
| FacetPanels.FacetPanel.ToggleAll | seiten/seite2.py:135-138 | toggle_all sets every option checkbox to the master's value and touches no other key |
| FacetPanels.FacetPanel.UpdateMaster | seiten/seite2.py:140-144 | update_master sets the master to whether all option checkboxes are checked |
| FacetPanels.FacetPanel.ClickMaster | seiten/seite2.py:147-151 | clicking the master flips it and every option follows, leaving master and options in step |
| FacetPanels.FacetPanel.ClickOption | seiten/seite2.py:156-161 | clicking an option flips exactly that option; a panel with on_change recomputes its master, the rating panel does not |
| FacetPanels.FacetPanel.Selected | seiten/seite2.py:154-165 | the selected list is the checked options in option order |
| Stars.PyRound | seiten/seite2.py:331 | `round(x)` returns an integer within 0.5 of x, and the even one on a tie |
| Stars.PyRoundUnique | seiten/seite2.py:331 | those two properties determine `round(x)` |
| Stars.RoundedHalf | seiten/seite2.py:330-331 | rounded_half is a multiple of 0.5 within 0.25 of rating_5 |
| Stars.RenderStars | seiten/seite2.py:333-340 | the `for i in range(1, 6)` loop yields exactly the five symbols of the star row: full iff rounded_half >= i, else half iff rounded_half + 0.5 == i, else empty |
| Stars.StarRowShape | seiten/seite1.py:98-108 | for a rating in 0..10 with n = round(raw): n / 2 full stars, one half star iff n is odd, and empty stars for the rest of the five |
| Stars.SevenIsThreeAndAHalf | seiten/seite1.py:98-108 | raw 7.0 shows three full, one half and one empty star |
| Stars.ZeroIsEmpty | seiten/seite1.py:98-108 | raw 0.0 shows five empty stars |
| Stars.TieRoundsToEven | seiten/seite1.py:98-108 | raw 2.5 rounds to 2, so one full star and no half star |
| Stars.ShowsRatingLabel | seiten/seite2.py:345 | the rating part is shown iff the raw rating is not 0 (rating = raw_rating / 2) |
| DetailView.JoinedListHasComma | seiten/seite1.py:90 | joining two or more countries with ", " yields a comma |
| DetailView.RawRating | seiten/seite1.py:84 | raw_rating is the vote average, 0.0 when there is none |
| DetailView.CountryLabel | seiten/seite1.py:89-94 | the country text is empty for no countries, "USA"/"UK" for exactly that single country, the single country otherwise, and the ", "-joined list for two or more (never abbreviated) |
| DetailView.DetailMeta | seiten/seite1.py:110-119 | the metadata parts are appended in the order rating, year, countries, each only when present |
| DetailView.MetaPartsShape | seiten/seite1.py:110-119 | at most three parts; the rating part is present iff the raw rating is not 0 and then comes first with five stars; the year part is present iff there is a year |
| DetailView.NoVoteNoRating | seiten/seite2.py:312-314 | a document without a vote average shows no rating label and five empty stars |
| DetailView.DetailTarget | seiten/seite1.py:149-155 | the dialog opens iff the view is "detail", the id is non-empty and the lookup found a hit, and then shows the first hit's document |
| PyStr.Lower | seiten/seite2.py:502 | `str.lower` keeps the length, maps every upper-case letter to its lower-case partner (32 code points on) and keeps every other character |
| PyStr.LowerIdempotent | seiten/seite2.py:502 | lower-casing twice is lower-casing once |
| PyStr.Strip | seiten/seite2.py:503 | `str.strip` leaves no whitespace at either end and cuts only whitespace: the result is the middle slice of the input, with only whitespace before and after it |
| PyStr.Split | seiten/seite2.py:504 | every piece of `str.split()` is non-empty and free of whitespace |
| PyStr.SplitStrip | seiten/seite2.py:503-504 | stripping before `split()` does not change the pieces |
| PyStr.SplitSpaces | seiten/seite2.py:504 | a leading run of whitespace of any kind and length does not change `split()` |
| PyStr.SplitWord | seiten/seite2.py:504 | a non-empty whitespace-free word followed by whitespace or the end is the next piece of `split()` |
| PyStr.SplitExamples | seiten/seite2.py:504 | `"a  b"` and `"a\tb"` split into `a`, `b`; `" a"` splits into `a` |
| PyStr.Join | seiten/seite1.py:90 | `sep.join` of no items is "", of one item the item itself, and of more starts with the first item and the separator |
| PyStr.JoinLength | seiten/seite1.py:90 | the joined string is as long as all items together plus one separator between each two |
| PyStr.SplitJoin | seiten/seite2.py:504 | splitting words joined by single spaces gives back the words |
| PyStr.LessTransitive | seiten/seite2.py:115 | Python's string order is transitive |
| PyStr.LessTotal | seiten/seite2.py:115 | Python's string order is total on distinct strings |
| PyStr.SortedSet | seiten/seite2.py:115-121 | `sorted(set(xs))` is strictly ascending and holds exactly the elements of xs |
| QueryBuilder.Terms | seiten/seite2.py:502-504 | the terms are the `split()` of the lower-cased query (the strip makes no difference), each non-empty and free of whitespace |
| QueryBuilder.TermsShape | seiten/seite2.py:502-504 | every term is non-empty, free of whitespace and of upper-case letters, and the strip does not change the terms |
| QueryBuilder.TermsOfJoin | seiten/seite2.py:502-504 | words joined by spaces come back as their lower-cased selves, in order |
| QueryBuilder.BreakingBadTerms | seiten/seite2.py:502-504 | "Breaking Bad" is searched as the terms "breaking" and "bad" |
| QueryBuilder.MustClauses | seiten/seite2.py:504-507 | the `for term in terms` loop appends exactly one Must clause per term, parsed over the title field, in term order |
| QueryBuilder.BuildSearchQuery | seiten/seite2.py:497-509 | no query for an empty q; otherwise a boolean query with exactly one Must clause per term, in term order, each parsed over the title field |
| QueryBuilder.BlankQueryHasNoClauses | seiten/seite2.py:497-504 | a query of blanks is searched, with no clause |
| CardWindow.KeyOf | seiten/seite1.py:210-213 | the sort key is the first year or the popularity of the hit's document, and 0 when that field is missing |
| CardWindow.InsertDescPerm | seiten/seite1.py:175-176 | insertion adds exactly the inserted hit |
| CardWindow.InsertDescSorted | seiten/seite1.py:175-176 | insertion into a descending sequence keeps it descending |
| CardWindow.SortDesc | seiten/seite1.py:175-176 | `sorted(..., reverse=True)` returns a permutation of the hits that is descending by the key |
| CardWindow.SortDescStable | seiten/seite1.py:175-176 | hits with equal keys keep their input order (Python's sort is stable, also with reverse=True) |
| CardWindow.InsertDescWithKey | seiten/seite1.py:175-176 | the inserted hit goes after every earlier hit with the same key |
| CardWindow.Shuffle | seiten/seite1.py:173-174 | `random.shuffle` permutes the copy in place |
| CardWindow.PosterCard | seiten/seite1.py:188-196 | a home-page card carries the id and title, and its address is the original-size TMDB path followed by the poster path |
| CardWindow.CardsOf | seiten/seite1.py:178-198 | the card loop makes no cards for limit <= 0 and never more than limit |
| CardWindow.CardsOfIsPrefix | seiten/seite1.py:178-198 | the cards are the first `limit` poster cards in order: hits without a poster are skipped without using up the limit |
| CardWindow.MakeCards | seiten/seite1.py:178-198 | the loop with its break at `count >= limit` and continue on a missing poster makes exactly those cards |
| CardWindow.DisplaySeriesCards | seiten/seite1.py:168-198 | the shown hits are a permutation of the caller's; with randomize unset they are the stable descending sort by the key, or the hits unchanged without a key; the cards are made from them |
| Pagination.NPages | utils.py:6 | the page count is the ceiling of len / cards_per_page, never negative, and 0 exactly for no items |
| Pagination.ClampIndex | utils.py:11-13 | a slice bound is clamped to 0..len |
| Pagination.PySlice | utils.py:13 | a slice holds consecutive items from its clamped start, and its length is the clamped end minus the clamped start, or 0 when the end is not past the start |
| Pagination.PageWindow | utils.py:10-13 | the page's window holds consecutive items from the clamped start page * cards_per_page, and at most cards_per_page of them for a non-negative start |
| Pagination.WindowShape | utils.py:10-13 | a page shows at most cards_per_page consecutive items from page * cards_per_page on; pages before the last are full, the last holds the rest, later pages are empty |
| Pagination.ItemPage | utils.py:10-13 | item i is shown on page i // cards_per_page at position i % cards_per_page |
| Pagination.Step | utils.py:24-32 | a disabled button (Prev on page 0, Next on page n_pages - 1) leaves the page; an enabled one moves it by one; a page in range stays in range and a non-negative one non-negative |
| Pagination.RunStaysInRange | utils.py:24-32 | from a page in range, any series of clicks on enabled buttons stays in 0..n_pages-1 |
| Pagination.RunNeverNegative | utils.py:24-26 | the page never goes below 0 |
| Pagination.EmptyRowNextStaysEnabled | utils.py:6-32 | with no cards there are 0 pages, Next is never disabled and moves to empty pages 1, 2, ... |
| Pagination.PageSession.constructor | utils.py:7 | the session starts without a page |
| Pagination.PageSession.DisplayRandomItems | utils.py:5-34 | the page defaults to 0; the shown items are that page's window; Prev is disabled iff on page 0, Next iff on page n_pages - 1; an enabled click moves the page by one; the page stays non-negative |
| Pagination.SevenCardsThreePages | utils.py:6-13 | 7 cards at 3 per page make 3 pages, the last showing only the 7th card |
| Trailer.Results | trailer.py:11 | a non-dict response raises; a dict without "results" gives no entries; a list under "results" gives its elements, a dict or string gives none, and null, a number or a bool raises |
| Trailer.LowerField | trailer.py:13-15 | a missing field reads as "", a string field is lower-cased, any other value raises |
| Trailer.Qualifies | trailer.py:12-15 | a non-dict entry is dropped; an entry qualifies iff it is a dict whose site gives the platform, whose type gives "trailer" and whose language gives an allowed value; it raises iff it is a dict whose site raises, or whose site matches and whose type raises, or whose type also matches and whose language raises (left-to-right `and`) |
| Trailer.QualifiesIff | trailer.py:12-15 | an entry qualifies iff it is a dict whose lower-cased site equals the platform, whose lower-cased type is "trailer" and whose lower-cased language is allowed |
| Trailer.Trailers | trailer.py:10-16 | the comprehension succeeds iff every entry's condition evaluates, and then holds exactly the qualifying entries |
| Trailer.NonDictSkipped | trailer.py:12 | an entry that is not a dict, wherever it stands in the results, changes nothing |
| Trailer.KeyOf | trailer.py:19-20 | there is a key iff the entry is a dict with a non-null "key", and it is that value; missing or null gives None |
| Trailer.GetKey | trailer.py:3-21 | text that is not JSON gives None, a non-dict response raises, and a returned key is the key of a qualifying entry of the results |
| Trailer.UnparseableGivesNone | trailer.py:4-8 | text that is not JSON gives None |
| Trailer.FirstMatch | trailer.py:10-19 | the first trailer is the first qualifying entry in results order |
| Trailer.GetKeyFirstMatch | trailer.py:10-21 | get_key returns the key of the first qualifying entry (None if it has no key, without looking further) |
| Trailer.NoneQualify | trailer.py:10-16 | with no qualifying entry the trailer list is empty |
| Trailer.NoMatchNoKey | trailer.py:18-21 | with no qualifying entry the result is None |
| Trailer.LanguageRequired | trailer.py:15 | an entry without a language never qualifies for the default languages |
| Trailer.BadSiteRaises | trailer.py:13 | an entry whose site is not a string makes get_key raise |
| Trailer.GermanYoutubeTrailer | trailer.py:3-21 | a German "YouTube"/"Trailer" entry is found with the default arguments |

## Left out

- The tantivy index, the searcher, `parse_query` and stemming. Hits arrive as inputs, and a parsed term is kept as its text.
- `json.load` of genres.json and countries.json, and `json.loads` in trailer.py. The parsed catalogs and the parsed response are inputs; text that is not JSON is `None`.
- The debug `print(data)` in trailer.py.
- Streamlit widgets and their rendering: HTML strings, `st.rerun`, page layout.
  - A button click is an input to the run that handles it.
  - Each call of `display_series_cards` and its pager is modelled on its own. The three rows of the home page share the session's `page` key and the button keys, and that sharing is not captured.
- URL handling: `up.unquote` of the query and `up.quote` in card links. The model takes the query after unquoting. Card links are not modelled.
- The search results grid after the query is built (card HTML of the search hits).
- The `max_r is 0.5` test of `render_stars`. It compares float object identity, which depends on the interpreter. Only the star count `int(max_r + 0.1)` is modelled.
- The unguarded `detail_hits[0]` of the search page's detail view.
- The genre tag list and the overview in the detail view. These are plain pass-throughs.
- The IndexError of `doc["id"][0]` and `doc["title"][0]` (seiten/seite2.py:404-405, seiten/seite1.py:188-189): every document is taken to carry an id and a title. In the source one document without them aborts the whole filtered list or card row; the model never does.
- Floating point: ratings, years as floats and popularity are `real`. Round-half-to-even is stated explicitly.
- `random.shuffle`'s randomness. Any permutation is allowed; the swap target is chosen arbitrarily.
- PyStr.Lower: does not model Unicode case mapping beyond ASCII and Latin-1; other characters are left unchanged, because Dafny has no Unicode case tables.
- Pagination.PageSession.DisplayRandomItems: requires `cards_per_page > 0`. The page only ever uses 3, and 0 makes Python divide by zero.
- `sort_key` with `reverse=False`: the page always sorts with the default `reverse=True`, so only that case is modelled.
