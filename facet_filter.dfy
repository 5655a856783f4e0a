/**
 * The multi-criteria filter of the search page (seiten/seite2.py): which index hits are
 * listed under "Gefilterte Ergebnisse" for a selection of genre, country and rating filters.
 *
 * A raw genre or country tag of a document is resolved through a catalog (the parsed
 * genres.json / countries.json) by case-insensitive comparison with the entry's tag; a
 * genre entry names one or two canonical filters, a country entry one. Within a category
 * the selected values are OR-ed, across the active (non-empty) categories the results are
 * AND-ed, and the kept hits stay in input order.
 */
module FacetFilter {
  import opened Optional
  import opened PyStr
  import opened Documents

  datatype GenreEntry = GenreEntry(tag: string, filter: string, filter2: Option<string>)
  datatype CountryEntry = CountryEntry(tag: string, filter: string)

  /** A half-open rating interval [lo, hi) on the 0..5 star scale. */
  datatype Bucket = Bucket(lo: real, hi: real)

  datatype Catalogs = Catalogs(genres: seq<GenreEntry>, countries: seq<CountryEntry>)

  /** The checked filters, each list in checkbox order; an empty list is an inactive category. */
  datatype Selection = Selection(genres: seq<string>, countries: seq<string>, ratings: seq<Bucket>)

  // ---------------------------------------------------------------------------
  // Rating buckets

  /** RATING_OPTIONS: five stars down to "no rating". */
  const RatingOptions: seq<Bucket> :=
    [Bucket(4.5, 5.01), Bucket(3.5, 4.5), Bucket(2.5, 3.5), Bucket(1.5, 2.5), Bucket(0.5, 1.5), Bucket(0.0, 0.5)]

  predicate InBucket(b: Bucket, x: real) {
    b.lo <= x < b.hi
  }

  /** Every value of [0, 5.01) lies in exactly one of the six buckets, and no other value lies in any. */
  lemma RatingOptionsPartition(x: real)
    ensures (0.0 <= x < 5.01) <==> (exists k :: 0 <= k < |RatingOptions| && InBucket(RatingOptions[k], x))
    ensures forall k, l ::
      (0 <= k < |RatingOptions| && 0 <= l < |RatingOptions| &&
       InBucket(RatingOptions[k], x) && InBucket(RatingOptions[l], x)) ==> k == l
  {
    if 0.0 <= x < 5.01 {
      var k := if x >= 4.5 then 0 else if x >= 3.5 then 1 else if x >= 2.5 then 2
               else if x >= 1.5 then 3 else if x >= 0.5 then 4 else 5;
      assert InBucket(RatingOptions[k], x);
    }
  }

  /** Python's `int(x)`: truncation toward zero. */
  function PyInt(x: real): (n: int)
    ensures 0.0 <= x ==> n as real <= x < n as real + 1.0
    ensures x < 0.0 ==> n as real - 1.0 < x <= n as real
  {
    if x >= 0.0 then x.Floor else -((-x).Floor)
  }

  /** The number of "★" on a bucket's checkbox label, `int(max_r + 0.1)`. */
  function BucketStarCount(b: Bucket): int {
    PyInt(b.hi + 0.1)
  }

  /** The k-th bucket is labelled with 5 - k stars. */
  lemma BucketStarCounts()
    ensures forall k :: 0 <= k < |RatingOptions| ==> BucketStarCount(RatingOptions[k]) == 5 - k
  {
    assert BucketStarCount(RatingOptions[0]) == 5;
    assert BucketStarCount(RatingOptions[1]) == 4;
    assert BucketStarCount(RatingOptions[2]) == 3;
    assert BucketStarCount(RatingOptions[3]) == 2;
    assert BucketStarCount(RatingOptions[4]) == 1;
    assert BucketStarCount(RatingOptions[5]) == 0;
  }

  // ---------------------------------------------------------------------------
  // The filter lists offered as checkboxes

  /** An entry's `filter2` counts only when it is present and non-empty (Python truthiness). */
  predicate HasFilter2(e: GenreEntry) {
    e.filter2.Some? && e.filter2.value != ""
  }

  /** The canonical filters one genre entry stands for: `filter`, then `filter2` when truthy. */
  function EntryFilters(e: GenreEntry): (fs: seq<string>)
    ensures e.filter in fs
    ensures forall f :: f in fs <==> f == e.filter || (HasFilter2(e) && f == e.filter2.value)
  {
    [e.filter] + (if HasFilter2(e) then [e.filter2.value] else [])
  }

  function GenreFilterNames(catalog: seq<GenreEntry>): seq<string> {
    if catalog == [] then [] else EntryFilters(catalog[0]) + GenreFilterNames(catalog[1..])
  }

  lemma {:induction false} GenreFilterNamesMembers(catalog: seq<GenreEntry>)
    ensures forall f :: f in GenreFilterNames(catalog) <==>
      exists j :: 0 <= j < |catalog| && f in EntryFilters(catalog[j])
  {
    if catalog != [] {
      GenreFilterNamesMembers(catalog[1..]);
      forall f | f in GenreFilterNames(catalog)
        ensures exists j :: 0 <= j < |catalog| && f in EntryFilters(catalog[j])
      {
        if f !in EntryFilters(catalog[0]) {
          assert f in GenreFilterNames(catalog[1..]);
          var j :| 0 <= j < |catalog[1..]| && f in EntryFilters(catalog[1..][j]);
          assert catalog[1..][j] == catalog[j + 1];
        }
      }
      forall f | exists j :: 0 <= j < |catalog| && f in EntryFilters(catalog[j])
        ensures f in GenreFilterNames(catalog)
      {
        var j :| 0 <= j < |catalog| && f in EntryFilters(catalog[j]);
        if j > 0 {
          assert catalog[1..][j - 1] == catalog[j];
        }
      }
    }
  }

  /** ALL_GENRE_FILTERS: every `filter` and every truthy `filter2` of the catalog, sorted, without duplicates. */
  function AllGenreFilters(catalog: seq<GenreEntry>): (r: seq<string>)
    ensures StrictlySorted(r)
    ensures forall f :: f in r <==> exists j :: 0 <= j < |catalog| && f in EntryFilters(catalog[j])
  {
    GenreFilterNamesMembers(catalog);
    SortedSet(GenreFilterNames(catalog))
  }

  function CountryFilterNames(catalog: seq<CountryEntry>): (fs: seq<string>)
    ensures |fs| == |catalog|
    ensures forall j :: 0 <= j < |catalog| ==> fs[j] == catalog[j].filter
  {
    if catalog == [] then [] else [catalog[0].filter] + CountryFilterNames(catalog[1..])
  }

  /** ALL_COUNTRY_FILTERS: the catalog's `filter` values, sorted, without duplicates. */
  function AllCountryFilters(catalog: seq<CountryEntry>): (r: seq<string>)
    ensures StrictlySorted(r)
    ensures forall f :: f in r <==> exists j :: 0 <= j < |catalog| && f == catalog[j].filter
  {
    var names := CountryFilterNames(catalog);
    assert forall f :: f in names <==> exists j :: 0 <= j < |catalog| && f == catalog[j].filter by {
      forall f | f in names ensures exists j :: 0 <= j < |catalog| && f == catalog[j].filter {
        var j :| 0 <= j < |names| && names[j] == f;
      }
    }
    SortedSet(names)
  }

  // ---------------------------------------------------------------------------
  // The match conditions

  /** Python's `any(f in selected for f in filters)`. */
  predicate AnySelected(filters: seq<string>, selected: seq<string>) {
    exists f :: f in filters && f in selected
  }

  /** Catalog entry `e` resolves document genre `g` to a selected filter. */
  predicate GenreEntryHit(e: GenreEntry, g: string, selected: seq<string>) {
    Lower(e.tag) == Lower(g) && AnySelected(EntryFilters(e), selected)
  }

  /** Some genre of the document, through some catalog entry, resolves to a selected filter. */
  predicate GenreMatch(genres: seq<string>, catalog: seq<GenreEntry>, selected: seq<string>) {
    exists i, j :: 0 <= i < |genres| && 0 <= j < |catalog| && GenreEntryHit(catalog[j], genres[i], selected)
  }

  predicate CountryEntryHit(e: CountryEntry, c: string, selected: seq<string>) {
    Lower(e.tag) == Lower(c) && e.filter in selected
  }

  predicate CountryMatch(countries: seq<string>, catalog: seq<CountryEntry>, selected: seq<string>) {
    exists i, j :: 0 <= i < |countries| && 0 <= j < |catalog| && CountryEntryHit(catalog[j], countries[i], selected)
  }

  /** The rating on the 0..5 scale; a document without a vote average rates 0. */
  function Rating5(d: Doc): (r: real)
    ensures d.voteAverage.None? ==> r == 0.0
    ensures d.voteAverage.Some? ==> r * 2.0 == d.voteAverage.value
    ensures d.voteAverage.Some? && 0.0 <= d.voteAverage.value <= 10.0 ==> 0.0 <= r <= 5.0
  {
    if d.voteAverage.Some? then d.voteAverage.value / 2.0 else 0.0
  }

  predicate RatingMatch(r5: real, selected: seq<Bucket>) {
    exists k :: 0 <= k < |selected| && InBucket(selected[k], r5)
  }

  /** A document is kept iff every active category matches. */
  predicate Keep(d: Doc, cat: Catalogs, sel: Selection) {
    && (sel.genres != [] ==> GenreMatch(GenresOf(d), cat.genres, sel.genres))
    && (sel.countries != [] ==> CountryMatch(CountriesOf(d), cat.countries, sel.countries))
    && (sel.ratings != [] ==> RatingMatch(Rating5(d), sel.ratings))
  }

  /** The filtered results page is shown only when some category is active. */
  predicate FilterActive(sel: Selection) {
    sel.genres != [] || sel.countries != [] || sel.ratings != []
  }

  /** The hits that are kept, in input order. */
  function Filtered(hits: seq<Hit>, cat: Catalogs, sel: Selection): seq<Hit> {
    if hits == [] then []
    else
      var last := hits[|hits| - 1];
      Filtered(hits[..|hits| - 1], cat, sel) + (if Keep(last.doc, cat, sel) then [last] else [])
  }

  // ---------------------------------------------------------------------------
  // The filter loop

  method MatchGenres(docGenres: seq<string>, catalog: seq<GenreEntry>, selected: seq<string>)
    returns (genreMatch: bool)
    ensures genreMatch == GenreMatch(docGenres, catalog, selected)
  {
    genreMatch := false;
    var i := 0;
    while i < |docGenres|
      invariant 0 <= i <= |docGenres|
      invariant forall i', j :: 0 <= i' < i && 0 <= j < |catalog| ==> !GenreEntryHit(catalog[j], docGenres[i'], selected)
    {
      var g := docGenres[i];
      var j := 0;
      while j < |catalog|
        invariant 0 <= j <= |catalog|
        invariant forall j' :: 0 <= j' < j ==> !GenreEntryHit(catalog[j'], g, selected)
      {
        var entry := catalog[j];
        if Lower(entry.tag) == Lower(g) {
          var filters := [entry.filter];
          if HasFilter2(entry) {
            filters := filters + [entry.filter2.value];
          }
          assert filters == EntryFilters(entry);
          if AnySelected(filters, selected) {
            genreMatch := true;
            break;
          }
        }
        j := j + 1;
      }
      if genreMatch {
        assert GenreEntryHit(catalog[j], docGenres[i], selected);
        break;
      }
      i := i + 1;
    }
  }

  method MatchCountries(docCountries: seq<string>, catalog: seq<CountryEntry>, selected: seq<string>)
    returns (countryMatch: bool)
    ensures countryMatch == CountryMatch(docCountries, catalog, selected)
  {
    countryMatch := false;
    var i := 0;
    while i < |docCountries|
      invariant 0 <= i <= |docCountries|
      invariant forall i', j :: 0 <= i' < i && 0 <= j < |catalog| ==> !CountryEntryHit(catalog[j], docCountries[i'], selected)
    {
      var c := docCountries[i];
      var j := 0;
      while j < |catalog|
        invariant 0 <= j <= |catalog|
        invariant forall j' :: 0 <= j' < j ==> !CountryEntryHit(catalog[j'], c, selected)
      {
        var entry := catalog[j];
        if Lower(entry.tag) == Lower(c) {
          if entry.filter in selected {
            countryMatch := true;
            break;
          }
        }
        j := j + 1;
      }
      if countryMatch {
        assert CountryEntryHit(catalog[j], docCountries[i], selected);
        break;
      }
      i := i + 1;
    }
  }

  method MatchRating(rating5: real, selected: seq<Bucket>) returns (ratingMatch: bool)
    ensures ratingMatch == RatingMatch(rating5, selected)
  {
    ratingMatch := false;
    var k := 0;
    while k < |selected|
      invariant 0 <= k <= |selected|
      invariant forall k' :: 0 <= k' < k ==> !InBucket(selected[k'], rating5)
    {
      if selected[k].lo <= rating5 < selected[k].hi {
        ratingMatch := true;
        break;
      }
      k := k + 1;
    }
  }

  /** The body of the loop over hits: computes the three flags and combines them. */
  method DocMatches(d: Doc, cat: Catalogs, sel: Selection) returns (matches: bool)
    ensures matches == Keep(d, cat, sel)
  {
    var genreMatch, countryMatch, ratingMatch := false, false, false;
    if sel.genres != [] {
      genreMatch := MatchGenres(GenresOf(d), cat.genres, sel.genres);
    }
    if sel.countries != [] {
      countryMatch := MatchCountries(CountriesOf(d), cat.countries, sel.countries);
    }
    if sel.ratings != [] {
      ratingMatch := MatchRating(Rating5(d), sel.ratings);
    } else {
      ratingMatch := true;
    }
    matches := true;
    if sel.genres != [] && !genreMatch {
      matches := false;
    }
    if sel.countries != [] && !countryMatch {
      matches := false;
    }
    if sel.ratings != [] && !ratingMatch {
      matches := false;
    }
  }

  /** The card of a kept hit: the small poster, or no image address when the document has no poster. */
  function GridCard(h: Hit): (r: Card)
    ensures r.id == h.doc.id && r.title == h.doc.title
    ensures r.posterUrl != "" <==> h.doc.posterPath.Some?
    ensures h.doc.posterPath.Some? ==> r.posterUrl == TmdbPathSmall + h.doc.posterPath.value
  {
    Card(h.doc.id, h.doc.title, if h.doc.posterPath.Some? then TmdbPathSmall + h.doc.posterPath.value else "")
  }

  /**
   * The loop over all hits: the kept hits in order, one card per kept hit, and whether any
   * was kept (otherwise the page warns that no series matches).
   */
  method FilterHits(hits: seq<Hit>, cat: Catalogs, sel: Selection)
    returns (kept: seq<Hit>, cards: seq<Card>, matchFound: bool)
    ensures kept == Filtered(hits, cat, sel)
    ensures |cards| == |kept| && forall k :: 0 <= k < |kept| ==> cards[k] == GridCard(kept[k])
    ensures matchFound <==> kept != []
  {
    kept := [];
    cards := [];
    matchFound := false;
    for i := 0 to |hits|
      invariant kept == Filtered(hits[..i], cat, sel)
      invariant |cards| == |kept| && forall k :: 0 <= k < |kept| ==> cards[k] == GridCard(kept[k])
      invariant matchFound <==> kept != []
    {
      var h := hits[i];
      var matches := DocMatches(h.doc, cat, sel);
      if matches {
        matchFound := true;
        kept := kept + [h];
        cards := cards + [GridCard(h)];
      }
      assert hits[..i + 1][..i] == hits[..i];
    }
    assert hits[..|hits|] == hits;
  }

  // ---------------------------------------------------------------------------
  // Properties of the filter

  /** The input positions of the kept hits. */
  function KeptIndices(hits: seq<Hit>, cat: Catalogs, sel: Selection): seq<int> {
    if hits == [] then []
    else
      var n := |hits| - 1;
      KeptIndices(hits[..n], cat, sel) + (if Keep(hits[n].doc, cat, sel) then [n] else [])
  }

  /**
   * The filter is stable and exact: the kept hits are the input hits at strictly increasing
   * positions, and a position is among them iff its document is kept.
   */
  lemma {:induction false} FilteredIsOrderedSelection(hits: seq<Hit>, cat: Catalogs, sel: Selection)
    ensures var kept, idx := Filtered(hits, cat, sel), KeptIndices(hits, cat, sel);
      && |idx| == |kept|
      && (forall k :: 0 <= k < |idx| ==> 0 <= idx[k] < |hits| && kept[k] == hits[idx[k]])
      && (forall k, l :: 0 <= k < l < |idx| ==> idx[k] < idx[l])
      && (forall i :: 0 <= i < |hits| ==> (Keep(hits[i].doc, cat, sel) <==> i in idx))
  {
    if hits != [] {
      var n := |hits| - 1;
      var init := hits[..n];
      FilteredIsOrderedSelection(init, cat, sel);
      var kept', idx' := Filtered(init, cat, sel), KeptIndices(init, cat, sel);
      var kept, idx := Filtered(hits, cat, sel), KeptIndices(hits, cat, sel);
      var keepLast := Keep(hits[n].doc, cat, sel);
      assert kept == kept' + (if keepLast then [hits[n]] else []);
      assert idx == idx' + (if keepLast then [n] else []);
      assert |idx| == |kept|;
      forall k | 0 <= k < |idx|
        ensures 0 <= idx[k] < |hits| && kept[k] == hits[idx[k]]
      {
        if k < |idx'| {
          assert idx[k] == idx'[k] && kept[k] == kept'[k];
          assert init[idx'[k]] == hits[idx'[k]];
        }
      }
      forall k, l | 0 <= k < l < |idx|
        ensures idx[k] < idx[l]
      {
        assert idx[k] == idx'[k];
        if l < |idx'| {
          assert idx[l] == idx'[l];
        }
      }
      forall i | 0 <= i < |hits|
        ensures Keep(hits[i].doc, cat, sel) <==> i in idx
      {
        if i < n {
          assert hits[i] == init[i];
          assert i in idx' <==> i in idx;
        } else {
          assert i !in idx';
        }
      }
    }
  }

  /** With no category active every document is kept, so filtering changes nothing. */
  lemma {:induction false} InactiveKeepsAll(hits: seq<Hit>, cat: Catalogs, sel: Selection)
    requires !FilterActive(sel)
    ensures Filtered(hits, cat, sel) == hits
  {
    if hits != [] {
      InactiveKeepsAll(hits[..|hits| - 1], cat, sel);
      assert hits[..|hits| - 1] + [hits[|hits| - 1]] == hits;
    }
  }

  /** A document without genres (missing or empty) never passes an active genre filter. */
  lemma NoGenresNoMatch(d: Doc, cat: Catalogs, sel: Selection)
    requires GenresOf(d) == []
    requires sel.genres != []
    ensures !Keep(d, cat, sel)
  {
  }

  /** A genre tag the catalog does not know contributes nothing to the genre match. */
  lemma UnknownGenreIgnored(genres: seq<string>, g: string, catalog: seq<GenreEntry>, selected: seq<string>)
    requires forall j :: 0 <= j < |catalog| ==> Lower(catalog[j].tag) != Lower(g)
    ensures GenreMatch(genres + [g], catalog, selected) == GenreMatch(genres, catalog, selected)
  {
    var gs := genres + [g];
    if GenreMatch(gs, catalog, selected) {
      var i, j :| 0 <= i < |gs| && 0 <= j < |catalog| && GenreEntryHit(catalog[j], gs[i], selected);
      assert i < |genres| && gs[i] == genres[i];
    }
    if GenreMatch(genres, catalog, selected) {
      var i, j :| 0 <= i < |genres| && 0 <= j < |catalog| && GenreEntryHit(catalog[j], genres[i], selected);
      assert gs[i] == genres[i];
    }
  }

  /** A country tag the catalog does not know contributes nothing to the country match. */
  lemma UnknownCountryIgnored(countries: seq<string>, c: string, catalog: seq<CountryEntry>, selected: seq<string>)
    requires forall j :: 0 <= j < |catalog| ==> Lower(catalog[j].tag) != Lower(c)
    ensures CountryMatch(countries + [c], catalog, selected) == CountryMatch(countries, catalog, selected)
  {
    var cs := countries + [c];
    if CountryMatch(cs, catalog, selected) {
      var i, j :| 0 <= i < |cs| && 0 <= j < |catalog| && CountryEntryHit(catalog[j], cs[i], selected);
      assert i < |countries| && cs[i] == countries[i];
    }
    if CountryMatch(countries, catalog, selected) {
      var i, j :| 0 <= i < |countries| && 0 <= j < |catalog| && CountryEntryHit(catalog[j], countries[i], selected);
      assert cs[i] == countries[i];
    }
  }

  // ---------------------------------------------------------------------------
  // The same match through a precomputed lookup table

  /** The canonical filters a raw genre tag resolves to, as a lookup table would hold them. */
  function ResolveGenre(catalog: seq<GenreEntry>, tag: string): set<string> {
    if catalog == [] then {}
    else
      (if Lower(catalog[0].tag) == Lower(tag) then set f | f in EntryFilters(catalog[0]) else {})
      + ResolveGenre(catalog[1..], tag)
  }

  lemma {:induction false} ResolveGenreMembers(catalog: seq<GenreEntry>, tag: string)
    ensures forall f :: f in ResolveGenre(catalog, tag) <==>
      exists j :: 0 <= j < |catalog| && Lower(catalog[j].tag) == Lower(tag) && f in EntryFilters(catalog[j])
  {
    if catalog != [] {
      ResolveGenreMembers(catalog[1..], tag);
      forall f | f in ResolveGenre(catalog, tag)
        ensures exists j :: 0 <= j < |catalog| && Lower(catalog[j].tag) == Lower(tag) && f in EntryFilters(catalog[j])
      {
        if !(Lower(catalog[0].tag) == Lower(tag) && f in EntryFilters(catalog[0])) {
          assert f in ResolveGenre(catalog[1..], tag);
          var j :| 0 <= j < |catalog[1..]| && Lower(catalog[1..][j].tag) == Lower(tag) && f in EntryFilters(catalog[1..][j]);
          assert catalog[1..][j] == catalog[j + 1];
        }
      }
      forall f | exists j :: 0 <= j < |catalog| && Lower(catalog[j].tag) == Lower(tag) && f in EntryFilters(catalog[j])
        ensures f in ResolveGenre(catalog, tag)
      {
        var j :| 0 <= j < |catalog| && Lower(catalog[j].tag) == Lower(tag) && f in EntryFilters(catalog[j]);
        if j > 0 {
          assert catalog[1..][j - 1] == catalog[j];
        }
      }
    }
  }

  /**
   * The scan over catalog entries agrees with a lookup of each document genre in a
   * precomputed tag-to-filters table.
   */
  lemma GenreMatchByLookup(genres: seq<string>, catalog: seq<GenreEntry>, selected: seq<string>)
    ensures GenreMatch(genres, catalog, selected) <==>
      exists i, f :: 0 <= i < |genres| && f in ResolveGenre(catalog, genres[i]) && f in selected
  {
    if GenreMatch(genres, catalog, selected) {
      var i, j :| 0 <= i < |genres| && 0 <= j < |catalog| && GenreEntryHit(catalog[j], genres[i], selected);
      var f :| f in EntryFilters(catalog[j]) && f in selected;
      ResolveGenreMembers(catalog, genres[i]);
      assert f in ResolveGenre(catalog, genres[i]);
    }
    if exists i, f :: 0 <= i < |genres| && f in ResolveGenre(catalog, genres[i]) && f in selected {
      var i, f :| 0 <= i < |genres| && f in ResolveGenre(catalog, genres[i]) && f in selected;
      ResolveGenreMembers(catalog, genres[i]);
      var j :| 0 <= j < |catalog| && Lower(catalog[j].tag) == Lower(genres[i]) && f in EntryFilters(catalog[j]);
      assert GenreEntryHit(catalog[j], genres[i], selected);
    }
  }

  // ---------------------------------------------------------------------------
  // Worked examples

  /** A "Drama" document passes the filter "Drama" through the catalog entry "drama", and fails "Comedy". */
  lemma DramaExample()
    ensures var d := Doc(1, "X", Some(["Drama"]), None, None, None, None, None);
            var cat := Catalogs([GenreEntry("drama", "Drama", None)], []);
            && Keep(d, cat, Selection(["Drama"], [], []))
            && !Keep(d, cat, Selection(["Comedy"], [], []))
  {
    var e := GenreEntry("drama", "Drama", None);
    assert Lower("drama") == Lower("Drama");
    assert "Drama" in EntryFilters(e);
    assert GenreEntryHit(e, "Drama", ["Drama"]);
    assert GenreEntryHit([e][0], ["Drama"][0], ["Drama"]);
  }

  /** Both categories active: a genre match alone does not keep a document whose country fails. */
  lemma AndAcrossCategories(d: Doc, cat: Catalogs, sel: Selection)
    requires sel.genres != [] && GenreMatch(GenresOf(d), cat.genres, sel.genres)
    requires sel.countries != [] && !CountryMatch(CountriesOf(d), cat.countries, sel.countries)
    ensures !Keep(d, cat, sel)
  {
  }
}
