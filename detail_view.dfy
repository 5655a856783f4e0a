/**
 * The metadata line of the detail view (seiten/seite1.py `show_detail_dialog`, and the
 * same code in seiten/seite2.py): the star row with the numeric rating, the first year
 * and the joined, abbreviated country list, each present only when it has something to say.
 */
module DetailView {
  import opened Optional
  import opened PyStr
  import opened Documents
  import opened Stars

  datatype MetaPart = RatingPart(stars: seq<Star>, raw: real) | YearPart(year: int) | CountriesPart(text: string)

  /** The raw vote average, 0.0 when the document has none. */
  function RawRating(d: Doc): (r: real)
    ensures d.voteAverage.Some? ==> r == d.voteAverage.value
    ensures d.voteAverage.None? ==> r == 0.0
  {
    d.voteAverage.GetOr(0.0)
  }

  /** A joined list of two or more countries contains the separator's comma. */
  lemma {:induction false} JoinedListHasComma(cs: seq<string>)
    requires |cs| >= 2
    ensures ',' in Join(cs, ", ")
  {
    var j := Join(cs, ", ");
    assert j == cs[0] + ", " + Join(cs[1..], ", ");
    assert j[|cs[0]|] == ',';
  }

  /**
   * `", ".join(countries)`, where exactly "United States of America" becomes "USA" and
   * exactly "United Kingdom" becomes "UK": only a single-country list is ever abbreviated.
   */
  function CountryLabel(countries: seq<string>): (r: string)
    ensures countries == [] ==> r == ""
    ensures |countries| == 1 && countries[0] == "United States of America" ==> r == "USA"
    ensures |countries| == 1 && countries[0] == "United Kingdom" ==> r == "UK"
    ensures |countries| == 1 && countries[0] != "United States of America" && countries[0] != "United Kingdom"
            ==> r == countries[0]
    ensures |countries| >= 2 ==> r == Join(countries, ", ")
  {
    var joined := if countries != [] then Join(countries, ", ") else "";
    if |countries| >= 2 then
      JoinedListHasComma(countries);
      assert ',' !in "United States of America" && ',' !in "United Kingdom";
      joined
    else if joined == "United States of America" then "USA"
    else if joined == "United Kingdom" then "UK"
    else joined
  }

  /** The metadata parts of the detail view: rating, year, countries, each only when present. */
  function MetaPartsOf(d: Doc): seq<MetaPart> {
    var raw := RawRating(d);
    var countries := CountryLabel(CountriesOf(d));
    (if ShowsRatingLabel(raw) then [RatingPart(StarRow(raw), raw)] else [])
    + (if d.start.Some? then [YearPart(d.start.value)] else [])
    + (if countries != "" then [CountriesPart(countries)] else [])
  }

  /** The `meta_parts` list, appended in the order rating, year, countries. */
  method DetailMeta(d: Doc) returns (parts: seq<MetaPart>)
    ensures parts == MetaPartsOf(d)
  {
    var raw := RawRating(d);
    var countries := CountryLabel(CountriesOf(d));
    var stars := RenderStars(raw);
    parts := [];
    if |stars| > 0 && raw / 2.0 != 0.0 {
      parts := parts + [RatingPart(stars, raw)];
    }
    if d.start.Some? {
      parts := parts + [YearPart(d.start.value)];
    }
    if countries != "" {
      parts := parts + [CountriesPart(countries)];
    }
  }

  /**
   * The rating part is shown iff the raw rating is not 0, comes first and carries the
   * five-symbol row; the year part iff the document has a year; at most three parts.
   */
  lemma MetaPartsShape(d: Doc)
    ensures var parts := MetaPartsOf(d);
      && |parts| <= 3
      && ((exists k :: 0 <= k < |parts| && parts[k].RatingPart?) <==> RawRating(d) != 0.0)
      && (forall k :: 0 <= k < |parts| && parts[k].RatingPart? ==> k == 0 && |parts[k].stars| == 5)
      && ((exists k :: 0 <= k < |parts| && parts[k].YearPart?) <==> d.start.Some?)
  {
    var parts := MetaPartsOf(d);
    if RawRating(d) != 0.0 {
      assert parts[0].RatingPart?;
    }
    if d.start.Some? {
      var k := if RawRating(d) != 0.0 then 1 else 0;
      assert parts[k].YearPart?;
    }
  }

  /** A document without a vote average shows no rating at all. */
  lemma NoVoteNoRating(d: Doc)
    requires d.voteAverage.None?
    ensures !ShowsRatingLabel(RawRating(d))
    ensures StarRow(RawRating(d)) == [Empty, Empty, Empty, Empty, Empty]
  {
    ZeroIsEmpty();
  }

  /**
   * Which document the detail dialog opens: only in the detail view with a non-empty id,
   * and only when the lookup by id returned a hit (then the first one).
   */
  function DetailTarget(view: Option<string>, selectedId: Option<string>, lookup: seq<Hit>): (r: Option<Doc>)
    ensures r.Some? <==> view == Some("detail") && selectedId.Some? && selectedId.value != "" && lookup != []
    ensures r.Some? ==> r.value == lookup[0].doc
  {
    if view == Some("detail") && selectedId.Some? && selectedId.value != "" && |lookup| > 0
    then Some(lookup[0].doc)
    else None
  }
}
