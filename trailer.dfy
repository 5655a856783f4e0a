/**
 * The trailer lookup of trailer.py `get_key`: the video list of a TMDB response is scanned
 * for entries on the wanted platform, of type "trailer", in an allowed language; the key of
 * the first such entry is returned. Python's exceptions on ill-typed JSON are kept as an
 * outcome of their own.
 */
module Trailer {
  import opened Optional
  import opened PyStr

  /** A parsed JSON value. */
  datatype Json =
    | JNull
    | JBool(b: bool)
    | JNumber(n: real)
    | JString(s: string)
    | JArray(elems: seq<Json>)
    | JObject(fields: map<string, Json>)

  /** The outcome of a Python expression: a value, or an exception that escapes get_key. */
  datatype PyResult<T> = Returns(value: T) | Raises

  const DefaultPlatform := "youtube"
  const DefaultLangs: seq<string> := ["de", "en"]

  /**
   * `data.get("results", [])` iterated by the list comprehension: the elements of a list;
   * a dict or a string yields only strings, which the `isinstance(v, dict)` test drops, so
   * nothing; a number, a boolean or null is not iterable and raises. A `data` that is not a
   * dict has no `get` and raises.
   */
  function Results(data: Json): (r: PyResult<seq<Json>>)
    ensures !data.JObject? ==> r.Raises?
    ensures data.JObject? && "results" !in data.fields ==> r == Returns([])
    ensures data.JObject? && "results" in data.fields ==>
      var res := data.fields["results"];
      && (res.JArray? ==> r == Returns(res.elems))
      && (res.JObject? || res.JString? ==> r == Returns([]))
      && (res.JNull? || res.JNumber? || res.JBool? ==> r.Raises?)
  {
    match data
    case JObject(fields) =>
      if "results" !in fields then Returns([])
      else
        (match fields["results"]
         case JArray(elems) => Returns(elems)
         case JObject(_) => Returns([])
         case JString(_) => Returns([])
         case _ => Raises)
    case _ => Raises
  }

  /** `v.get(field, "").lower()`: a missing field reads as "", a non-string value raises. */
  function LowerField(fields: map<string, Json>, field: string): (r: PyResult<string>)
    ensures field !in fields ==> r == Returns("")
    ensures field in fields && fields[field].JString? ==> r == Returns(Lower(fields[field].s))
    ensures field in fields && !fields[field].JString? ==> r.Raises?
  {
    if field !in fields then Returns("")
    else if fields[field].JString? then Returns(Lower(fields[field].s))
    else Raises
  }

  /**
   * The comprehension's condition, evaluated left to right with `and` short-circuiting: a
   * non-dict is dropped, then site, type and language are compared in that order.
   */
  function Qualifies(v: Json, platform: string, langs: seq<string>): (r: PyResult<bool>)
    ensures !v.JObject? ==> r == Returns(false)
    ensures r == Returns(true) <==>
      && v.JObject?
      && LowerField(v.fields, "site") == Returns(platform)
      && LowerField(v.fields, "type") == Returns("trailer")
      && LowerField(v.fields, "iso_639_1").Returns? && LowerField(v.fields, "iso_639_1").value in langs
    ensures r.Raises? <==>
      && v.JObject?
      && (|| LowerField(v.fields, "site").Raises?
          || (&& LowerField(v.fields, "site") == Returns(platform)
              && (|| LowerField(v.fields, "type").Raises?
                  || (LowerField(v.fields, "type") == Returns("trailer") && LowerField(v.fields, "iso_639_1").Raises?))))
  {
    match v
    case JObject(f) =>
      (match LowerField(f, "site")
       case Raises => Raises
       case Returns(site) =>
         if site != platform then Returns(false)
         else
           match LowerField(f, "type")
           case Raises => Raises
           case Returns(ty) =>
             if ty != "trailer" then Returns(false)
             else
               match LowerField(f, "iso_639_1")
               case Raises => Raises
               case Returns(lang) => Returns(lang in langs))
    case _ => Returns(false)
  }

  /** A qualifying entry is a dict whose site, type and language are strings that match. */
  lemma QualifiesIff(v: Json, platform: string, langs: seq<string>)
    requires platform != "" && "" !in langs
    ensures Qualifies(v, platform, langs) == Returns(true) <==>
      && v.JObject?
      && "site" in v.fields && v.fields["site"].JString? && Lower(v.fields["site"].s) == platform
      && "type" in v.fields && v.fields["type"].JString? && Lower(v.fields["type"].s) == "trailer"
      && "iso_639_1" in v.fields && v.fields["iso_639_1"].JString? && Lower(v.fields["iso_639_1"].s) in langs
  {
  }

  /** The list comprehension: the qualifying entries in order, or the first exception. */
  function Trailers(xs: seq<Json>, platform: string, langs: seq<string>): (r: PyResult<seq<Json>>)
    ensures r.Returns? <==> forall k :: 0 <= k < |xs| ==> Qualifies(xs[k], platform, langs).Returns?
    ensures r.Returns? ==> forall v :: v in r.value <==> v in xs && Qualifies(v, platform, langs) == Returns(true)
  {
    if xs == [] then Returns([])
    else
      match Qualifies(xs[0], platform, langs)
      case Raises => Raises
      case Returns(q) =>
        match Trailers(xs[1..], platform, langs)
        case Raises =>
          assert forall k :: 0 <= k < |xs| - 1 ==> xs[1..][k] == xs[k + 1];
          Raises
        case Returns(rest) =>
          assert forall k :: 1 <= k < |xs| ==> xs[k] == xs[1..][k - 1];
          assert forall v :: v in xs <==> v == xs[0] || v in xs[1..];
          Returns(if q then [xs[0]] + rest else rest)
  }

  /** An entry that is not a dict is skipped wherever it stands: the outcome is as without it. */
  lemma {:induction false} NonDictSkipped(a: seq<Json>, v: Json, b: seq<Json>, platform: string, langs: seq<string>)
    requires !v.JObject?
    ensures Trailers(a + [v] + b, platform, langs) == Trailers(a + b, platform, langs)
  {
    if a == [] {
      assert a + [v] + b == [v] + b && a + b == b;
      assert ([v] + b)[1..] == b;
    } else {
      assert (a + [v] + b)[0] == a[0] && (a + b)[0] == a[0];
      assert (a + [v] + b)[1..] == a[1..] + [v] + b;
      assert (a + b)[1..] == a[1..] + b;
      NonDictSkipped(a[1..], v, b, platform, langs);
    }
  }

  /** `trailers[0].get("key")`: a missing key and JSON null both come back as None. */
  function KeyOf(v: Json): (r: Option<Json>)
    ensures r.Some? <==> v.JObject? && "key" in v.fields && v.fields["key"] != JNull
    ensures r.Some? ==> r.value == v.fields["key"]
  {
    if v.JObject? && "key" in v.fields && v.fields["key"] != JNull then Some(v.fields["key"]) else None
  }

  /**
   * `get_key(response_text, platform, allowed_langs)` with the response already parsed:
   * None for text that is not JSON (it reads as `{}`), which yields no key.
   */
  function GetKey(parsed: Option<Json>, platform: string, langs: seq<string>): (r: PyResult<Option<Json>>)
    ensures parsed.None? ==> r == Returns(None)
    ensures parsed.Some? && !parsed.value.JObject? ==> r.Raises?
    ensures r.Returns? && r.value.Some? ==>
      var res := Results(parsed.GetOr(JObject(map[])));
      res.Returns? && exists v :: v in res.value && Qualifies(v, platform, langs) == Returns(true) && KeyOf(v) == r.value
  {
    var data := parsed.GetOr(JObject(map[]));
    match Results(data)
    case Raises => Raises
    case Returns(xs) =>
      match Trailers(xs, platform, langs)
      case Raises => Raises
      case Returns(ts) => Returns(if ts != [] then KeyOf(ts[0]) else None)
  }

  /** Text that is not JSON gives no key, whatever the platform and languages. */
  lemma UnparseableGivesNone(platform: string, langs: seq<string>)
    ensures GetKey(None, platform, langs) == Returns(None)
  {
  }

  /** The key comes from the first qualifying entry, when every entry before it evaluated. */
  lemma {:induction false} FirstMatch(xs: seq<Json>, i: int, platform: string, langs: seq<string>)
    requires 0 <= i < |xs|
    requires forall k :: 0 <= k < i ==> Qualifies(xs[k], platform, langs) == Returns(false)
    requires Qualifies(xs[i], platform, langs) == Returns(true)
    requires Trailers(xs, platform, langs).Returns?
    ensures Trailers(xs, platform, langs).value != []
    ensures Trailers(xs, platform, langs).value[0] == xs[i]
  {
    if i > 0 {
      FirstMatch(xs[1..], i - 1, platform, langs);
    }
  }

  /** The key of the first qualifying entry is returned. */
  lemma GetKeyFirstMatch(fields: map<string, Json>, xs: seq<Json>, i: int, platform: string, langs: seq<string>)
    requires "results" in fields && fields["results"] == JArray(xs)
    requires 0 <= i < |xs|
    requires forall k :: 0 <= k < i ==> Qualifies(xs[k], platform, langs) == Returns(false)
    requires Qualifies(xs[i], platform, langs) == Returns(true)
    requires Trailers(xs, platform, langs).Returns?
    ensures GetKey(Some(JObject(fields)), platform, langs) == Returns(KeyOf(xs[i]))
  {
    FirstMatch(xs, i, platform, langs);
  }

  /** With no qualifying entry (and no exception) there is no key. */
  lemma {:induction false} NoMatchNoKey(fields: map<string, Json>, xs: seq<Json>, platform: string, langs: seq<string>)
    requires "results" in fields && fields["results"] == JArray(xs)
    requires forall k :: 0 <= k < |xs| ==> Qualifies(xs[k], platform, langs) == Returns(false)
    ensures GetKey(Some(JObject(fields)), platform, langs) == Returns(None)
  {
    NoneQualify(xs, platform, langs);
  }

  lemma {:induction false} NoneQualify(xs: seq<Json>, platform: string, langs: seq<string>)
    requires forall k :: 0 <= k < |xs| ==> Qualifies(xs[k], platform, langs) == Returns(false)
    ensures Trailers(xs, platform, langs) == Returns([])
  {
    if xs != [] {
      NoneQualify(xs[1..], platform, langs);
    }
  }

  /** An entry without a language never qualifies for the default languages: it reads as "". */
  lemma LanguageRequired(fields: map<string, Json>, platform: string)
    requires "iso_639_1" !in fields
    ensures Qualifies(JObject(fields), platform, DefaultLangs) != Returns(true)
  {
  }

  /** An entry whose site is not a string raises, however good the entries before it were. */
  lemma BadSiteRaises(good: seq<Json>, site: Json, platform: string, langs: seq<string>)
    requires forall k :: 0 <= k < |good| ==> Qualifies(good[k], platform, langs).Returns?
    requires !site.JString?
    ensures Trailers(good + [JObject(map["site" := site])], platform, langs).Raises?
  {
    var xs := good + [JObject(map["site" := site])];
    var last := |xs| - 1;
    assert Qualifies(xs[last], platform, langs).Raises?;
  }

  /** A German YouTube trailer is found by the defaults. */
  lemma GermanYoutubeTrailer()
    ensures var v := JObject(map["site" := JString("YouTube"), "type" := JString("Trailer"),
                                 "iso_639_1" := JString("de"), "key" := JString("abc")]);
      GetKey(Some(JObject(map["results" := JArray([v])])), DefaultPlatform, DefaultLangs) == Returns(Some(JString("abc")))
  {
    assert Lower("YouTube") == "youtube";
    assert Lower("Trailer") == "trailer";
    assert Lower("de") == "de";
  }
}
