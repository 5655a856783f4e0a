/**
 * The home page's card rows (seiten/seite1.py `display_series_cards`): the hits are copied,
 * then shuffled, sorted by a key in descending order, or kept as they are; walking the
 * result, every hit with a poster becomes a card until `limit` cards are made.
 */
module CardWindow {
  import opened Optional
  import opened Documents

  /** The two sort keys the page uses: the first year ("Neueste Serien") and the popularity ("Beliebteste Serien"). */
  datatype SortKey = ByStart | ByPopularity

  /** `float(doc[field][0]) if doc[field] else 0`. */
  function KeyOf(k: SortKey, h: Hit): (r: real)
    ensures k == ByStart && h.doc.start.Some? ==> r == h.doc.start.value as real
    ensures k == ByPopularity && h.doc.popularity.Some? ==> r == h.doc.popularity.value
    ensures (k == ByStart && h.doc.start.None?) || (k == ByPopularity && h.doc.popularity.None?) ==> r == 0.0
  {
    match k
    case ByStart => if h.doc.start.Some? then h.doc.start.value as real else 0.0
    case ByPopularity => h.doc.popularity.GetOr(0.0)
  }

  /** Descending by key: no element has a smaller key than one after it. */
  ghost predicate SortedDesc(k: SortKey, s: seq<Hit>) {
    forall i, j :: 0 <= i < j < |s| ==> KeyOf(k, s[j]) <= KeyOf(k, s[i])
  }

  /** The hits with key value v, in their order in s. */
  function WithKey(k: SortKey, s: seq<Hit>, v: real): seq<Hit> {
    if s == [] then []
    else (if KeyOf(k, s[0]) == v then [s[0]] else []) + WithKey(k, s[1..], v)
  }

  /** x goes after every hit whose key is at least its own. */
  function InsertDesc(k: SortKey, x: Hit, s: seq<Hit>): seq<Hit> {
    if s == [] then [x]
    else if KeyOf(k, s[0]) < KeyOf(k, x) then [x] + s
    else [s[0]] + InsertDesc(k, x, s[1..])
  }

  /** Inserting adds x and nothing else. */
  lemma {:induction false} InsertDescPerm(k: SortKey, x: Hit, s: seq<Hit>)
    ensures multiset(InsertDesc(k, x, s)) == multiset(s) + multiset{x}
  {
    if s != [] && KeyOf(k, s[0]) >= KeyOf(k, x) {
      InsertDescPerm(k, x, s[1..]);
      assert s == [s[0]] + s[1..];
    }
  }

  /** Inserting into a descending sequence keeps it descending. */
  lemma {:induction false} InsertDescSorted(k: SortKey, x: Hit, s: seq<Hit>)
    requires SortedDesc(k, s)
    ensures SortedDesc(k, InsertDesc(k, x, s))
  {
    if s != [] && KeyOf(k, s[0]) >= KeyOf(k, x) {
      SortedTail(k, s);
      InsertDescSorted(k, x, s[1..]);
      InsertDescPerm(k, x, s[1..]);
      var t := InsertDesc(k, x, s[1..]);
      assert InsertDesc(k, x, s) == [s[0]] + t;
      forall j | 0 <= j < |t| ensures KeyOf(k, t[j]) <= KeyOf(k, s[0]) {
        assert t[j] in multiset(t);
        if t[j] != x {
          assert t[j] in multiset(s[1..]);
          var m :| 0 <= m < |s[1..]| && s[1..][m] == t[j];
          assert s[m + 1] == t[j];
        }
      }
    }
  }

  /**
   * `sorted(hits, key=..., reverse=True)`: a permutation of the input that is descending by
   * key and, Python's sort being stable, keeps hits with equal keys in their order
   * (SortDescStable).
   */
  function SortDesc(k: SortKey, s: seq<Hit>): (r: seq<Hit>)
    ensures multiset(r) == multiset(s)
    ensures SortedDesc(k, r)
  {
    if s == [] then []
    else
      var n := |s| - 1;
      var t := SortDesc(k, s[..n]);
      InsertDescPerm(k, s[n], t);
      InsertDescSorted(k, s[n], t);
      assert s == s[..n] + [s[n]];
      InsertDesc(k, s[n], t)
  }

  lemma {:induction false} WithKeyAppend(k: SortKey, a: seq<Hit>, b: seq<Hit>, v: real)
    ensures WithKey(k, a + b, v) == WithKey(k, a, v) + WithKey(k, b, v)
  {
    if a != [] {
      assert (a + b)[1..] == a[1..] + b;
      WithKeyAppend(k, a[1..], b, v);
    } else {
      assert a + b == b;
    }
  }

  /** In a descending sequence whose first key is below v, no hit has key v. */
  lemma {:induction false} WithKeyBelow(k: SortKey, s: seq<Hit>, v: real)
    requires SortedDesc(k, s)
    requires s != [] ==> KeyOf(k, s[0]) < v
    ensures WithKey(k, s, v) == []
  {
    if s != [] {
      if |s| > 1 {
        assert KeyOf(k, s[1..][0]) <= KeyOf(k, s[0]);
      }
      WithKeyBelow(k, s[1..], v);
    }
  }

  /** The head of a hit sequence followed by its tail: the key filter splits the same way. */
  lemma WithKeyCons(k: SortKey, h: Hit, t: seq<Hit>, v: real)
    ensures WithKey(k, [h] + t, v) == (if KeyOf(k, h) == v then [h] else []) + WithKey(k, t, v)
  {
    assert ([h] + t)[1..] == t;
  }

  lemma SortedTail(k: SortKey, s: seq<Hit>)
    requires SortedDesc(k, s) && s != []
    ensures SortedDesc(k, s[1..])
  {
    forall i, j | 0 <= i < j < |s| - 1 ensures KeyOf(k, s[1..][j]) <= KeyOf(k, s[1..][i]) {
      assert s[1..][j] == s[j + 1] && s[1..][i] == s[i + 1];
    }
  }

  lemma {:induction false} InsertDescWithKey(k: SortKey, x: Hit, s: seq<Hit>, v: real)
    requires SortedDesc(k, s)
    ensures WithKey(k, InsertDesc(k, x, s), v) == WithKey(k, s, v) + (if KeyOf(k, x) == v then [x] else [])
    decreases |s|
  {
    var xs := if KeyOf(k, x) == v then [x] else [];
    if s == [] {
      WithKeyCons(k, x, [], v);
    } else if KeyOf(k, s[0]) < KeyOf(k, x) {
      assert InsertDesc(k, x, s) == [x] + s;
      WithKeyCons(k, x, s, v);
      if KeyOf(k, x) == v {
        WithKeyBelow(k, s, v);
      }
    } else {
      SortedTail(k, s);
      var t := InsertDesc(k, x, s[1..]);
      assert InsertDesc(k, x, s) == [s[0]] + t;
      var s0 := if KeyOf(k, s[0]) == v then [s[0]] else [];
      WithKeyCons(k, s[0], t, v);
      InsertDescWithKey(k, x, s[1..], v);
      assert WithKey(k, s, v) == s0 + WithKey(k, s[1..], v);
      assert WithKey(k, [s[0]] + t, v) == s0 + (WithKey(k, s[1..], v) + xs);
    }
  }

  /** One insertion step of the sort keeps, for key value v, the order of the hits so far. */
  lemma StableStep(k: SortKey, s: seq<Hit>, sorted: seq<Hit>, v: real)
    requires s != [] && SortedDesc(k, sorted)
    requires WithKey(k, sorted, v) == WithKey(k, s[..|s| - 1], v)
    ensures WithKey(k, InsertDesc(k, s[|s| - 1], sorted), v) == WithKey(k, s, v)
  {
    var init, last := s[..|s| - 1], s[|s| - 1];
    var xs := if KeyOf(k, last) == v then [last] else [];
    InsertDescWithKey(k, last, sorted, v);
    assert s == init + [last];
    WithKeyAppend(k, init, [last], v);
    WithKeyCons(k, last, [], v);
    assert WithKey(k, [last], v) == xs;
  }

  /** Sorting is stable: for every key value the hits carrying it keep their relative order. */
  lemma {:induction false} SortDescStable(k: SortKey, s: seq<Hit>, v: real)
    ensures WithKey(k, SortDesc(k, s), v) == WithKey(k, s, v)
  {
    if s != [] {
      var init := s[..|s| - 1];
      SortDescStable(k, init, v);
      StableStep(k, s, SortDesc(k, init), v);
    }
  }

  /** `random.shuffle`: Fisher-Yates, each step swapping position i with some j <= i. */
  method Shuffle(a: array<Hit>)
    modifies a
    ensures multiset(a[..]) == multiset(old(a[..]))
  {
    var i := a.Length - 1;
    while i > 0
      invariant -1 <= i < a.Length
      invariant multiset(a[..]) == multiset(old(a[..]))
    {
      var j :| 0 <= j <= i;
      a[i], a[j] := a[j], a[i];
      i := i - 1;
    }
  }

  /** The card of a hit that has a poster. */
  function PosterCard(h: Hit): (c: Card)
    requires h.doc.posterPath.Some?
    ensures c.id == h.doc.id && c.title == h.doc.title
    ensures |c.posterUrl| == |TmdbPath| + |h.doc.posterPath.value|
    ensures c.posterUrl[..|TmdbPath|] == TmdbPath && c.posterUrl[|TmdbPath|..] == h.doc.posterPath.value
  {
    Card(h.doc.id, h.doc.title, TmdbPath + h.doc.posterPath.value)
  }

  /** The cards made while walking hs with `limit` cards still to make. */
  function CardsOf(hs: seq<Hit>, limit: int): (r: seq<Card>)
    ensures limit <= 0 ==> r == []
    ensures limit >= 0 ==> |r| <= limit
    ensures |r| <= |hs|
  {
    if hs == [] || limit <= 0 then []
    else if hs[0].doc.posterPath.None? then CardsOf(hs[1..], limit)
    else [PosterCard(hs[0])] + CardsOf(hs[1..], limit - 1)
  }

  /** The cards of every hit with a poster, in order (the row without a limit). */
  function PosterCards(hs: seq<Hit>): seq<Card> {
    if hs == [] then []
    else (if hs[0].doc.posterPath.Some? then [PosterCard(hs[0])] else []) + PosterCards(hs[1..])
  }

  /** The row is the first `limit` poster cards, or all of them when there are fewer. */
  lemma {:induction false} CardsOfIsPrefix(hs: seq<Hit>, limit: int)
    requires limit >= 0
    ensures var all := PosterCards(hs);
      CardsOf(hs, limit) == if limit <= |all| then all[..limit] else all
  {
    if hs != [] && limit > 0 {
      CardsOfIsPrefix(hs[1..], if hs[0].doc.posterPath.None? then limit else limit - 1);
    }
  }

  /** The card loop: walk the hits, stop at `limit` cards, skip hits without a poster. */
  method MakeCards(hitsToShow: seq<Hit>, limit: int) returns (cards: seq<Card>)
    ensures cards == CardsOf(hitsToShow, limit)
  {
    cards := [];
    var count := 0;
    var i := 0;
    while i < |hitsToShow|
      invariant 0 <= i <= |hitsToShow|
      invariant count == |cards|
      invariant cards + CardsOf(hitsToShow[i..], limit - count) == CardsOf(hitsToShow, limit)
    {
      if count >= limit {
        break;
      }
      var h := hitsToShow[i];
      assert hitsToShow[i..] == [h] + hitsToShow[i + 1..];
      if h.doc.posterPath.None? {
        i := i + 1;
        continue;
      }
      cards := cards + [PosterCard(h)];
      count := count + 1;
      i := i + 1;
    }
  }

  /**
   * `display_series_cards(hits, limit, randomize, sort_key)`: the hits in the order they
   * are shown and the cards made from them, before the cards go to the pager.
   */
  method DisplaySeriesCards(hits: seq<Hit>, limit: int, randomize: bool, sortKey: Option<SortKey>)
    returns (hitsToShow: seq<Hit>, cards: seq<Card>)
    ensures multiset(hitsToShow) == multiset(hits)
    ensures !randomize && sortKey.Some? ==> hitsToShow == SortDesc(sortKey.value, hits)
    ensures !randomize && sortKey.None? ==> hitsToShow == hits
    ensures cards == CardsOf(hitsToShow, limit)
  {
    var copy := new Hit[|hits|](i requires 0 <= i < |hits| => hits[i]);
    assert copy[..] == hits;
    if randomize {
      Shuffle(copy);
      hitsToShow := copy[..];
    } else if sortKey.Some? {
      hitsToShow := SortDesc(sortKey.value, copy[..]);
    } else {
      hitsToShow := copy[..];
    }

    cards := MakeCards(hitsToShow, limit);
  }
}
