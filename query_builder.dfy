/**
 * The free-text search of seiten/seite2.py: the query string is lower-cased, stripped and
 * split on whitespace, and every term becomes one `Must` clause of a boolean query over
 * the title field. What the index's own parser makes of a single term (stemming,
 * syntax) is not modelled: a parsed term is kept as the text it was parsed from.
 */
module QueryBuilder {
  import opened Optional
  import opened PyStr

  datatype Occur = Must | Should | MustNot

  datatype Query =
    | Parsed(text: string, fields: seq<string>)   // index.parse_query(text, fields)
    | BooleanQuery(clauses: seq<Clause>)

  datatype Clause = Clause(occur: Occur, query: Query)

  const TitleField: seq<string> := ["title"]

  /** The search terms: `q.lower().strip().split()`, the whitespace-separated words of the lower-cased query. */
  function Terms(q: string): (r: seq<string>)
    ensures r == Split(Lower(q))
    ensures forall k :: 0 <= k < |r| ==> r[k] != [] && NoSpace(r[k])
  {
    SplitStrip(Lower(q));
    Split(Strip(Lower(q)))
  }

  /** Every term is non-empty, free of whitespace and of upper-case letters; stripping is immaterial. */
  lemma TermsShape(q: string)
    ensures forall k :: 0 <= k < |Terms(q)| ==> Terms(q)[k] != [] && NoSpace(Terms(q)[k])
    ensures forall k, c :: 0 <= k < |Terms(q)| && 0 <= c < |Terms(q)[k]| ==> !IsUpper(Terms(q)[k][c])
    ensures Terms(q) == Split(Lower(q))
  {
    SplitStrip(Lower(q));
    forall k, c | 0 <= k < |Terms(q)| && 0 <= c < |Terms(q)[k]|
      ensures !IsUpper(Terms(q)[k][c])
    {
      SplitChars(Lower(q), k, c);
    }
  }

  /** Every character of a piece of `split()` is a character of the split string. */
  lemma {:induction false} SplitChars(s: string, k: int, c: int)
    requires 0 <= k < |Split(s)| && 0 <= c < |Split(s)[k]|
    ensures Split(s)[k][c] in s
    decreases |s|
  {
    if IsSpace(s[0]) {
      SplitChars(s[1..], k, c);
      assert Split(s)[k][c] in s[1..];
    } else {
      var w := TakeWord(s);
      if k == 0 {
        assert Split(s)[0] == w && w <= s;
        assert w[c] == s[c];
      } else {
        SplitChars(s[|w|..], k - 1, c);
        assert Split(s)[k][c] in s[|w|..];
      }
    }
  }

  function LowerAll(ws: seq<string>): (r: seq<string>)
    ensures |r| == |ws| && forall k :: 0 <= k < |ws| ==> r[k] == Lower(ws[k])
  {
    seq(|ws|, k requires 0 <= k < |ws| => Lower(ws[k]))
  }

  lemma LowerConcat(a: string, b: string)
    ensures Lower(a + b) == Lower(a) + Lower(b)
  {
  }

  lemma {:induction false} LowerJoin(ws: seq<string>, sep: string)
    ensures Lower(Join(ws, sep)) == Join(LowerAll(ws), Lower(sep))
  {
    if |ws| >= 2 {
      LowerJoin(ws[1..], sep);
      LowerConcat(ws[0] + sep, Join(ws[1..], sep));
      LowerConcat(ws[0], sep);
      assert LowerAll(ws)[1..] == LowerAll(ws[1..]);
    }
  }

  /** Words joined by single spaces come back as their lower-cased selves, in order. */
  lemma TermsOfJoin(ws: seq<string>)
    requires forall k :: 0 <= k < |ws| ==> ws[k] != [] && NoSpace(ws[k])
    ensures Terms(Join(ws, " ")) == LowerAll(ws)
  {
    var lws := LowerAll(ws);
    LowerAllWords(ws);
    var j := Join(ws, " ");
    SplitStrip(Lower(j));
    assert Terms(j) == Split(Lower(j));
    LowerJoin(ws, " ");
    LowerSpace();
    assert Lower(j) == Join(lws, " ");
    SplitJoin(lws);
  }

  lemma LowerSpace()
    ensures Lower(" ") == " "
  {
    assert !IsUpper(' ');
  }

  lemma LowerAllWords(ws: seq<string>)
    requires forall k :: 0 <= k < |ws| ==> ws[k] != [] && NoSpace(ws[k])
    ensures forall k :: 0 <= k < |ws| ==> LowerAll(ws)[k] != [] && NoSpace(LowerAll(ws)[k])
  {
    forall k | 0 <= k < |ws| ensures LowerAll(ws)[k] != [] && NoSpace(LowerAll(ws)[k]) {
      LowerKeepsNoSpace(ws[k]);
    }
  }

  lemma LowerKeepsNoSpace(s: string)
    requires NoSpace(s)
    ensures NoSpace(Lower(s))
  {
  }

  /** "Breaking Bad" is searched as the two terms "breaking" and "bad". */
  lemma BreakingBadTerms()
    ensures Terms("Breaking Bad") == ["breaking", "bad"]
  {
    var ws := ["Breaking", "Bad"];
    assert "Breaking Bad" == Join(ws, " ");
    TermsOfJoin(ws);
    LowerBreakingBad();
    assert LowerAll(ws) == ["breaking", "bad"];
  }

  lemma LowerBreakingBad()
    ensures Lower("Breaking") == "breaking" && Lower("Bad") == "bad"
  {
    assert LowerChar('B') == 'b';
  }

  /** The query of the results grid; none for an empty `q`, which shows the browse prompt instead. */
  method BuildSearchQuery(q: string) returns (query: Option<Query>)
    ensures query.None? <==> q == ""
    ensures query.Some? ==>
      && query.value.BooleanQuery?
      && |query.value.clauses| == |Terms(q)|
      && forall k :: 0 <= k < |Terms(q)| ==> query.value.clauses[k] == Clause(Must, Parsed(Terms(q)[k], TitleField))
  {
    if q == "" {
      return None;
    }
    var terms := Terms(q);
    var booleanParts := MustClauses(terms);
    query := Some(BooleanQuery(booleanParts));
  }

  /** The loop `for term in terms`: one `Must` clause per term, parsed over the title field, in term order. */
  method MustClauses(terms: seq<string>) returns (booleanParts: seq<Clause>)
    ensures |booleanParts| == |terms|
    ensures forall k :: 0 <= k < |terms| ==> booleanParts[k] == Clause(Must, Parsed(terms[k], TitleField))
  {
    booleanParts := [];
    for k := 0 to |terms|
      invariant |booleanParts| == k
      invariant forall k' :: 0 <= k' < k ==> booleanParts[k'] == Clause(Must, Parsed(terms[k'], TitleField))
    {
      booleanParts := booleanParts + [Clause(Must, Parsed(terms[k], TitleField))];
    }
  }

  /** A query of blanks only is not empty, so it is searched, with no clause at all. */
  lemma BlankQueryHasNoClauses()
    ensures Terms("  ") == []
  {
    assert Lower("  ") == "  ";
  }
}
