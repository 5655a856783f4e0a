/**
 * The star rating shown in the detail view (seiten/seite2.py and seiten/seite1.py): a
 * 0..10 vote average is halved onto a 0..5 scale, rounded to the nearest half star with
 * Python 3's `round` (ties go to the even integer), and drawn as five symbols.
 */
module Stars {

  datatype Star = Full | Half | Empty

  /** Python 3's `round(x)` with no digits: the nearest integer, a tie going to the even one. */
  function PyRound(x: real): (n: int)
    ensures x - 0.5 <= n as real <= x + 0.5
    ensures (n as real - x == 0.5 || x - n as real == 0.5) ==> n % 2 == 0
  {
    var f := x.Floor;
    var d := x - f as real;
    if d < 0.5 then f else if d > 0.5 then f + 1 else if f % 2 == 0 then f else f + 1
  }

  /** The two properties of PyRound pin it down: no other integer has them. */
  lemma PyRoundUnique(x: real, n: int)
    requires x - 0.5 <= n as real <= x + 0.5
    requires (n as real - x == 0.5 || x - n as real == 0.5) ==> n % 2 == 0
    ensures n == PyRound(x)
  {
  }

  /** `rounded_half = round(rating_5 * 2) / 2` with `rating_5 = raw / 2`. */
  function RoundedHalf(raw: real): (r: real)
    ensures (r * 2.0).Floor as real == r * 2.0
    ensures -0.25 <= r - raw / 2.0 <= 0.25
  {
    var rating5 := raw / 2.0;
    PyRound(rating5 * 2.0) as real / 2.0
  }

  /** The symbol at position i (1..5). */
  function StarAt(roundedHalf: real, i: int): Star {
    if roundedHalf >= i as real then Full
    else if roundedHalf + 0.5 == i as real then Half
    else Empty
  }

  /** The five symbols for a raw vote average. */
  function StarRow(raw: real): seq<Star> {
    seq(5, k requires 0 <= k < 5 => StarAt(RoundedHalf(raw), k + 1))
  }

  /** The loop `for i in range(1, 6)` that appends one symbol per position. */
  method RenderStars(raw: real) returns (stars: seq<Star>)
    ensures stars == StarRow(raw)
  {
    var roundedHalf := RoundedHalf(raw);
    stars := [];
    for i := 1 to 6
      invariant |stars| == i - 1
      invariant forall k :: 0 <= k < i - 1 ==> stars[k] == StarAt(roundedHalf, k + 1)
    {
      if roundedHalf >= i as real {
        stars := stars + [Full];
      } else if roundedHalf + 0.5 == i as real {
        stars := stars + [Half];
      } else {
        stars := stars + [Empty];
      }
    }
  }

  function Repeat(s: Star, n: nat): (r: seq<Star>)
    ensures |r| == n && forall k :: 0 <= k < n ==> r[k] == s
  {
    seq(n, _ => s)
  }

  /**
   * For a vote average in 0..10 with n = round(raw): n / 2 full stars, a half star when n
   * is odd, and empty stars for the rest of the five.
   */
  lemma StarRowShape(raw: real)
    requires 0.0 <= raw <= 10.0
    ensures var n := PyRound(raw);
      && 0 <= n <= 10
      && StarRow(raw) == Repeat(Full, n / 2) + Repeat(Half, n % 2) + Repeat(Empty, 5 - n / 2 - n % 2)
  {
    var n := PyRound(raw);
    assert raw / 2.0 * 2.0 == raw;
    var rh := n as real / 2.0;
    assert RoundedHalf(raw) == rh;
    var expected := Repeat(Full, n / 2) + Repeat(Half, n % 2) + Repeat(Empty, 5 - n / 2 - n % 2);
    forall k | 0 <= k < 5
      ensures StarRow(raw)[k] == expected[k]
    {
      var i := k + 1;
      assert StarRow(raw)[k] == StarAt(rh, i);
      var q, r := n / 2, n % 2;
      assert n == 2 * q + r && 0 <= r < 2;
      assert rh == q as real + r as real / 2.0;
      if k < q {
        assert expected[k] == Full;
        assert rh >= i as real;
      } else if k < q + r {
        assert expected[k] == Half;
        assert r == 1 && k == q;
        assert rh + 0.5 == i as real;
      } else {
        assert expected[k] == Empty;
        assert rh < i as real && rh + 0.5 != i as real;
      }
    }
  }

  /** A raw 7.0 shows three full stars, one half and one empty. */
  lemma SevenIsThreeAndAHalf()
    ensures StarRow(7.0) == [Full, Full, Full, Half, Empty]
  {
    assert PyRound(7.0) == 7;
    StarRowShape(7.0);
  }

  /** A raw 0.0 (or a missing rating) shows five empty stars. */
  lemma ZeroIsEmpty()
    ensures StarRow(0.0) == [Empty, Empty, Empty, Empty, Empty]
  {
    assert PyRound(0.0) == 0;
    StarRowShape(0.0);
  }

  /** Round-half-to-even: a raw 2.5 rounds to 2, so it shows one full star, not one and a half. */
  lemma TieRoundsToEven()
    ensures StarRow(2.5) == [Full, Empty, Empty, Empty, Empty]
  {
    PyRoundUnique(2.5, 2);
    StarRowShape(2.5);
  }

  /** The numeric label goes with the stars only when the halved rating is not 0. */
  predicate ShowsRatingLabel(raw: real): (b: bool)
    ensures b <==> raw != 0.0
  {
    raw / 2.0 != 0.0
  }
}
