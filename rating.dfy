/**
 * The star bar of the reader page (js/reader-script.js,
 * `generateStarRating`).  JavaScript numbers are modelled as reals.
 */
module Rating {
  /** The three symbols of the star bar. */
  datatype Symbol = Full | Half | Empty

  /** The string literal the script appends for each symbol, character for
      character as the file holds it: the UTF-8 bytes of the intended star,
      half and empty star read as Mac Roman, so "‚òÖ", "¬Ω" and "‚òÜ". */
  const FULL: string := "\U{201A}\U{00F2}\U{00D6}"
  const HALF: string := "\U{00AC}\U{03A9}"
  const EMPTY: string := "\U{201A}\U{00F2}\U{00DC}"

  function Glyph(sym: Symbol): string {
    match sym
    case Full => FULL
    case Half => HALF
    case Empty => EMPTY
  }

  /** The text of a run of symbols: their literals one after another. */
  function Render(bar: seq<Symbol>): string {
    if bar == [] then "" else Render(bar[..|bar| - 1]) + Glyph(bar[|bar| - 1])
  }

  /** Appending one symbol appends its literal. */
  lemma RenderSnoc(bar: seq<Symbol>, sym: Symbol)
    ensures Render(bar + [sym]) == Render(bar) + Glyph(sym)
  {
    assert (bar + [sym])[..|bar|] == bar;
  }

  /** The text of two runs is the text of the first, then of the second. */
  lemma {:induction false} RenderConcat(a: seq<Symbol>, b: seq<Symbol>)
    ensures Render(a + b) == Render(a) + Render(b)
    decreases |b|
  {
    if b != [] {
      var c := b[..|b| - 1];
      assert a + b == (a + c) + [b[|b| - 1]];
      assert b == c + [b[|b| - 1]];
      RenderSnoc(a + c, b[|b| - 1]);
      RenderSnoc(c, b[|b| - 1]);
      RenderConcat(a, c);
      calc {
        Render(a + b);
        Render((a + c) + [b[|b| - 1]]);
        Render(a + c) + Glyph(b[|b| - 1]);
        (Render(a) + Render(c)) + Glyph(b[|b| - 1]);
        Render(a) + (Render(c) + Glyph(b[|b| - 1]));
        Render(a) + Render(c + [b[|b| - 1]]);
        Render(a) + Render(b);
      }
    } else {
      assert a + b == a;
    }
  }

  /** `Math.trunc`: rounds toward zero. */
  function Trunc(x: real): int {
    if x >= 0.0 then x.Floor else -((-x).Floor)
  }

  /** `x % 1` in JavaScript: the remainder keeps the sign of `x`. */
  function JsFraction(x: real): real {
    x - Trunc(x) as real
  }

  /** `Math.floor(rating)`. */
  function FullStars(rating: real): int {
    rating.Floor
  }

  /** `rating % 1 >= 0.5`. */
  predicate HasHalfStar(rating: real) {
    JsFraction(rating) >= 0.5
  }

  /** `5 - fullStars - (hasHalfStar ? 1 : 0)`. */
  function EmptyStars(rating: real): int {
    5 - FullStars(rating) - (if HasHalfStar(rating) then 1 else 0)
  }

  /** `n` copies of `sym`; a count below zero gives none, as a
      `for (i = 0; i < n; i++)` loop does. */
  function Repeat(sym: Symbol, n: int): (r: seq<Symbol>)
    ensures |r| == if n < 0 then 0 else n
    ensures forall k :: 0 <= k < |r| ==> r[k] == sym
  {
    if n <= 0 then [] else Repeat(sym, n - 1) + [sym]
  }

  /** `n` copies of a symbol take `n` times its literal's length: three
      characters for a full or an empty star, two for a half one. */
  lemma {:induction false} RenderRepeatLength(sym: Symbol, n: int)
    ensures |Render(Repeat(sym, n))| ==
      (if sym == Half then 2 else 3) * (if n < 0 then 0 else n)
    decreases if n < 0 then 0 else n
  {
    if n > 0 {
      RenderRepeatLength(sym, n - 1);
      assert Repeat(sym, n) == Repeat(sym, n - 1) + [sym];
      RenderSnoc(Repeat(sym, n - 1), sym);
    }
  }

  /** The symbols of the star bar, in order. */
  function Symbols(rating: real): seq<Symbol> {
    Repeat(Full, FullStars(rating))
    + (if HasHalfStar(rating) then [Half] else [])
    + Repeat(Empty, EmptyStars(rating))
  }

  /** `n` copies of the literal `t`, one per round of a counting loop. */
  function RepeatText(t: string, n: int): string {
    if n <= 0 then "" else RepeatText(t, n - 1) + t
  }

  /** The text of the star bar, literal by literal. */
  function StarBar(rating: real): string {
    RepeatText(FULL, FullStars(rating))
    + (if HasHalfStar(rating) then HALF else "")
    + RepeatText(EMPTY, EmptyStars(rating))
  }

  /** `generateStarRating(rating)` without its trailing `rating.toFixed(1)`:
      two counting loops and the half-symbol test append the full, half and
      empty literals. */
  method GenerateStarRating(rating: real) returns (stars: string)
    ensures stars == StarBar(rating)
  {
    var fullStars := FullStars(rating);
    var hasHalfStar := HasHalfStar(rating);
    var emptyStars := EmptyStars(rating);
    stars := "";
    var i := 0;
    while i < fullStars
      invariant 0 <= i <= if fullStars < 0 then 0 else fullStars
      invariant stars == RepeatText(FULL, i)
    {
      stars := stars + FULL;
      i := i + 1;
    }
    assert stars == RepeatText(FULL, fullStars);
    if hasHalfStar {
      stars := stars + HALF;
    }
    var prefix := stars;
    i := 0;
    while i < emptyStars
      invariant 0 <= i <= if emptyStars < 0 then 0 else emptyStars
      invariant stars == prefix + RepeatText(EMPTY, i)
    {
      stars := stars + EMPTY;
      i := i + 1;
    }
    assert stars == prefix + RepeatText(EMPTY, emptyStars);
  }

  /** A run of one symbol renders as the same number of its literal. */
  lemma {:induction false} RenderRepeat(sym: Symbol, n: int)
    ensures Render(Repeat(sym, n)) == RepeatText(Glyph(sym), n)
    decreases if n < 0 then 0 else n
  {
    if n > 0 {
      var t := Glyph(sym);
      RenderRepeat(sym, n - 1);
      assert Repeat(sym, n) == Repeat(sym, n - 1) + [sym];
      RenderSnoc(Repeat(sym, n - 1), sym);
      assert RepeatText(t, n) == RepeatText(t, n - 1) + t;
    }
  }

  /** The text the loops build is the rendering of the bar's symbols. */
  lemma StarBarRendersSymbols(rating: real)
    ensures StarBar(rating) == Render(Symbols(rating))
  {
    var full, empty := Repeat(Full, FullStars(rating)), Repeat(Empty, EmptyStars(rating));
    var half: seq<Symbol> := if HasHalfStar(rating) then [Half] else [];
    RenderConcat(full + half, empty);
    RenderConcat(full, half);
    RenderRepeat(Full, FullStars(rating));
    RenderRepeat(Empty, EmptyStars(rating));
    if HasHalfStar(rating) {
      RenderSnoc([], Half);
      assert [] + [Half] == half;
    }
  }

  /** For a rating from 0 to 5 the bar has exactly five symbols:
      `floor(rating)` full ones, then a half symbol exactly when the
      fractional part is at least 0.5, then empty ones. */
  lemma StarBarInRange(rating: real)
    requires 0.0 <= rating <= 5.0
    ensures |Symbols(rating)| == 5
    ensures forall k :: 0 <= k < 5 ==>
      Symbols(rating)[k] ==
        if k < rating.Floor then Full
        else if k == rating.Floor && rating - rating.Floor as real >= 0.5 then Half
        else Empty
  {
  }

  /** The text of `f` full symbols, an optional half one and `e` empty
      ones: three characters per full or empty symbol, two for the half. */
  lemma RenderBarLength(f: int, h: bool, e: int)
    ensures |Render(Repeat(Full, f) + (if h then [Half] else []) + Repeat(Empty, e))| ==
      3 * (if f < 0 then 0 else f) + (if h then 2 else 0) + 3 * (if e < 0 then 0 else e)
  {
    var full, empty := Repeat(Full, f), Repeat(Empty, e);
    var half: seq<Symbol> := if h then [Half] else [];
    RenderConcat(full + half, empty);
    RenderConcat(full, half);
    RenderRepeatLength(Full, f);
    RenderRepeatLength(Empty, e);
    if h {
      RenderSnoc([], Half);
      assert [] + [Half] == half;
    }
  }

  /** The text of the bar is three characters per full or empty symbol and
      two for the half one; for a rating from 0 to 5 that is 14 characters
      with a half symbol and 15 without. */
  lemma StarBarTextLength(rating: real)
    ensures |StarBar(rating)| ==
      3 * (if FullStars(rating) < 0 then 0 else FullStars(rating))
      + (if HasHalfStar(rating) then 2 else 0)
      + 3 * (if EmptyStars(rating) < 0 then 0 else EmptyStars(rating))
    ensures 0.0 <= rating <= 5.0 ==> |StarBar(rating)| == if HasHalfStar(rating) then 14 else 15
  {
    StarBarRendersSymbols(rating);
    RenderBarLength(FullStars(rating), HasHalfStar(rating), EmptyStars(rating));
  }

  /** Outside the range the loops still run: the bar has
      `max(full, 0) + half + max(empty, 0)` symbols, so a rating of 7
      shows seven full stars and a negative rating six empty ones. */
  lemma StarBarLength(rating: real)
    ensures |Symbols(rating)| ==
      (if FullStars(rating) < 0 then 0 else FullStars(rating))
      + (if HasHalfStar(rating) then 1 else 0)
      + (if EmptyStars(rating) < 0 then 0 else EmptyStars(rating))
  {
  }

  /** A rating of 3 shows three full and two empty literals, fifteen
      characters before the `toFixed` suffix. */
  lemma StarBarThree()
    ensures StarBar(3.0) == FULL + FULL + FULL + EMPTY + EMPTY
    ensures |StarBar(3.0)| == 15
  {
    assert FullStars(3.0) == 3 && !HasHalfStar(3.0) && EmptyStars(3.0) == 2;
    assert RepeatText(FULL, 3) == FULL + FULL + FULL by {
      assert RepeatText(FULL, 1) == FULL;
    }
    assert RepeatText(EMPTY, 2) == EMPTY + EMPTY by {
      assert RepeatText(EMPTY, 1) == EMPTY;
    }
  }

  /** A negative rating shows six empty symbols and nothing else. */
  lemma StarBarNegative(rating: real)
    requires -1.0 < rating < 0.0
    ensures Symbols(rating) == Repeat(Empty, 6)
  {
  }
}
