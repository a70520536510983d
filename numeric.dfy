/**
 * The numeric-literal classifier `is_number`: delete thousands separators,
 * turn the full-width full stop and the middle dot into '.', then ask
 * whether Python's `float()` accepts what is left.
 */
module Numeric {

  /** `s.replace(c, "")`: every `c` deleted, every other character kept. */
  function RemoveChar(s: string, c: char): (r: string)
    ensures c !in r
    ensures forall x | x != c :: x in r <==> x in s
  {
    if s == [] then []
    else
      assert s == s[..|s| - 1] + [s[|s| - 1]];
      if s[|s| - 1] == c then RemoveChar(s[..|s| - 1], c)
      else RemoveChar(s[..|s| - 1], c) + [s[|s| - 1]]
  }

  /** Deleting from a concatenation deletes from each half, keeping their order. */
  lemma {:induction false} RemoveCharAppend(a: string, b: string, c: char)
    ensures RemoveChar(a + b, c) == RemoveChar(a, c) + RemoveChar(b, c)
    decreases |b|
  {
    if b != [] {
      var init := b[..|b| - 1];
      assert (a + b)[..|a + b| - 1] == a + init;
      RemoveCharAppend(a, init, c);
    } else {
      assert a + b == a;
    }
  }

  /** A string without `c` is left alone, so deleting twice is deleting once. */
  lemma {:induction false} RemoveCharAbsent(s: string, c: char)
    requires c !in s
    ensures RemoveChar(s, c) == s
    decreases |s|
  {
    if s != [] {
      assert s[..|s| - 1] + [s[|s| - 1]] == s;
      RemoveCharAbsent(s[..|s| - 1], c);
    }
  }

  /** `s.replace(from, to)` for single characters: a pointwise substitution. */
  function ReplaceChar(s: string, from: char, to: char): (r: string)
    ensures |r| == |s|
    ensures forall i | 0 <= i < |s| :: r[i] == (if s[i] == from then to else s[i])
  {
    if s == [] then []
    else ReplaceChar(s[..|s| - 1], from, to) + [if s[|s| - 1] == from then to else s[|s| - 1]]
  }

  /** The rewriting `is_number` applies before parsing. */
  function Normalize(s: string): (r: string)
    ensures ',' !in r && '．' !in r && '・' !in r
  {
    ReplaceChar(ReplaceChar(RemoveChar(s, ','), '．', '.'), '・', '.')
  }

  /** Substitution distributes over concatenation. */
  lemma ReplaceCharAppend(a: string, b: string, from: char, to: char)
    ensures ReplaceChar(a + b, from, to) == ReplaceChar(a, from, to) + ReplaceChar(b, from, to)
  {
    var r, ra, rb := ReplaceChar(a + b, from, to), ReplaceChar(a, from, to), ReplaceChar(b, from, to);
    forall i | 0 <= i < |r|
      ensures r[i] == (ra + rb)[i]
    {
      if i >= |a| {
        assert (a + b)[i] == b[i - |a|];
      }
    }
  }

  /** Substitution leaves a string without the replaced character alone. */
  lemma ReplaceCharAbsent(s: string, from: char, to: char)
    requires from !in s
    ensures ReplaceChar(s, from, to) == s
  {
    var r := ReplaceChar(s, from, to);
    forall i | 0 <= i < |s|
      ensures r[i] == s[i]
    {
      assert s[i] in s;
    }
  }

  /** Normalization works character by character, so it distributes over concatenation. */
  lemma NormalizeAppend(a: string, b: string)
    ensures Normalize(a + b) == Normalize(a) + Normalize(b)
  {
    RemoveCharAppend(a, b, ',');
    var x, y := RemoveChar(a, ','), RemoveChar(b, ',');
    ReplaceCharAppend(x, y, '．', '.');
    var x', y' := ReplaceChar(x, '．', '.'), ReplaceChar(y, '．', '.');
    ReplaceCharAppend(x', y', '・', '.');
  }

  /** Text that holds none of the three rewritten characters is already normal. */
  lemma NormalizeAbsent(s: string)
    requires ',' !in s && '．' !in s && '・' !in s
    ensures Normalize(s) == s
  {
    RemoveCharAbsent(s, ',');
    ReplaceCharAbsent(s, '．', '.');
    ReplaceCharAbsent(s, '・', '.');
  }

  /** Characters other than the four the rewriting touches are kept or absent alike. */
  lemma NormalizeKeeps(s: string, c: char)
    requires c != ',' && c != '．' && c != '・' && c != '.'
    ensures c in Normalize(s) <==> c in s
  {
    var x := RemoveChar(s, ',');
    var y := ReplaceChar(x, '．', '.');
    if c in x {
      var i :| 0 <= i < |x| && x[i] == c;
      assert y[i] == c;
    }
    var z := ReplaceChar(y, '・', '.');
    if c in y {
      var i :| 0 <= i < |y| && y[i] == c;
      assert z[i] == c;
    }
  }

  /**
   * The whitespace `float()` strips from both ends of its argument: the
   * ASCII characters tab, line feed, vertical tab, form feed, carriage
   * return and space, and the non-ASCII characters `str.isspace()` accepts.
   */
  predicate IsFloatSpace(c: char)
  {
    || 9 <= c as int <= 13 || c == ' '
    || c as int == 0x85 || c as int == 0xA0 || c as int == 0x1680
    || 0x2000 <= c as int <= 0x200A
    || c as int == 0x2028 || c as int == 0x2029 || c as int == 0x202F
    || c as int == 0x205F || c as int == 0x3000
  }

  predicate AllFloatSpace(s: string)
  {
    forall i | 0 <= i < |s| :: IsFloatSpace(s[i])
  }

  /** `s` without its trailing whitespace. */
  function TrimEnd(s: string): string
  {
    if |s| > 0 && IsFloatSpace(s[|s| - 1]) then TrimEnd(s[..|s| - 1]) else s
  }

  /** What is trimmed from the end is whitespace, and what is kept does not end in any. */
  lemma {:induction false} TrimEndMeaning(s: string)
    ensures var r := TrimEnd(s);
      && |r| <= |s| && r == s[..|r|]
      && (|r| > 0 ==> !IsFloatSpace(r[|r| - 1]))
      && (forall i | |r| <= i < |s| :: IsFloatSpace(s[i]))
    decreases |s|
  {
    if |s| > 0 && IsFloatSpace(s[|s| - 1]) {
      TrimEndMeaning(s[..|s| - 1]);
    }
  }

  /** `s` without its leading whitespace. */
  function TrimStart(s: string): string
  {
    if |s| > 0 && IsFloatSpace(s[0]) then TrimStart(s[1..]) else s
  }

  /** What is trimmed from the start is whitespace, and what is kept does not start with any. */
  lemma {:induction false} TrimStartMeaning(s: string)
    ensures var r := TrimStart(s);
      && |r| <= |s| && r == s[|s| - |r|..]
      && (|r| > 0 ==> !IsFloatSpace(r[0]))
      && (forall i | 0 <= i < |s| - |r| :: IsFloatSpace(s[i]))
    decreases |s|
  {
    if |s| > 0 && IsFloatSpace(s[0]) {
      TrimStartMeaning(s[1..]);
    }
  }

  /** `s` without its surrounding whitespace, which `float()` ignores. */
  function Strip(s: string): string
  {
    TrimStart(TrimEnd(s))
  }

  /** Trailing whitespace is trimmed away entirely. */
  lemma {:induction false} TrimEndSpaces(x: string, w: string)
    requires AllFloatSpace(w)
    ensures TrimEnd(x + w) == TrimEnd(x)
    decreases |w|
  {
    if w == [] {
      assert x + w == x;
    } else {
      assert (x + w)[..|x + w| - 1] == x + w[..|w| - 1];
      TrimEndSpaces(x, w[..|w| - 1]);
    }
  }

  /** Trimming the end of text that is not all whitespace keeps whatever precedes it. */
  lemma {:induction false} TrimEndPrefix(w: string, x: string)
    requires !AllFloatSpace(x)
    ensures TrimEnd(w + x) == w + TrimEnd(x)
    decreases |x|
  {
    var n := |x|;
    if IsFloatSpace(x[n - 1]) {
      var init := x[..n - 1];
      assert (w + x)[..|w + x| - 1] == w + init;
      assert !AllFloatSpace(init) by {
        var i :| 0 <= i < n && !IsFloatSpace(x[i]);
        assert init[i] == x[i];
      }
      TrimEndPrefix(w, init);
    }
  }

  /** Leading whitespace is trimmed away entirely. */
  lemma {:induction false} TrimStartSpaces(w: string, x: string)
    requires AllFloatSpace(w)
    ensures TrimStart(w + x) == TrimStart(x)
    decreases |w|
  {
    if w == [] {
      assert w + x == x;
    } else {
      assert (w + x)[1..] == w[1..] + x;
      TrimStartSpaces(w[1..], x);
    }
  }

  /** Text made only of whitespace is trimmed to nothing. */
  lemma {:induction false} TrimEndAllSpace(s: string)
    requires AllFloatSpace(s)
    ensures TrimEnd(s) == ""
    decreases |s|
  {
    if s != [] {
      TrimEndAllSpace(s[..|s| - 1]);
    }
  }

  /** Whitespace on either side never changes what is left after stripping. */
  lemma StripSurrounded(w1: string, x: string, w2: string)
    requires AllFloatSpace(w1) && AllFloatSpace(w2)
    ensures Strip(w1 + x + w2) == Strip(x)
  {
    TrimEndSpaces(w1 + x, w2);
    if AllFloatSpace(x) {
      assert AllFloatSpace(w1 + x) by {
        forall i | 0 <= i < |w1 + x|
          ensures IsFloatSpace((w1 + x)[i])
        {
          if i >= |w1| {
            assert (w1 + x)[i] == x[i - |w1|];
          }
        }
      }
      TrimEndAllSpace(w1 + x);
      TrimEndAllSpace(x);
    } else {
      TrimEndPrefix(w1, x);
      TrimStartSpaces(w1, TrimEnd(x));
    }
  }

  /** Whitespace holds none of the characters the rewriting touches. */
  lemma SpaceNotRewritten(w: string)
    requires AllFloatSpace(w)
    ensures ',' !in w && '．' !in w && '・' !in w
  {
    forall i | 0 <= i < |w|
      ensures w[i] != ',' && w[i] != '．' && w[i] != '・'
    {
      assert IsFloatSpace(w[i]);
    }
  }

  /** The rewriting passes surrounding whitespace through. */
  lemma NormalizeSurrounded(w1: string, s: string, w2: string)
    requires AllFloatSpace(w1) && AllFloatSpace(w2)
    ensures Normalize(w1 + s + w2) == w1 + Normalize(s) + w2
  {
    NormalizeAppend(w1 + s, w2);
    NormalizeAppend(w1, s);
    SpaceNotRewritten(w1);
    SpaceNotRewritten(w2);
    NormalizeAbsent(w1);
    NormalizeAbsent(w2);
  }

  /** Text without whitespace is not changed by stripping. */
  lemma StripAbsent(s: string)
    requires forall i | 0 <= i < |s| :: !IsFloatSpace(s[i])
    ensures Strip(s) == s
  {
  }

  /** The decimal digits `float()` takes: ASCII and full-width. */
  predicate IsDigit(c: char)
  {
    '0' <= c <= '9' || '０' <= c <= '９'
  }

  /** Digits and at most one '.', with at least one digit. */
  predicate IsUnsignedDecimal(s: string)
  {
    && (forall i | 0 <= i < |s| :: IsDigit(s[i]) || s[i] == '.')
    && multiset(s)['.'] <= 1
    && (exists i | 0 <= i < |s| :: IsDigit(s[i]))
  }

  /** The decimal literals `float()` accepts: an optional sign before an unsigned decimal. */
  predicate IsDecimalLiteral(s: string)
  {
    if |s| > 0 && (s[0] == '+' || s[0] == '-') then IsUnsignedDecimal(s[1..])
    else IsUnsignedDecimal(s)
  }

  /** `is_number(text)`: the rewritten text, stripped of surrounding whitespace, is a literal. */
  predicate IsNumber(text: string)
  {
    IsDecimalLiteral(Strip(Normalize(text)))
  }

  /** A comma anywhere in the text never changes the verdict. */
  lemma CommaIgnored(a: string, b: string)
    ensures IsNumber(a + "," + b) == IsNumber(a + b)
  {
    NormalizeAppend(a + ",", b);
    NormalizeAppend(a, ",");
    NormalizeAppend(a, b);
    assert Normalize(",") == "";
  }

  /** Deleting every comma beforehand never changes the verdict. */
  lemma CommasRemovedFirst(s: string)
    ensures IsNumber(RemoveChar(s, ',')) == IsNumber(s)
  {
    RemoveCharAbsent(RemoveChar(s, ','), ',');
  }

  /** The rewriting sends each of the three point glyphs to '.'. */
  lemma NormalizePoint(g: char)
    requires g == '．' || g == '・' || g == '.'
    ensures Normalize([g]) == ['.']
  {
    RemoveCharAbsent([g], ',');
    var y := ReplaceChar([g], '．', '.');
    assert y[0] == (if g == '．' then '.' else g);
    var z := ReplaceChar(y, '・', '.');
    assert z[0] == '.';
  }

  /** The full-width full stop and the middle dot are rewritten exactly like '.'. */
  lemma DotGlyphsNormalizeAlike(a: string, b: string, g: char)
    requires g == '．' || g == '・'
    ensures Normalize(a + [g] + b) == Normalize(a + "." + b)
  {
    NormalizeAppend(a + [g], b);
    NormalizeAppend(a, [g]);
    NormalizeAppend(a + ".", b);
    NormalizeAppend(a, ".");
    NormalizePoint(g);
    NormalizePoint('.');
  }

  /** The full-width full stop and the middle dot are classified exactly like '.'. */
  lemma DotGlyphsAreDecimalPoints(a: string, b: string, g: char)
    requires g == '．' || g == '・'
    ensures IsNumber(a + [g] + b) == IsNumber(a + "." + b)
  {
    DotGlyphsNormalizeAlike(a, b, g);
  }

  /** Whitespace around the text never changes the verdict. */
  lemma SurroundingWhitespaceIgnored(w1: string, s: string, w2: string)
    requires AllFloatSpace(w1) && AllFloatSpace(w2)
    ensures IsNumber(w1 + s + w2) == IsNumber(s)
  {
    NormalizeSurrounded(w1, s, w2);
    StripSurrounded(w1, Normalize(s), w2);
  }

  predicate AllDigits(s: string)
  {
    forall i | 0 <= i < |s| :: IsDigit(s[i])
  }

  /** Digits, optionally split by one point, are a decimal literal. */
  lemma DigitsAreDecimal(a: string, b: string)
    requires |a| > 0 && AllDigits(a) && AllDigits(b)
    ensures IsDecimalLiteral(a + b) && IsDecimalLiteral(a + "." + b)
  {
    assert IsDigit(a[0]);
    assert '.' !in a && '.' !in b;
    assert multiset(a + b) == multiset(a) + multiset(b);
    assert multiset(a + "." + b) == multiset(a) + multiset(".") + multiset(b);
    assert (a + b)[0] == a[0] && (a + "." + b)[0] == a[0];
  }

  /** Text free of whitespace and of the three rewritten characters is judged by the grammar directly. */
  lemma NormalTextVerdict(s: string)
    requires ',' !in s && '．' !in s && '・' !in s
    requires forall i | 0 <= i < |s| :: !IsFloatSpace(s[i])
    ensures IsNumber(s) == IsDecimalLiteral(s)
  {
    NormalizeAbsent(s);
    StripAbsent(s);
  }

  /** Digits, optionally split by one point, are classified as numeric. */
  lemma DigitsAreNumbers(a: string, b: string)
    requires |a| > 0 && AllDigits(a) && AllDigits(b)
    ensures IsNumber(a + b) && IsNumber(a + "." + b)
  {
    DigitsAreDecimal(a, b);
    NormalTextVerdict(a + b);
    NormalTextVerdict(a + "." + b);
  }

  /** Empty text is not a number. */
  lemma EmptyExample()
    ensures !IsNumber("")
  {
    NormalizeAbsent("");
  }

  /** A lone decimal point is not a number. */
  lemma PointExample()
    ensures !IsNumber(".")
  {
    NormalizeAbsent(".");
    assert !IsDigit("."[0]);
  }

  /** A lone comma is not a number: it is empty once the comma is gone. */
  lemma CommaExample()
    ensures !IsNumber(",")
  {
    CommaIgnored("", "");
    NormalizeAbsent("");
  }

  /** Kana is not a number. */
  lemma KanaExample()
    ensures !IsNumber("ます")
  {
    NormalizeAbsent("ます");
  }

  /** A plain decimal is a number. */
  lemma DecimalExample(text: string)
    requires text == "15.00"
    ensures IsNumber(text)
  {
    var whole, frac := text[..2], text[3..];
    assert text == whole + "." + frac;
    assert AllDigits(whole) && AllDigits(frac);
    DigitsAreNumbers(whole, frac);
  }

  /** A number with a leading space is a number: `float()` strips the space. */
  lemma SpacedNumberExample(text: string)
    requires text == " 15"
    ensures IsNumber(text)
  {
    var digits := text[1..];
    assert text == [text[0]] + digits + "";
    assert AllDigits(digits);
    DigitsAreNumbers(digits, "");
    assert digits + "" == digits;
    SurroundingWhitespaceIgnored([text[0]], digits, "");
  }

  /** A space between digits is not stripped, so the text is not a number. */
  lemma InnerSpaceExample(text: string)
    requires text == "1 5"
    ensures !IsNumber(text)
  {
    NormalizeAbsent(text);
    assert TrimEnd(text) == text;
    assert TrimStart(text) == text;
    assert !IsDigit(text[1]) && text[1] != '.';
  }

  /** A thousands-separated integer is a number. */
  lemma ThousandsExample(text: string)
    requires text == "1,000"
    ensures IsNumber(text)
  {
    var thousands, units := text[..1], text[2..];
    assert text == thousands + "," + units;
    assert AllDigits(thousands) && AllDigits(units);
    DigitsAreNumbers(thousands, units);
    CommaIgnored(thousands, units);
  }

  /** A full-width decimal written with a middle dot is a number. */
  lemma FullWidthExample(text: string)
    requires text == "１５・００"
    ensures IsNumber(text)
  {
    var whole, frac := text[..2], text[3..];
    assert text == whole + [text[2]] + frac;
    assert AllDigits(whole) && AllDigits(frac);
    DigitsAreNumbers(whole, frac);
    DotGlyphsAreDecimalPoints(whole, frac, text[2]);
  }
}
