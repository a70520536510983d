/**
 * The request-side helpers of the translate-and-analyze endpoint: forcing
 * the request text to a string, and detecting text typed in romaji so it
 * can be turned into kana first.
 */
module Endpoint {

  /** A request value: a string, or some other object known only by its identity. */
  datatype PyValue = PyStr(s: string) | PyObject(id: nat)

  /**
   * `convert_to_string(text)`, with `str` the built-in conversion, whose
   * behaviour on objects belongs to their classes. Whatever that
   * conversion does, a string comes back exactly as given.
   */
  function ConvertToString(v: PyValue, str: PyValue -> string): (r: string)
    ensures v.PyStr? ==> r == v.s
  {
    if !v.PyStr? then str(v) else v.s
  }

  /**
   * Since the built-in `str` returns a string unchanged, `convert_to_string`
   * is that conversion on every value; the test for a string only skips it.
   */
  lemma ConvertToStringIsStr(v: PyValue, str: PyValue -> string)
    requires forall s: string :: str(PyStr(s)) == s
    ensures ConvertToString(v, str) == str(v)
  {
    if v.PyStr? {
      assert str(PyStr(v.s)) == v.s;
    }
  }

  /** `c.isalnum()` for an ASCII character: a Latin letter or a decimal digit. */
  predicate IsAsciiAlnum(c: char)
  {
    'a' <= c <= 'z' || 'A' <= c <= 'Z' || '0' <= c <= '9'
  }

  /**
   * `c.isspace()` for an ASCII character: tab, line feed, vertical tab,
   * form feed, carriage return, the four separators 0x1C-0x1F and space.
   */
  predicate IsAsciiSpace(c: char)
  {
    9 <= c as int <= 13 || 28 <= c as int <= 32
  }

  /** `ord(c) < 128 and (c.isalnum() or c.isspace())`. */
  predicate IsRomajiChar(c: char)
  {
    c as int < 128 && (IsAsciiAlnum(c) || IsAsciiSpace(c))
  }

  /** The `is_romaji` test: every character passes, so empty text passes. */
  predicate IsRomaji(text: string)
  {
    forall i | 0 <= i < |text| :: IsRomajiChar(text[i])
  }

  /** Text is romaji exactly when both of its halves are. */
  lemma IsRomajiAppend(a: string, b: string)
    ensures IsRomaji(a + b) <==> IsRomaji(a) && IsRomaji(b)
  {
    if IsRomaji(a + b) {
      forall i | 0 <= i < |a|
        ensures IsRomajiChar(a[i])
      {
        assert (a + b)[i] == a[i];
      }
      forall i | 0 <= i < |b|
        ensures IsRomajiChar(b[i])
      {
        assert (a + b)[|a| + i] == b[i];
      }
    }
    if IsRomaji(a) && IsRomaji(b) {
      forall i | 0 <= i < |a + b|
        ensures IsRomajiChar((a + b)[i])
      {
        if i >= |a| {
          assert (a + b)[i] == b[i - |a|];
        }
      }
    }
  }

  /** Any character outside ASCII, kana, kanji or full-width letters alike, makes text non-romaji. */
  lemma NonAsciiIsNotRomaji(text: string, i: nat)
    requires i < |text| && text[i] as int >= 128
    ensures !IsRomaji(text)
  {
  }

  /** Concrete verdicts: empty text, a romaji phrase, kana, punctuation, full-width letters. */
  lemma IsRomajiExamples()
    ensures IsRomaji("")
    ensures IsRomaji("konnichiwa sekai")
    ensures !IsRomaji("こんにちは")
    ensures !IsRomaji("hello, world")
    ensures !IsRomaji("ａｂｃ")
  {
    assert !IsRomajiChar("こんにちは"[0]);
    assert !IsRomajiChar("hello, world"[5]);
    assert !IsRomajiChar("ａｂｃ"[0]);
  }

  /**
   * The Japanese text taken for a Japanese source: romaji input goes
   * through `alphabet2kana`, anything else is used as it is.
   */
  function KanaInput(text: string, alphabetToKana: string -> string): string
  {
    if IsRomaji(text) then alphabetToKana(text) else text
  }

  /** Text made only of ASCII letters, digits and whitespace is converted to kana. */
  lemma RomajiInputConverted(text: string, alphabetToKana: string -> string)
    requires forall i | 0 <= i < |text| :: IsAsciiAlnum(text[i]) || IsAsciiSpace(text[i])
    ensures KanaInput(text, alphabetToKana) == alphabetToKana(text)
  {
  }

  /** Text holding any non-ASCII character reaches the analysis unconverted. */
  lemma JapaneseInputUnconverted(text: string, alphabetToKana: string -> string, i: nat)
    requires i < |text| && text[i] as int >= 128
    ensures KanaInput(text, alphabetToKana) == text
  {
    NonAsciiIsNotRomaji(text, i);
  }

  /** Text holding ASCII punctuation or a control character is unconverted too. */
  lemma PunctuatedInputUnconverted(text: string, alphabetToKana: string -> string, i: nat)
    requires i < |text| && !IsAsciiAlnum(text[i]) && !IsAsciiSpace(text[i])
    ensures KanaInput(text, alphabetToKana) == text
  {
    assert !IsRomajiChar(text[i]);
  }
}
