/**
 * The breakdown assembler of the translate-and-analyze endpoint: one
 * record per token (surface, hiragana reading, romanization), numeric
 * tokens passed through without reading, and the per-token romanizations
 * joined with single spaces.
 */
module Breakdown {
  import opened Text
  import opened Tokens
  import opened Numeric

  /** One record of `breakdown`. */
  datatype Entry = Entry(surface: string, furigana: string, romaji: string)

  /**
   * What the loop appends to `romaji_list` for one token: the raw surface
   * of a numeric token, otherwise the romanization of its hiragana reading.
   */
  function RomajiPart(t: Token, kataToHira: string -> string, kanaToAlphabet: string -> string): string
  {
    if IsNumber(t.surface) then t.surface else kanaToAlphabet(kataToHira(t.reading))
  }

  /** The record the loop appends to `breakdown` for one token. */
  function Annotate(t: Token, kataToHira: string -> string, kanaToAlphabet: string -> string): Entry
  {
    if IsNumber(t.surface) then Entry(t.surface, "", "")
    else var hira := kataToHira(t.reading); Entry(t.surface, hira, kanaToAlphabet(hira))
  }

  /** The `breakdown` list for a token sequence. */
  function Annotations(ts: seq<Token>, kataToHira: string -> string, kanaToAlphabet: string -> string): (r: seq<Entry>)
    ensures |r| == |ts|
  {
    if ts == [] then []
    else Annotations(ts[..|ts| - 1], kataToHira, kanaToAlphabet) + [Annotate(ts[|ts| - 1], kataToHira, kanaToAlphabet)]
  }

  /** The `romaji_list` for a token sequence. */
  function RomajiList(ts: seq<Token>, kataToHira: string -> string, kanaToAlphabet: string -> string): (r: seq<string>)
    ensures |r| == |ts|
  {
    if ts == [] then []
    else RomajiList(ts[..|ts| - 1], kataToHira, kanaToAlphabet) + [RomajiPart(ts[|ts| - 1], kataToHira, kanaToAlphabet)]
  }

  /** The i-th record and list item belong to the i-th token. */
  lemma {:induction false} AnnotationsAt(ts: seq<Token>, kataToHira: string -> string, kanaToAlphabet: string -> string, i: nat)
    requires i < |ts|
    ensures Annotations(ts, kataToHira, kanaToAlphabet)[i] == Annotate(ts[i], kataToHira, kanaToAlphabet)
    ensures RomajiList(ts, kataToHira, kanaToAlphabet)[i] == RomajiPart(ts[i], kataToHira, kanaToAlphabet)
    decreases |ts|
  {
    if i < |ts| - 1 {
      AnnotationsAt(ts[..|ts| - 1], kataToHira, kanaToAlphabet, i);
    }
  }

  function EntrySurfaces(entries: seq<Entry>): seq<string>
  {
    seq(|entries|, i requires 0 <= i < |entries| => entries[i].surface)
  }

  /**
   * The loop over the tokens of `japaneseText` that builds `breakdown` and
   * `romaji_list`, followed by `" ".join(romaji_list)`.
   */
  method AssembleBreakdown(japaneseText: string, tokenize: string -> seq<Token>,
                           kataToHira: string -> string, kanaToAlphabet: string -> string)
    returns (breakdown: seq<Entry>, romajiOutput: string)
    ensures breakdown == Annotations(tokenize(japaneseText), kataToHira, kanaToAlphabet)
    ensures romajiOutput == JoinSpace(RomajiList(tokenize(japaneseText), kataToHira, kanaToAlphabet))
  {
    var tokens := tokenize(japaneseText);
    var romajiList: seq<string> := [];
    breakdown := [];
    var i := 0;
    while i < |tokens|
      invariant 0 <= i <= |tokens|
      invariant breakdown == Annotations(tokens[..i], kataToHira, kanaToAlphabet)
      invariant romajiList == RomajiList(tokens[..i], kataToHira, kanaToAlphabet)
    {
      assert tokens[..i + 1][..i] == tokens[..i];
      var surface := tokens[i].surface;
      if IsNumber(surface) {
        breakdown := breakdown + [Entry(surface, "", "")];
        romajiList := romajiList + [surface];
      } else {
        var reading := tokens[i].reading;
        var hira := kataToHira(reading);
        var romaji := kanaToAlphabet(hira);
        breakdown := breakdown + [Entry(surface, hira, romaji)];
        romajiList := romajiList + [romaji];
      }
      i := i + 1;
    }
    assert tokens[..i] == tokens;
    romajiOutput := JoinSpace(romajiList);
  }

  /**
   * One record per token, in token order: each keeps its token's surface;
   * a numeric token gets empty furigana and romaji, any other token the
   * hiragana of its reading and the romanization of that hiragana.
   */
  lemma BreakdownEntries(ts: seq<Token>, kataToHira: string -> string, kanaToAlphabet: string -> string, i: nat)
    requires i < |ts|
    ensures var e := Annotations(ts, kataToHira, kanaToAlphabet)[i];
      && e.surface == ts[i].surface
      && (IsNumber(ts[i].surface) ==> e.furigana == "" && e.romaji == "")
      && (!IsNumber(ts[i].surface) ==> e.furigana == kataToHira(ts[i].reading) && e.romaji == kanaToAlphabet(e.furigana))
  {
    AnnotationsAt(ts, kataToHira, kanaToAlphabet, i);
  }

  /**
   * The i-th item of `romaji_list` is the raw surface for a numeric token
   * (not its empty romaji field) and the record's romaji otherwise.
   */
  lemma RomajiListItems(ts: seq<Token>, kataToHira: string -> string, kanaToAlphabet: string -> string, i: nat)
    requires i < |ts|
    ensures var e := Annotations(ts, kataToHira, kanaToAlphabet)[i];
      RomajiList(ts, kataToHira, kanaToAlphabet)[i] == if IsNumber(ts[i].surface) then ts[i].surface else e.romaji
  {
    AnnotationsAt(ts, kataToHira, kanaToAlphabet, i);
  }

  /**
   * The breakdown's surfaces, concatenated, give back the analyzed text
   * when the tokenizer cut it into contiguous spans.
   */
  lemma BreakdownSpellsText(text: string, ts: seq<Token>, kataToHira: string -> string, kanaToAlphabet: string -> string)
    requires Contiguous(text, ts)
    ensures Concat(EntrySurfaces(Annotations(ts, kataToHira, kanaToAlphabet))) == text
  {
    var breakdown := Annotations(ts, kataToHira, kanaToAlphabet);
    forall i | 0 <= i < |ts|
      ensures breakdown[i].surface == ts[i].surface
    {
      BreakdownEntries(ts, kataToHira, kanaToAlphabet, i);
    }
    assert EntrySurfaces(breakdown) == Surfaces(ts);
  }

  /**
   * The romanized output splits back, at its spaces, into one piece per
   * token, provided no item of `romaji_list` holds a space: neither the
   * romanization of a non-numeric token nor the surface of a numeric one.
   * The second premise is one on the tokenizer: `is_number` accepts a
   * surface with surrounding whitespace (see `SpacedNumberBreaksSplit`).
   */
  lemma RomajiOutputSplitsPerToken(ts: seq<Token>, kataToHira: string -> string, kanaToAlphabet: string -> string)
    requires |ts| >= 1
    requires forall i | 0 <= i < |ts| && !IsNumber(ts[i].surface) :: NoSpace(kanaToAlphabet(kataToHira(ts[i].reading)))
    requires forall i | 0 <= i < |ts| && IsNumber(ts[i].surface) :: NoSpace(ts[i].surface)
    ensures SplitSpace(JoinSpace(RomajiList(ts, kataToHira, kanaToAlphabet))) == RomajiList(ts, kataToHira, kanaToAlphabet)
  {
    RomajiListHasNoSpace(ts, kataToHira, kanaToAlphabet);
    SplitJoin(RomajiList(ts, kataToHira, kanaToAlphabet));
  }

  /** No item of `romaji_list` holds a space when no romanization and no numeric surface does. */
  lemma {:induction false} RomajiListHasNoSpace(ts: seq<Token>, kataToHira: string -> string, kanaToAlphabet: string -> string)
    requires forall i | 0 <= i < |ts| && !IsNumber(ts[i].surface) :: NoSpace(kanaToAlphabet(kataToHira(ts[i].reading)))
    requires forall i | 0 <= i < |ts| && IsNumber(ts[i].surface) :: NoSpace(ts[i].surface)
    ensures forall i | 0 <= i < |ts| :: NoSpace(RomajiList(ts, kataToHira, kanaToAlphabet)[i])
    decreases |ts|
  {
    if ts != [] {
      var init := ts[..|ts| - 1];
      assert forall i | 0 <= i < |init| :: init[i] == ts[i];
      RomajiListHasNoSpace(init, kataToHira, kanaToAlphabet);
      assert NoSpace(RomajiPart(ts[|ts| - 1], kataToHira, kanaToAlphabet));
    }
  }

  /**
   * A numeric surface with a leading space, which `is_number` accepts, is
   * pushed raw, so splitting the output at its spaces gives an extra empty
   * piece: the split is not the inverse of the join for such a token.
   */
  lemma SpacedNumberBreaksSplit(t: Token, kataToHira: string -> string, kanaToAlphabet: string -> string)
    requires t.surface == " 15"
    ensures JoinSpace(RomajiList([t], kataToHira, kanaToAlphabet)) == t.surface
    ensures SplitSpace(JoinSpace(RomajiList([t], kataToHira, kanaToAlphabet))) == ["", t.surface[1..]]
    ensures SplitSpace(JoinSpace(RomajiList([t], kataToHira, kanaToAlphabet))) != RomajiList([t], kataToHira, kanaToAlphabet)
  {
    SpacedNumberExample(t.surface);
    var s := t.surface;
    assert LastSpace(s[..1]) == 0;
    assert LastSpace(s[..2]) == 0;
    assert LastSpace(s) == 0;
    assert s[..0] == "";
  }

  /**
   * With no tokens the output is empty, and splitting the empty line gives
   * one empty piece: the round trip needs at least one token.
   */
  lemma NoTokensBreaksSplit(kataToHira: string -> string, kanaToAlphabet: string -> string)
    ensures JoinSpace(RomajiList([], kataToHira, kanaToAlphabet)) == ""
    ensures SplitSpace(JoinSpace(RomajiList([], kataToHira, kanaToAlphabet))) == [""]
    ensures SplitSpace(JoinSpace(RomajiList([], kataToHira, kanaToAlphabet))) != RomajiList([], kataToHira, kanaToAlphabet)
  {
    assert LastSpace("") == -1;
  }

  /**
   * A single kana token: its entry carries the hiragana reading and its
   * romanization, and the joined output is that romanization alone.
   */
  lemma SingleWordExample(t: Token, kataToHira: string -> string, kanaToAlphabet: string -> string)
    requires !IsNumber(t.surface)
    ensures JoinSpace(RomajiList([t], kataToHira, kanaToAlphabet)) == kanaToAlphabet(kataToHira(t.reading))
  {
  }
}
