/**
 * The polite-form rewriter `force_teinei_form`: every verb whose surface
 * ends in る has that character replaced by ます, and all surfaces are
 * concatenated back into one text.
 */
module Teinei {
  import opened Text
  import opened Tokens

  /** The part-of-speech discriminator the tokenizer gives verbs. */
  const Verb: string := "動詞"

  predicate EndsWithRu(s: string)
  {
    |s| > 0 && s[|s| - 1] == 'る'
  }

  /** A token the rewriter changes: a verb whose surface ends in る. */
  predicate IsRuVerb(t: Token)
  {
    t.pos0 == Verb && EndsWithRu(t.surface)
  }

  /**
   * The surface the loop appends for one token, with both branches as
   * written. The second branch, for する and くる, can never be taken:
   * both words end in る, so the first branch has already matched them.
   */
  function PoliteSurface(t: Token): (r: string)
    ensures IsRuVerb(t) ==> |r| == |t.surface| + 1
    ensures IsRuVerb(t) ==> r[..|t.surface| - 1] == t.surface[..|t.surface| - 1] && r[|t.surface| - 1..] == "ます"
    ensures !IsRuVerb(t) ==> r == t.surface
  {
    var surface := t.surface;
    if t.pos0 == Verb then
      if EndsWithRu(surface) then surface[..|surface| - 1] + "ます"
      else if surface == "する" then "します"
      else if surface == "くる" then "きます"
      else surface
    else surface
  }

  function PoliteSurfaces(ts: seq<Token>): seq<string>
  {
    seq(|ts|, i requires 0 <= i < |ts| => PoliteSurface(ts[i]))
  }

  /** The text `force_teinei_form` returns for a token sequence. */
  function PoliteText(ts: seq<Token>): string
  {
    Concat(PoliteSurfaces(ts))
  }

  /** How many tokens the rewriter changes. */
  function RuVerbCount(ts: seq<Token>): nat
  {
    if ts == [] then 0
    else RuVerbCount(ts[..|ts| - 1]) + (if IsRuVerb(ts[|ts| - 1]) then 1 else 0)
  }

  /**
   * `force_teinei_form(japanese_text)`: tokenize, rewrite each verb surface
   * in a loop that appends to `converted`, and join the list.
   */
  method ForceTeineiForm(japaneseText: string, tokenize: string -> seq<Token>) returns (text: string)
    ensures text == PoliteText(tokenize(japaneseText))
  {
    var tokens := tokenize(japaneseText);
    var converted: seq<string> := [];
    var i := 0;
    while i < |tokens|
      invariant 0 <= i <= |tokens|
      invariant converted == PoliteSurfaces(tokens[..i])
    {
      var token := tokens[i];
      var surface := token.surface;
      if token.pos0 == Verb {
        if EndsWithRu(surface) {
          surface := surface[..|surface| - 1] + "ます";
        } else if surface == "する" || surface == "くる" {
          surface := if surface == "する" then "します" else "きます";
        }
      }
      converted := converted + [surface];
      i := i + 1;
    }
    assert tokens[..i] == tokens;
    text := Concat(converted);
  }

  /** The branch for する and くる is dead: both already end in る. */
  lemma SuruKuruBranchUnreachable(s: string)
    requires s == "する" || s == "くる"
    ensures EndsWithRu(s)
  {
  }

  /** As written, verb する becomes すます and verb くる becomes くます. */
  lemma SuruKuruRewrittenByRuRule(reading: string)
    ensures PoliteSurface(Token("する", Verb, reading)) == "すます"
    ensures PoliteSurface(Token("くる", Verb, reading)) == "くます"
  {
  }

  /** 食べる as a verb becomes 食べます; 猫 as a noun is left alone. */
  lemma TaberuAndNekoExamples(reading: string, noun: string)
    requires noun != Verb
    ensures PoliteSurface(Token("食べる", Verb, reading)) == "食べます"
    ensures PoliteSurface(Token("猫", noun, reading)) == "猫"
  {
  }

  /** The rewritten text of a sequence is the rewritten texts of its parts, in order. */
  lemma PoliteTextAppend(a: seq<Token>, b: seq<Token>)
    ensures PoliteText(a + b) == PoliteText(a) + PoliteText(b)
  {
    assert PoliteSurfaces(a + b) == PoliteSurfaces(a) + PoliteSurfaces(b);
    ConcatAppend(PoliteSurfaces(a), PoliteSurfaces(b));
  }

  /** Each rewritten verb adds exactly one character to the text. */
  lemma {:induction false} PoliteTextLength(ts: seq<Token>)
    ensures |PoliteText(ts)| == |Concat(Surfaces(ts))| + RuVerbCount(ts)
    decreases |ts|
  {
    if ts != [] {
      var init, last := ts[..|ts| - 1], ts[|ts| - 1];
      assert PoliteSurfaces(ts) == PoliteSurfaces(init) + [PoliteSurface(last)];
      assert Surfaces(ts) == Surfaces(init) + [last.surface];
      ConcatAppend(PoliteSurfaces(init), [PoliteSurface(last)]);
      ConcatAppend(Surfaces(init), [last.surface]);
      assert Concat([PoliteSurface(last)]) == PoliteSurface(last);
      assert Concat([last.surface]) == last.surface;
      PoliteTextLength(init);
    }
  }

  /** The text comes back unchanged exactly when no token is a verb ending in る. */
  lemma PoliteTextUnchanged(ts: seq<Token>)
    ensures PoliteText(ts) == Concat(Surfaces(ts)) <==> RuVerbCount(ts) == 0
  {
    PoliteTextLength(ts);
    if RuVerbCount(ts) == 0 {
      NoRuVerbs(ts);
      assert PoliteSurfaces(ts) == Surfaces(ts);
    }
  }

  /** With no verb ending in る, no token is a verb ending in る. */
  lemma {:induction false} NoRuVerbs(ts: seq<Token>)
    requires RuVerbCount(ts) == 0
    ensures forall i | 0 <= i < |ts| :: !IsRuVerb(ts[i])
    decreases |ts|
  {
    if ts != [] {
      NoRuVerbs(ts[..|ts| - 1]);
      assert forall i | 0 <= i < |ts| - 1 :: ts[i] == ts[..|ts| - 1][i];
    }
  }

  /** On a tokenization of `text`, the result is `text` lengthened by one per rewritten verb. */
  lemma PoliteTextOfTokenizedText(text: string, ts: seq<Token>)
    requires Contiguous(text, ts)
    ensures |PoliteText(ts)| == |text| + RuVerbCount(ts)
    ensures PoliteText(ts) == text <==> RuVerbCount(ts) == 0
  {
    PoliteTextLength(ts);
    PoliteTextUnchanged(ts);
  }

  /**
   * Rewriting is idempotent token by token: a rewritten surface, tagged as
   * before, is left alone by a second pass (it ends in す, not る).
   */
  lemma PoliteSurfaceIdempotent(t: Token, reading: string)
    ensures PoliteSurface(Token(PoliteSurface(t), t.pos0, reading)) == PoliteSurface(t)
  {
    var r := PoliteSurface(t);
    if IsRuVerb(t) {
      assert r[|r| - 1] == "ます"[1];
    }
  }

  /** Re-running the rewriter over its own output, split at the same boundaries, changes nothing. */
  lemma PoliteTextIdempotent(ts: seq<Token>, again: seq<Token>)
    requires |again| == |ts|
    requires forall i | 0 <= i < |ts| :: again[i].surface == PoliteSurface(ts[i]) && again[i].pos0 == ts[i].pos0
    ensures PoliteText(again) == PoliteText(ts)
  {
    forall i | 0 <= i < |ts|
      ensures PoliteSurface(again[i]) == PoliteSurface(ts[i])
    {
      PoliteSurfaceIdempotent(ts[i], again[i].reading);
      assert again[i] == Token(PoliteSurface(ts[i]), ts[i].pos0, again[i].reading);
    }
    assert PoliteSurfaces(again) == PoliteSurfaces(ts);
  }
}
