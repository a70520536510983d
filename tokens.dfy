/** The morphemes the external tokenizer hands to the pipeline. */
module Tokens {
  import opened Text

  /**
   * One morpheme: its literal surface span, the first field of its
   * part-of-speech tuple (the only field the pipeline inspects) and its
   * katakana reading form.
   */
  datatype Token = Token(surface: string, pos0: string, reading: string)

  function Surfaces(ts: seq<Token>): seq<string>
  {
    seq(|ts|, i requires 0 <= i < |ts| => ts[i].surface)
  }

  /** The tokenizer's guarantee: the surfaces, in order, spell out the text. */
  predicate Contiguous(text: string, ts: seq<Token>)
  {
    Concat(Surfaces(ts)) == text
  }
}
