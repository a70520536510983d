# Token post-processing of the TransAPI translate-and-analyze service

TransAPI translates text to and from Japanese. It then returns a
per-token reading of the Japanese side. This project models and proves
the self-contained logic of `main.py` that sits between the Sudachi
tokenizer and the jaconv kana converters:

- **Polite-form rewriter** (`force_teinei_form`, module `Teinei`). Every
  verb token whose surface ends in る has that character replaced by ます.
  All surfaces are concatenated back into one text. The method
  `ForceTeineiForm` keeps the source's loop, which appends to `converted`.
  It is proved equal to the specification function `PoliteText`. The
  lemmas about `PoliteText` cover:
  - how it grows the text (one character per rewritten verb)
  - when it leaves the text unchanged
  - that it is idempotent when the text is re-cut with the same token
    boundaries and the same part-of-speech tags
- **Numeric classifier** (`is_number`, module `Numeric`). Commas are
  deleted, and `．` and `・` become `.`, as string functions. Python's
  `float()` acceptance is modelled as a decimal-literal grammar: an
  optional sign, ASCII or full-width digits, at most one `.`, and at least
  one digit, after the surrounding whitespace that `float()` strips.
  Lemmas show:
  - a comma never changes the verdict
  - both point glyphs behave exactly like `.`
  - surrounding whitespace never changes the verdict
  - concrete verdicts for `""`, `"."`, `","`, `"ます"`, `"1 5"`, `"15.00"`,
    `"1,000"`, `"１５・００"` and `" 15"`
- **Breakdown assembler** (the loop of `translate_and_analyze`, module
  `Breakdown`). It produces one record per token, and `romaji_list` is
  joined with single spaces. The method `AssembleBreakdown` keeps the
  source's loop and is proved equal to the specification functions
  `Annotations` and `RomajiList`. The lemmas give each record's meaning.
  They also show that the records spell the analyzed text back when the
  tokenizer cut it contiguously, and that the romanized line splits back
  into one piece per token when there is at least one token and no piece
  holds a space. With no tokens the line is empty and splits into one
  empty piece. A numeric surface
  with a leading space, such as `" 15"`, is accepted by `is_number` and
  breaks that round trip.
- **Request helpers** (module `Endpoint`):
  - `convert_to_string`
  - the romaji-input test `is_romaji`
  - the choice between `alphabet2kana(text)` and `text` for a Japanese
    source

Module `Text` holds `"".join`, `" ".join` and `str.split(" ")`, with the
split/join round trip. Module `Tokens` holds the token record handed over
by the tokenizer: its surface, the first part-of-speech field and its
reading form.

The branch for する and くる at main.py:48-49 is meant to produce します
and きます, but it is unreachable. Both words end in る, so the branch
before it (main.py:46-47) has always matched them already. The model
follows the code: verb する becomes すます and verb くる becomes くます
(`Teinei.SuruKuruRewrittenByRuRule`). The dead branch stays in the
method as written.

The tokenizer and jaconv's `kata2hira`, `kana2alphabet` and
`alphabet2kana` are taken as function parameters. The lemmas hold for
every such function.

## Model

| member | source | states |
|---|---|---|
| Teinei.PoliteSurface | main.py:43-50 | A verb whose surface ends in る keeps all but its last character, then ends in ます, one character longer. Every other token's surface is copied unchanged. |
| Teinei.ForceTeineiForm | main.py:39-51 | The loop's joined result is the in-order concatenation of the rewritten surfaces of the tokenized input (`PoliteText`). |
| Teinei.SuruKuruBranchUnreachable | main.py:46-49 | する and くる both end in る, so the branch written for them is never reached. |
| Teinei.SuruKuruRewrittenByRuRule | main.py:45-49 | Verb する is rewritten to すます and verb くる to くます, not します/きます. |
| Teinei.TaberuAndNekoExamples | main.py:45-50 | Verb 食べる becomes 食べます; a non-verb such as 猫 is unchanged. |
| Teinei.PoliteTextAppend | main.py:42-51 | Rewriting a token sequence equals rewriting its two parts and concatenating the results. |
| Teinei.PoliteTextLength | main.py:42-51 | The result is longer than the concatenated surfaces by exactly the number of verbs ending in る. |
| Teinei.PoliteTextUnchanged | main.py:42-51 | The result equals the concatenated surfaces if and only if no token is a verb ending in る. |
| Teinei.NoRuVerbs | main.py:45-46 | A zero count of rewritten verbs means no token is a verb ending in る. |
| Teinei.PoliteTextOfTokenizedText | main.py:39-51 | For a contiguous tokenization of the text, the result is the text lengthened by one per rewritten verb. It is the text itself if and only if there is none. |
| Teinei.PoliteSurfaceIdempotent | main.py:45-47 | A rewritten surface, tagged as before, is left alone by a second rewrite. |
| Teinei.PoliteTextIdempotent | main.py:39-51 | Rewriting the output again, cut at the same token boundaries with the same part-of-speech tags, gives the same text. |
| Text.ConcatAppend | main.py:51 | `"".join` of two lists in sequence is the join of each, concatenated. |
| Text.SplitJoin | main.py:115 | Splitting a space-joined non-empty list of space-free parts at its spaces gives back the list. |
| Numeric.RemoveChar | main.py:60 | After `replace(",", "")` no comma is left, and every other character is present exactly when it was before. |
| Numeric.RemoveCharAppend | main.py:60 | Deleting a character distributes over concatenation. |
| Numeric.RemoveCharAbsent | main.py:60 | Deleting a character that does not occur leaves the text unchanged. |
| Numeric.ReplaceChar | main.py:60 | Replacing one character by another keeps the length and substitutes position by position. |
| Numeric.ReplaceCharAppend | main.py:60 | Substitution distributes over concatenation. |
| Numeric.ReplaceCharAbsent | main.py:60 | Substitution leaves text without the replaced character unchanged. |
| Numeric.Normalize | main.py:60 | After the three replacements, no comma, `．` or `・` remains. |
| Numeric.NormalizeAppend | main.py:60 | The rewriting distributes over concatenation. |
| Numeric.NormalizeAbsent | main.py:60 | Text with no comma, `．` or `・` is not changed by the rewriting. |
| Numeric.NormalizeKeeps | main.py:60 | Any character other than `,`, `．`, `・` and `.` is present after the rewriting exactly when it was before. |
| Numeric.TrimEndMeaning | main.py:60 | Trimming the end removes only whitespace, and what is kept is a prefix not ending in whitespace. |
| Numeric.TrimStartMeaning | main.py:60 | Trimming the start removes only whitespace, and what is kept is a suffix not starting with whitespace. |
| Numeric.TrimEndSpaces | main.py:60 | Trailing whitespace is removed entirely. |
| Numeric.TrimEndPrefix | main.py:60 | Trimming the end of text that is not all whitespace keeps whatever precedes it. |
| Numeric.TrimStartSpaces | main.py:60 | Leading whitespace is removed entirely. |
| Numeric.TrimEndAllSpace | main.py:60 | Text made only of whitespace is trimmed to nothing. |
| Numeric.StripSurrounded | main.py:60 | Whitespace added on either side never changes what `float()` parses after stripping. |
| Numeric.StripAbsent | main.py:60 | Text without whitespace is parsed as it is. |
| Numeric.SpaceNotRewritten | main.py:60 | Whitespace holds no comma, `．` or `・`. |
| Numeric.NormalizeSurrounded | main.py:60 | The rewriting passes surrounding whitespace through unchanged. |
| Numeric.SurroundingWhitespaceIgnored | main.py:58-63 | Whitespace around the text never changes the `is_number` verdict. |
| Numeric.CommaIgnored | main.py:58-63 | Inserting a comma anywhere never changes the `is_number` verdict. |
| Numeric.CommasRemovedFirst | main.py:58-63 | Deleting every comma beforehand never changes the verdict. |
| Numeric.NormalizePoint | main.py:60 | Each of `．`, `・` and `.` is rewritten to `.`. |
| Numeric.DotGlyphsNormalizeAlike | main.py:60 | Text with `．` or `・` in some position is rewritten exactly as if it had `.` there. |
| Numeric.DotGlyphsAreDecimalPoints | main.py:58-63 | `．` and `・` are classified exactly like `.` in the same position. |
| Numeric.DigitsAreDecimal | main.py:60 | A non-empty run of digits, optionally followed by a point and more digits, is a decimal literal. |
| Numeric.NormalTextVerdict | main.py:58-63 | For text with no whitespace, comma, `．` or `・`, the verdict is the literal grammar's verdict on the text itself. |
| Numeric.DigitsAreNumbers | main.py:58-63 | ASCII or full-width digit runs, with or without one point between them, are numeric. |
| Numeric.EmptyExample | main.py:58-63 | `""` is not numeric. |
| Numeric.PointExample | main.py:58-63 | `"."` is not numeric. |
| Numeric.CommaExample | main.py:58-63 | `","` is not numeric: it is empty once the comma is deleted. |
| Numeric.KanaExample | main.py:58-63 | `"ます"` is not numeric. |
| Numeric.InnerSpaceExample | main.py:58-63 | `"1 5"` is not numeric: only surrounding whitespace is stripped. |
| Numeric.SpacedNumberExample | main.py:58-63 | `" 15"` is numeric. |
| Numeric.DecimalExample | main.py:58-63 | `"15.00"` is numeric. |
| Numeric.ThousandsExample | main.py:58-63 | `"1,000"` is numeric. |
| Numeric.FullWidthExample | main.py:58-63 | `"１５・００"` is numeric. |
| Breakdown.Annotations | main.py:95-113 | The breakdown has exactly one record per token. |
| Breakdown.RomajiList | main.py:95-113 | `romaji_list` has exactly one item per token. |
| Breakdown.AnnotationsAt | main.py:95-113 | The i-th record and the i-th `romaji_list` item are those built from the i-th token. |
| Breakdown.AssembleBreakdown | main.py:92-115 | The loop's `breakdown` is the per-token records in token order. Its `romaji_output` is the per-token romanizations joined by single spaces. |
| Breakdown.BreakdownEntries | main.py:96-112 | Each record keeps its token's surface. A numeric token has empty furigana and romaji. Any other token has the hiragana of its reading and the romanization of that hiragana. |
| Breakdown.RomajiListItems | main.py:97-113 | A numeric token pushes its raw surface, not its empty romaji field. Any other token pushes its record's romaji. |
| Breakdown.BreakdownSpellsText | main.py:95-112 | When the tokens cut the text contiguously, the surfaces of the records the loop builds concatenate back to the analyzed text. |
| Breakdown.RomajiOutputSplitsPerToken | main.py:115 | The romanized line splits at its spaces back into `romaji_list` when there is at least one token and no romanization of a non-numeric token and no numeric surface holds a space. |
| Breakdown.RomajiListHasNoSpace | main.py:97-113 | No `romaji_list` item holds a space under the same two conditions. |
| Breakdown.NoTokensBreaksSplit | main.py:92-115 | With no tokens the output is `""`, which splits into `[""]`, not back into the empty `romaji_list`. |
| Breakdown.SpacedNumberBreaksSplit | main.py:97-115 | A single numeric token `" 15"` is pushed raw, and the output splits into `["", "15"]`, not back into `romaji_list`. |
| Breakdown.SingleWordExample | main.py:104-115 | A single non-numeric token yields exactly the romanization of its hiragana reading. |
| Endpoint.ConvertToString | main.py:54-55 | A string is returned exactly as given, whatever the built-in `str` does. |
| Endpoint.ConvertToStringIsStr | main.py:54-55 | With `str` the identity on strings, as Python's is, `convert_to_string` equals `str` on every value. |
| Endpoint.IsRomajiAppend | main.py:72 | Text passes the romaji test if and only if both of its halves do. |
| Endpoint.NonAsciiIsNotRomaji | main.py:72 | Any character at or above code point 128 makes the text fail the romaji test. |
| Endpoint.IsRomajiExamples | main.py:72 | Empty text and `"konnichiwa sekai"` pass. `"こんにちは"`, `"hello, world"` and full-width `"ａｂｃ"` fail. |
| Endpoint.RomajiInputConverted | main.py:72-74 | Text made only of ASCII letters, digits and whitespace is analyzed as `alphabet2kana` of it. |
| Endpoint.JapaneseInputUnconverted | main.py:72-76 | Text holding any non-ASCII character is analyzed exactly as given. |
| Endpoint.PunctuatedInputUnconverted | main.py:72-76 | Text holding ASCII punctuation or a control character other than whitespace is analyzed exactly as given. |

The predicates and functions these rows are stated about model the
source directly: `Numeric.IsNumber` is `is_number` (main.py:58-63),
`Endpoint.IsRomaji` is the romaji test (main.py:72), and
`Endpoint.KanaInput` is the choice of the text to analyze for a Japanese
source (main.py:73-76).

## Left out

- The FastAPI application, its routes, CORS middleware, request model and JSON response (main.py:17-36, 117-125). These are web plumbing.
- The googletrans calls, and the choice of text to analyze that depends on their results and on `src`/`dest` (main.py:67-90). This needs a network service. Only the romaji test and the kana choice for a Japanese source are modelled.
- The `.lower()` calls on `src` and `dest`. They are library calls with no logic of their own.
- gTTS speech synthesis, speech recognition and temporary files (main.py:127 onward). These are I/O and foreign services.
- The Sudachi tokenizer (main.py:19, 40, 95) is a function parameter producing `Token` records. The contiguity of its output is an explicit precondition, `Tokens.Contiguous`, only where a lemma needs it.
- jaconv's `kata2hira`, `kana2alphabet` and `alphabet2kana` are function parameters, and nothing is assumed about them. A lemma that needs space-free romanizations says so in its precondition.
- Numeric.IsNumber: `float()` is modelled only for decimal literals with surrounding whitespace. These are an optional `+`/`-`, then ASCII or full-width digits with at most one `.` and at least one digit. The model rejects what the full grammar also accepts: exponents, `inf`/`nan`, `_` between digits, and decimal digits of scripts other than ASCII and full-width.
- Breakdown.RomajiOutputSplitsPerToken: the round trip needs numeric surfaces to hold no space. This is a premise on the tokenizer, because `is_number` accepts a surface such as `" 15"` (`Breakdown.SpacedNumberBreaksSplit`). It also needs at least one token: with none, the empty output splits into one empty piece (`Breakdown.NoTokensBreaksSplit`).
- Breakdown.RomajiListHasNoSpace: carries the same premise on numeric surfaces, for the same reason.
- Endpoint.ConvertToString: `str()` of a non-string value runs that value's own `__str__`. This is a function parameter, and an object is known only by an identity.
