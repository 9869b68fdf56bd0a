# visen screenplay metrics, modelled in Dafny

visen treats a markdown file as a screenplay. A level-1 heading holds the
title. A block quote holds a stage direction whose text is a duration such as
`5m` (its "blocked" time). A code block holds dialogue, where a word written
all in capitals is a speaker cue and is not spoken. `build_script` makes one
pass over the markdown events of the script and produces a `Script` record:
the title, the total word count, the dialogue word count and the blocked
seconds. The summary and the generated README print an estimated runtime:
the blocked seconds plus 2.5 seconds per dialogue word, written as shorthand
such as `1h 1m 1s`.

This project models that core.

- `tokens.dfy` (module `Tokens`) covers `split_whitespace` and the "fully
  capitalised" word filter.
- `interpreter.dfy` (module `Interpreter`) covers the event loop of
  `build_script`. `Step` and `Interp` are the pure fold over the events.
  `BuildScript` is the loop itself, with the same eight local variables as
  the source, and it is proved equal to the fold. The lemmas characterise the
  fold against reference definitions that do not follow the loop:
  - "last writer wins" for each flag;
  - the texts seen inside each context;
  - the texts pending in the block-quote buffer.
- `duration.dfy` (module `Duration`) covers the shorthand formatter
  `seconds_to_human_shorthand_duration`. It is a method that appends pieces
  the way the source does, proved equal to a join of the non-zero components.
  A reader for the shorthand (`ReadShorthand`) is its inverse. The module
  also covers `word_count_to_seconds`.
- `report.dfy` (module `Report`) covers the runtime sums printed by `Display`
  and `write_readme`.
- `examples.dfy` (module `Examples`) holds worked examples as lemmas.
- `wrappers.dfy` holds the `Option` type.

The markdown parser and the duration parser are foreign code. The interpreter
takes the event sequence as its input. It takes the duration parser as a
function parameter `parse: string -> Option<nat>`: the number of whole
seconds, or `None` when the text does not parse.

## Notes on the code

- Every text event counts toward the word count, whatever context it is
  in. So the heading text `Title` and the quote text `5m` count too, and
  the script of `Examples.EndToEndExample` has 4 words.
- A token is a speaker cue only when every one of its characters is
  upper-case. `:` is not, so `JOHN:` is dialogue and `JOHN: Hello there`
  has 3 dialogue words (`Examples.ColonCueExample`).
- The dialogue flag is set for every code block, fenced or indented.
  `StartCodeBlock` stands for both kinds.
- `dialogue_word_count <= word_count` always holds
  (`Interpreter.DialogueAtMostWordCount`).
- `f64::round` rounds a half away from zero, so 1 word takes 3 seconds
  (`Examples.WordCountToSecondsExamples`).

## Model

| member | source | states |
|---|---|---|
| `Interpreter.BuildScript` | src/lib.rs:63-132 | The loop over the events, with the source's locals, yields the record of the fold `Interp`. That record keeps the document text. Its word count is the word count of all text events. Its dialogue count is at most its word count. Its title, dialogue count and blocked seconds are the reference definitions below. |
| `Interpreter.FlagIsLastWriter` | src/lib.rs:76-101 | Each of the three flags is set exactly when some event opened its context and no later event closed it. There is no depth counting, so the last writer wins. |
| `Interpreter.WordCountIsTextWords` | src/lib.rs:103-104 | The word count is the sum of the whitespace-token counts of every text event, whatever flags are set. |
| `Interpreter.DialogueAtMostWordCount` | src/lib.rs:103-119 | The dialogue word count never exceeds the word count. |
| `Interpreter.TitleIsHeadingText` | src/lib.rs:83-110 | The title is the concatenation, in order and with no separator, of exactly the texts seen while the last level-1 heading event was a start. |
| `Interpreter.DialogueIsCodeText` | src/lib.rs:111-119 | The dialogue count is the number of not-fully-capitalised tokens in exactly the texts seen inside a code block. |
| `Interpreter.QuoteBufferIsPending` | src/lib.rs:91-107 | The block-quote buffer holds the texts seen inside a block quote since the last block-quote end, concatenated in order. |
| `Interpreter.BlockedIsQuotedSeconds` | src/lib.rs:91-98 | The blocked seconds are, over every block-quote end, the parsed duration of the texts pending at that end. A quote that does not parse adds nothing. |
| `Interpreter.NoCodeBlockNoDialogue` | src/lib.rs:87-119 | Without a code-block start there are no dialogue words. |
| `Interpreter.NoHeadingNoTitle` | src/lib.rs:83-110 | Without a level-1 heading start the title is empty. |
| `Interpreter.NoQuoteEndNoBlocked` | src/lib.rs:91-98 | Without a block-quote end the blocked seconds are 0. |
| `Interpreter.QuoteEndEffect` | src/lib.rs:91-98 | A block-quote end adds the parsed duration, or nothing when the parse fails. It then empties the buffer and clears the flag, whatever the nesting. It changes nothing else. |
| `Interpreter.BlockedChangesOnlyAtQuoteEnd` | src/lib.rs:74-123 | Only a block-quote end changes the blocked seconds. |
| `Interpreter.BlockedMonotone` | src/lib.rs:93 | The blocked seconds never decrease along the events. |
| `Interpreter.TextFeedsEveryOpenContext` | src/lib.rs:103-120 | One text event updates the buffer, the title and the dialogue count together when all three contexts are open. The checks are independent `if`s. |
| `Interpreter.IgnoredEventsAreNoOps` | src/lib.rs:74-122 | Dropping `Other` events and heading events of levels 2 to 6 leaves the final state unchanged. |
| `Tokens.Words` | src/lib.rs:104 | `split_whitespace` yields non-empty tokens that contain no whitespace. |
| `Tokens.WordCountIsWordStarts` | src/lib.rs:104 | The token count equals the number of non-whitespace characters that follow whitespace or the start of the text. This is an independent definition of the word count. |
| `Tokens.WordsJoin` | src/lib.rs:104 | The tokens of `a`, a whitespace character and `b` are the tokens of `a` followed by those of `b`. |
| `Tokens.NoWordsIffBlank` | src/lib.rs:104 | A text has no tokens exactly when all its characters are whitespace. |
| `Tokens.SpokenCount` | src/lib.rs:111-118 | The dialogue words of a text, its tokens that are not fully capitalised, are at most its word count. |
| `Duration.Decompose` | src/lib.rs:155-158 | For h = s/3600, m = (s%3600)/60 and r = s%60: m < 60, r < 60 and 3600h + 60m + r = s. |
| `Duration.DecomposeUnique` | src/lib.rs:155-158 | That decomposition is the only one with minutes and seconds below 60. |
| `Duration.NatToString` | src/lib.rs:162 | `format!("{}", n)` is a non-empty string of decimal digits with no leading zero. |
| `Duration.NumeralRoundTrip` | src/lib.rs:162 | The value of the numeral of `n` is `n`. |
| `Duration.SecondsToHumanShorthand` | src/lib.rs:155-180 | Appending the non-zero components, with a space first when the output is not empty, gives the components joined by single spaces. The output is empty exactly for 0 seconds, and reading it back gives the input. |
| `Duration.ShorthandEmptyIffZero` | src/lib.rs:159-179 | The shorthand is `""` exactly when the second count is 0. |
| `Duration.ShorthandShape` | src/lib.rs:165-177 | The shorthand has no leading space, no trailing space and no doubled space. |
| `Duration.ShorthandRoundTrip` | src/lib.rs:155-180 | Reading the shorthand of `s` gives `s`: the components are listed in h, m, s order with their units, and together they add up to the input. |
| `Duration.SplitJoin` | src/lib.rs:165-177 | Splitting at single spaces undoes joining space-free fields. |
| `Duration.RoundHalfAwayFromZero` | src/lib.rs:183 | `f64::round` of a non-negative quotient is within a half of it, and a tie rounds up. |
| `Duration.WordCountToSeconds` | src/lib.rs:182-184 | `round(n * 2.5)` lies between 2.5n and 2.5n + 0.5. |
| `Duration.WordCountToSecondsClosedForm` | src/lib.rs:183 | `round(n * 2.5)` equals `(5n + 1) / 2`. |
| `Duration.WordCountToSecondsMonotone` | src/lib.rs:182-184 | More words never take less time, and each extra word adds time. |
| `Report.RuntimeParts` | src/lib.rs:30-31 | The printed runtime is the dialogue time plus exactly the blocked seconds. It equals the blocked seconds exactly when there are no dialogue words. |
| `Report.RuntimeLineReadsBack` | src/lib.rs:147 | The runtime shorthand of the summary and of the README, read back, is the blocked seconds plus `(5d + 1) / 2` for d dialogue words. |
| `Report.RuntimeOfEvents` | src/lib.rs:30 | For a script built from events, the runtime is the parsed block-quote durations plus the speaking time of the code-block dialogue. Without a code block it is just the blocked seconds. |
| `Examples.ShorthandExamples` | src/lib.rs:155-180 | 0 s gives `""` and 90 s gives `1m 30s`. |
| `Examples.HourShorthandExamples` | src/lib.rs:155-180 | 3661 s gives `1h 1m 1s` and 7200 s gives `2h`. |
| `Examples.WordCountToSecondsExamples` | src/lib.rs:182-184 | 10 words take 25 s, 1 word takes 3 s and 0 words take 0 s. |
| `Examples.CapitalCueExample` | src/lib.rs:111-118 | `HELLO world` has two tokens and one dialogue word. |
| `Examples.ColonCueExample` | src/lib.rs:111-118 | `JOHN: Hello there` has three tokens and three dialogue words. |
| `Examples.ScriptEventsResult` | src/lib.rs:74-123 | The event stream of a heading, a block quote and a code block yields the heading text as title, the parsed quote as blocked time, the dialogue words of the code block and the words of all three texts. |
| `Examples.EndToEndExample` | src/lib.rs:63-132 | `# Title`, `> 5m` and a code block with `HELLO world` give the title `Title`, 300 blocked seconds, 1 dialogue word and 4 words. |

## Left out

- Reading `SCRIPT.md` (src/lib.rs:64) and the pulldown_cmark parser (src/lib.rs:65) are replaced by the event sequence given to `BuildScript`. So the `Result` wrapper of `build_script` and `ScriptError`, which carry only I/O errors, are not modelled.
- Event payloads are dropped. These are the block-quote kind, the code-block kind (fenced or indented) and the heading's id, classes and attributes. Every other event kind and tag becomes `Other`.
- The humantime duration grammar and `Duration::as_secs` (src/lib.rs:92-93) are a function parameter. It returns whole seconds or `None`, and its grammar is not specified.
- `Tokens.IsUpper` covers only the ranges A-Z, U+00C0-U+00D6, U+00D8-U+00DE, U+0391-U+03A1, U+03A3-U+03AB and U+0400-U+042F. Rust's `char::is_uppercase` (src/lib.rs:115) covers every upper-case letter of Unicode. So the model counts a cue such as `ŁUKASZ` (Ł is U+0141) or one holding `Ά` (U+0386) or `Ґ` (U+0490) as a dialogue word, where the source excludes it. `Tokens.IsWs` is the full list of Unicode whitespace.
- u64 overflow of `+=` (src/lib.rs:93, 104, 112) and of the runtime sum (src/lib.rs:30, 147) is not modelled. The counters are unbounded naturals.
- `Duration.WordCountToSeconds` requires `5 * wordCount < 2^53`. In that range `n as f64 * 2.5` is exact, so `round` gives `(5n + 1) / 2`. The model does not say what the source returns for larger counts, where floating-point rounding takes over.
- The text layout of `Display` (src/lib.rs:24-36) and of the README written by `write_readme` (src/lib.rs:143-153) is not modelled. Only the runtime sums they print are.
- `init`, `validate_command_is_running_inside_visen_project`, `write_html` and the file writes of `write_readme` (src/lib.rs:38-61, 134-153) are left out. They are file-system I/O and HTML rendering by pulldown_cmark.
- `src/main.rs` (command-line handling, screen clearing, printing) is not part of this model.
