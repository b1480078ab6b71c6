# vvvv core, modelled in Dafny

vvvv is a small Rust command-line parsing library. It has three parts.

The lexer `Token::parse` turns a list of argument strings into tokens:
- positionals
- short options `-k [value]`, where a cluster `-xyz` yields valueless shorts
- long options `--key [value]`
- `--`, after which everything is positional

A value is taken from the next argument unless that argument looks like an
option.

The driver `from_args` feeds every token to a builder (`PollInit`: a
`Default` state, `poll_init`, `finish`). It collects every error, then
returns the finished value or all the errors. `FromArgsIter` is the lazy
variant, which yields each error as it happens and then the result of
`finish`.

The support code includes:
- the set-once helpers `try_insert` and `try_set`
- the `Switch` and `Counter` flag traits
- the hand-written `TestInit` builder of the crate's own test
- the greedy word-wrapper `split_w` / `Wrap` used for help text

Modules:

- `Wrappers`: `Option`, `Result` and `Outcome` (`Result<(), E>`).
- `Tokens` (src/token.rs):
  - tokens and owned tokens, with their display
  - the lexer as a pure step function `Step` over a `LexState` value, with `Lex` giving the whole token list
  - the class `Parse`, whose methods are proved to perform exactly those steps in place
- `Errors` (src/error.rs): the error enums.
- `Args` (src/lib.rs): the builder protocol as a datatype of three functions, the driver (`Feed`, `FromArgsResult` and the method `FromArgs`), `TryInsert` and `TrySet`.
- `IntParse`: the `i32` `FromStr` that the test builder relies on.
- `TestBuilder` (src/lib.rs tests): `TestInit` with `poll_init`, `finish` and `Default`, and the `expanded` test.
- `LazyFromArgs` (src/from_args.rs): the class `FromArgsIter`.
- `DumbWrap` (src/dumb_wrap.rs): `split_w`, `Wrap`, and the three tests.
- `Tr` (src/tr.rs): `Switch for bool`, `Counter` for the unsigned types, and the doc examples `Agree` and `AtMost5`.

Display widths are a parameter `w: char -> nat` with `w(' ') == 1`. The
tests use `NarrowWidth`: control characters are 0 columns, every other
character 1, which is exact for the characters those tests use.

## Model

| member | source | states |
|---|---|---|
| Tokens.IntoOwned | src/token.rs:175-192 | copying a token into its owned form keeps all of it: borrowing the copy gives the original token |
| Tokens.OwnedBorrowRoundTrip | src/token.rs:151-166 | the other direction: `into_owned` of `borrow` of an owned token is that owned token |
| Tokens.DisplayOwnIntoOwned | src/token.rs:169-173 | an owned token is displayed exactly as the token it was copied from |
| Tokens.ValueLookahead | src/token.rs:194-200 | a value is taken if and only if a next argument exists that is `-` or does not start with `-`; it is then consumed, otherwise nothing is consumed |
| Tokens.Step | src/token.rs:85-129 | every yielded token shrinks the remaining arguments or, with the arguments unchanged, the queued cluster |
| Tokens.StepFacts | src/token.rs:85-129 | the end comes exactly when nothing is queued and no argument is left, and repeats; queued cluster characters come out first, valueless; a step reads one or two arguments from the front; positional-only mode is never left, and in it each argument comes out verbatim |
| Tokens.LexLength | src/token.rs:131-134 | a state yields at least as many tokens as queued characters plus half its arguments, rounded up, so the size hint's lower bound holds |
| Tokens.Parse.SizeHint | src/token.rs:131-134 | half the arguments left is at most the number of tokens still to come, and no upper bound is given |
| Tokens.Positionals | src/token.rs:85-129 | the token list of positionals: one per argument, in order, verbatim |
| Tokens.ShortRun | src/token.rs:85-129 | the token list of a drained cluster: one valueless short per character, in order |
| Tokens.PositionalOnly | src/token.rs:85-129 | in positional-only mode every argument, whatever its shape, is a positional |
| Tokens.DashDashThenPositional | src/token.rs:85-129 | `--` yields DashDash and turns every later argument into a positional |
| Tokens.LoneDash | src/token.rs:85-129 | a lone `-` is the positional "-" |
| Tokens.LongOption | src/token.rs:85-129 | `--key` is a long option named by the argument minus its two dashes, valued by lookahead |
| Tokens.PlainPositional | src/token.rs:85-129 | an argument not starting with `-` is a positional |
| Tokens.SingleShort | src/token.rs:85-129 | `-k` is a short option `k` valued by lookahead |
| Tokens.DrainShorts | src/token.rs:85-129 | queued cluster characters come out one by one, valueless, before anything else |
| Tokens.Cluster | src/token.rs:85-129 | `-xyz` is the valueless shorts x, y and z |
| Tokens.ClusterLeavesValuePositional | src/token.rs:85-129 | after a cluster, the next argument is a positional, not a value |
| Tokens.StepReadFrom | src/token.rs:85-129 | the token of a step is read from the arguments the step consumes: a positional from its text, `--` from itself, a long or valued short from its option word and value, a valueless short from `-k`, from the cluster it starts, or from nothing when queued |
| Tokens.LexReadsEveryArgument | src/token.rs:85-129 | every argument is read exactly once, in order: the lexer yields one token per group of arguments, each token is read from its group, and the groups joined give back the arguments |
| Tokens.RelexDisplay | src/token.rs:52-73 | the display of a token is its words joined by spaces, and those words lex back to exactly that token |
| Tokens.AstParse | src/token.rs:202-284 | the `ast_parse` test: its 16 arguments lex to its 19 expected tokens |
| Tokens.AstBlock0 | src/token.rs:202-284 | the first `ast_parse` block: `unparsed` and a lone `-` are both positionals, whatever follows |
| Tokens.AstBlock2 | src/token.rs:202-284 | the cluster `-vvvv` lexes to four valueless `v` shorts, whatever follows |
| Tokens.AstBlock3 | src/token.rs:202-284 | `-v val` lexes to one short `v` carrying the value `val`, whatever follows |
| Tokens.AstBlock5 | src/token.rs:202-284 | the cluster `-xx` lexes to two valueless `x` shorts, whatever follows |
| Tokens.AstBlock6 | src/token.rs:202-284 | `1 unp` lexes to two positionals, whatever follows |
| Tokens.AstBlock8 | src/token.rs:202-284 | `--python 48 --loooong -` lexes to two long options with values `48` and `-` (a lone dash counts as a value), whatever follows |
| Tokens.AstLongValue | src/token.rs:107-110 | a long option followed by an argument that does not look like an option takes that argument as its value |
| Tokens.AstBlock12 | src/token.rs:202-284 | the last block `-okk -- --option -x`: a cluster, then `--`, after which option-like arguments are positionals |
| Tokens.AstArgsBlocks | src/token.rs:202-284 | the `ast_parse` argument list is the concatenation of those blocks |
| Tokens.AstTokensBlocks | src/token.rs:202-284 | the expected token list is the concatenation of the blocks' tokens |
| Tokens.Parse.constructor | src/token.rs:40-49 | a new lexer stands for the start state: all arguments, nothing queued, not positional-only |
| Tokens.Parse.NextValue | src/token.rs:194-200 | the in-place lookahead does exactly what `ValueLookahead` does to the remaining arguments |
| Tokens.Parse.Next | src/token.rs:85-129 | the token returned and the new lexer state are exactly one `Step` of the old state |
| Tokens.Parse.Collect | src/token.rs:82-129 | draining the lexer returns exactly `Lex` of its state |
| Args.Trace | src/lib.rs:10-18 | one outcome per token fed |
| Args.Failures | src/lib.rs:13-15 | the errors, in order, of the outcomes that failed |
| Args.FeedKeepsEveryFailure | src/lib.rs:10-18 | the fold keeps every failing call's error, in order, and nothing else |
| Args.FeedCons | src/lib.rs:10-18 | a token list can be fed if and only if its first token can, and the rest can from the resulting state; a passing first token adds no error, a failing one puts its error first |
| Args.Combine | src/lib.rs:20-27 | `Ok` exactly when there were no errors and `finish` succeeded; a failing `finish` appends its error after the others; a successful `finish` after errors is dropped |
| Args.FromArgsOutcome | src/lib.rs:7-28 | `from_args` over a token list, stated over the errors of the individual `poll_init` calls |
| Args.StepFeed | src/lib.rs:10-18 | one lexer step seen by the fold: at the end nothing is fed; otherwise the token is polled first and its error, if any, precedes the errors of the rest |
| Args.FromArgs | src/lib.rs:7-28 | the imperative driver (lexer object and loop) returns exactly `FromArgsResult` of the lexed arguments |
| Args.TryInsert | src/lib.rs:188-202 | succeeds exactly on an empty slot with a successful value, and then fills the slot; otherwise the slot is unchanged and the error is the repeat error for a full slot, else the value's error |
| Args.TryInsertOnce | src/lib.rs:188-202 | after one successful insertion every later one reports the repeat and keeps the first value |
| Args.TrySet | src/lib.rs:203-212 | the flag ends set; the call fails exactly when it was already set, with the repeat error |
| IntParse.ScanDigits | src/lib.rs:361-366 | the left-to-right digit scan only succeeds with a value inside the `i32` range |
| IntParse.ParseI32 | src/lib.rs:361-366 | a successful parse is inside the `i32` range; the empty string is the `Empty` error |
| IntParse.DecimalPrefix | src/lib.rs:361-366 | a prefix of a digit string is a digit string of no greater value |
| IntParse.DigitStep | src/lib.rs:361-366 | one more digit multiplies the accumulated signed value by ten and adds or subtracts the digit |
| IntParse.ScanDigitsMeaning | src/lib.rs:361-366 | the scan from a position succeeds if and only if the signed value of the whole digit string is in range, and then returns it |
| IntParse.ParseI32Meaning | src/lib.rs:361-366 | parsing succeeds if and only if, after an optional sign, the digits are non-empty and all decimal and their signed value fits `i32`; the value is then that signed value |
| TestBuilder.Default | src/lib.rs:455-466 | the initial state: not terminated, no a, b or x, c unset, d zero |
| TestBuilder.ParseB | src/lib.rs:361-366 | `b`'s value parses exactly when `i32` parsing does, to the same value; a failure is wrapped as `ValueParse(b(..))` |
| TestBuilder.Poll | src/lib.rs:334-438 | the counter stays in `u32` range; after `--` every token is ignored; `--` sets the terminated flag; long options are unknown; a failing call changes nothing |
| TestBuilder.Finish | src/lib.rs:440-453 | succeeds exactly when a and b are present; a missing a is reported before a missing b; on success the fields are copied and x defaults to None |
| TestBuilder.PollStep | src/lib.rs:334-438 | the builder's `poll_init` is `Poll` wherever the source does not panic |
| TestBuilder.TermIgnoresRest | src/lib.rs:335-337 | once terminated, any tokens can be fed and they change nothing and add no errors |
| TestBuilder.DashDashEndsOptions | src/lib.rs:431-434 | `--` followed by anything terminates without errors |
| TestBuilder.Ds | src/lib.rs:389-395 | `n` valueless `-d` tokens |
| TestBuilder.CountsD | src/lib.rs:389-395 | `n` valueless `-d` tokens add `n` to the counter and report nothing |
| TestBuilder.RepeatedA | src/lib.rs:341-356 | a second `-a v` fails as `UnexpectedMulti` and changes nothing |
| TestBuilder.RepeatedAMissingB | src/lib.rs:7-28 | `-a v1 -a v2` fails with the repeat error for the second `-a` and then the missing `b` |
| TestBuilder.ExpandedLex | src/lib.rs:468-482 | the `expanded` test's arguments lex to its 7 tokens |
| TestBuilder.ExpandedLexFrom2 | src/lib.rs:468-482 | the test's arguments from the third on lex to its tokens from the second on |
| TestBuilder.ExpandedLexFrom3 | src/lib.rs:468-482 | the test's arguments from the fourth on lex to its tokens from the third on |
| TestBuilder.ExpandedLexFrom4 | src/lib.rs:468-482 | the test's arguments from the fifth on lex to its tokens from the sixth on |
| TestBuilder.ExpandedFeed | src/lib.rs:468-482 | feeding the 7 tokens gives a = "a_val", b = 42, c set, d = 4 and no errors |
| TestBuilder.Expanded | src/lib.rs:468-482 | `from_args` on `-a a_val -c -ddd -d -b 42` is `Ok(Test { a: "a_val", b: 42, c: true, d: 4, x: None })` |
| LazyFromArgs.Items | src/from_args.rs:19-31 | the items the lazy iterator yields always end with the result of `finish` on the final state |
| LazyFromArgs.AsFailures | src/from_args.rs:25 | one `Err` item per error, in order |
| LazyFromArgs.ItemsShape | src/from_args.rs:19-31 | the items are exactly the errors as `Err` items, in order, followed by `finish` |
| LazyFromArgs.LazyMatchesEager | src/from_args.rs:19-31 | the lazy items are the eager errors followed by `finish`; the eager result is `Ok` exactly when the lazy iterator yields one successful item, with the same value |
| LazyFromArgs.FromArgsIter.constructor | src/from_args.rs:7-10 | a new iterator will yield exactly the items of its lexed arguments |
| LazyFromArgs.StepItems | src/from_args.rs:19-31 | one lexer step seen by the iterator: at the end only `finish`'s item is left; otherwise a failing poll's error comes before the items of the rest |
| LazyFromArgs.FromArgsIter.FeedOne | src/from_args.rs:23-29 | one round of the loop: takes the next token and polls with it, or reports the end; the items are split accordingly and the lexer state shrinks |
| LazyFromArgs.FromArgsIter.FeedUntilError | src/from_args.rs:22-30 | the loop: returns the first poll error with the items after it still to come, or at the end the final state whose `finish` is the only item left |
| LazyFromArgs.FromArgsIter.Next | src/from_args.rs:19-31 | yields the first remaining item and drops it; once the state is taken it yields nothing; the state is gone exactly when nothing remains |
| LazyFromArgs.FromArgsIter.SizeHintAsWritten | src/from_args.rs:33-35 | the hint as written is always (1, None) |
| LazyFromArgs.FromArgsIter.SizeHint | src/from_args.rs:33-35 | the corrected hint: its lower bound never exceeds the items left, and its upper bound, when given, is not below them |
| LazyFromArgs.SizeHintOverstatesWhenExhausted | src/from_args.rs:33-35 | after `finish` has been yielded, the hint as written claims one more item than remains |
| DumbWrap.LastSpace | src/dumb_wrap.rs:78-111 | the last space among the first `k` characters, or that there is none |
| DumbWrap.LongestFitBelow | src/dumb_wrap.rs:78-111 | reference definition: a prefix of at most `k` characters that fits, and no longer one up to `k` fits |
| DumbWrap.LongestFit | src/dumb_wrap.rs:78-111 | the longest fitting prefix is a prefix |
| DumbWrap.WidthSnoc | src/dumb_wrap.rs:78-111 | width adds up character by character |
| DumbWrap.FitsShorter | src/dumb_wrap.rs:78-111 | if a prefix fits, every shorter prefix fits |
| DumbWrap.Scan | src/dumb_wrap.rs:79-100 | the scan's end and last space lie inside the string |
| DumbWrap.ScanFindsLongestFit | src/dumb_wrap.rs:79-100 | the scan stops at the longest fitting prefix and reports the last space in it |
| DumbWrap.LongestFitIs | src/dumb_wrap.rs:78-111 | a prefix that fits, with no longer one fitting, is the longest fit |
| DumbWrap.SplitWMeaning | src/dumb_wrap.rs:78-111 | `split_w` against the reference: with no space in the longest fit, split after it; with a space and the whole string fitting, keep it whole; else split at that last space, dropping it |
| DumbWrap.SplitWForms | src/dumb_wrap.rs:78-111 | the halves make up the string, or make it up with one space removed between them, and then the right half is non-empty |
| DumbWrap.SplitWWidth | src/dumb_wrap.rs:78-111 | the left half fits the limit, except when the whole string is kept and only its trailing space goes one column past |
| DumbWrap.SplitWFirstTooWide | src/dumb_wrap.rs:78-111 | when the first character is too wide, nothing is taken |
| DumbWrap.PrintableWidth | src/dumb_wrap.rs:78-111 | under the narrow table a printable string is as wide as it is long |
| DumbWrap.NarrowLongestFit | src/dumb_wrap.rs:78-111 | under the narrow table the longest fit is read off the characters around its end |
| DumbWrap.LastSpaceIs | src/dumb_wrap.rs:78-111 | a space with no space after it below `k` is the last space |
| DumbWrap.NoSpaceBelow | src/dumb_wrap.rs:78-111 | no space below `k` means no last space |
| DumbWrap.ExampleSplitsNoSpace | src/dumb_wrap.rs:124-167 | the split table rows for widths 0 and 1, for any string shaped like the two test strings |
| DumbWrap.ExampleSplitsFirstWord | src/dumb_wrap.rs:124-167 | the split table rows for widths 4, 6, 7 and 12, for any such string |
| DumbWrap.ExampleSplitsLater | src/dumb_wrap.rs:124-167 | the split table rows for widths 13, 18, 24 and 19038949, for any such string |
| DumbWrap.NormalSplit | src/dumb_wrap.rs:124-144 | the `normal_split` test: all ten splits of its string |
| DumbWrap.KateFrontSlices | src/dumb_wrap.rs:124-144 | the `normal_split` expected halves are slices of its string (first half) |
| DumbWrap.KateBackSlices | src/dumb_wrap.rs:124-144 | the `normal_split` expected halves are slices of its string (second half) |
| DumbWrap.AccentSplit | src/dumb_wrap.rs:147-167 | the `aaaaaa` test: all ten splits of its string of accented letters |
| DumbWrap.AccentFrontSlices | src/dumb_wrap.rs:147-167 | the `aaaaaa` expected halves are slices of its string (first part) |
| DumbWrap.AccentMiddleSlices | src/dumb_wrap.rs:147-167 | the `aaaaaa` expected halves are slices of its string (middle part) |
| DumbWrap.AccentBackSlices | src/dumb_wrap.rs:147-167 | the `aaaaaa` expected halves are slices of its string (last part) |
| DumbWrap.NewWrap | src/dumb_wrap.rs:30-37 | the line is `max` columns wide with none used, and the text yet to be emitted is all the chunks' text in order |
| DumbWrap.WrapStep | src/dumb_wrap.rs:46-75 | the line width is kept and never exceeded; the iterator ends exactly when the current chunk is empty, and then changes nothing; a `Break` starts a fresh line |
| DumbWrap.WrapStepPart | src/dumb_wrap.rs:46-75 | a `Part` is the whole current chunk, emitted only while the line has room left; the next chunk becomes current and the columns carry over |
| DumbWrap.AdvanceText | src/dumb_wrap.rs:55-73 | the bookkeeping after a split loses no text: what is left is the emitted text then the new remainder, with one space between only after a `Break` |
| DumbWrap.WrapStepText | src/dumb_wrap.rs:46-75 | each step emits a prefix of the text left; a `Break` may drop the one space it breaks at, a `Part` drops nothing |
| DumbWrap.WrapAllText | src/dumb_wrap.rs:46-75 | the whole output, item texts in order with one space dropped only after some `Break`s, followed by the chunks after the first empty one (never reached), is exactly the text the wrapper started from |
| DumbWrap.AdvanceFits | src/dumb_wrap.rs:55-73 | the bookkeeping after a split keeps every character left no wider than a line |
| DumbWrap.AdvanceShrinks | src/dumb_wrap.rs:55-73 | the bookkeeping after a split consumes text, unless the split took nothing, when it only resets the line |
| DumbWrap.SplitWTakesOnFreshLine | src/dumb_wrap.rs:78-111 | on a fresh line the split always takes something when the first character fits |
| DumbWrap.WrapStepAdvance | src/dumb_wrap.rs:46-75 | a step on a non-empty chunk is the split followed by the bookkeeping |
| DumbWrap.WrapStepProgress | src/dumb_wrap.rs:46-75 | when every character fits a line, each step either consumes text or starts a fresh line with nothing consumed |
| DumbWrap.WrapStepFits | src/dumb_wrap.rs:46-75 | when every character fits a line, it still does after a step |
| DumbWrap.WrapStepShrinks | src/dumb_wrap.rs:46-75 | each step consumes text, or leaves the text alone and only empties a partly used line |
| DumbWrap.ShrinksOnFreshLine | src/dumb_wrap.rs:46-75 | on an empty line a step always consumes text, because the first character fits |
| DumbWrap.Wrap.constructor | src/dumb_wrap.rs:30-37 | a new `Wrap` stands for `NewWrap` of its chunks |
| DumbWrap.Wrap.PullChunk | src/dumb_wrap.rs:58-67 | pulling a chunk yields the next one, or "" when none is left |
| DumbWrap.Wrap.Next | src/dumb_wrap.rs:46-75 | the item returned and the new state are exactly `WrapStep` of the old state |
| DumbWrap.NarrowCharsFit | src/dumb_wrap.rs:169-181 | under the narrow table every character fits any line of at least one column |
| DumbWrap.BasicWrap | src/dumb_wrap.rs:169-181 | the `basic_wrap` test: wrapping its chunks at 12 columns yields its six items and ends |
| DumbWrap.BasicWrapStep0 | src/dumb_wrap.rs:169-181 | first step of `basic_wrap`: `Break("DO NOT")` |
| DumbWrap.BasicWrapStep1 | src/dumb_wrap.rs:169-181 | second step: `Part("BECOME")`, 6 columns used |
| DumbWrap.BasicWrapStep2 | src/dumb_wrap.rs:169-181 | third step: `Part(" ")`, 7 columns used |
| DumbWrap.BasicWrapStep3 | src/dumb_wrap.rs:169-181 | fourth step: `Break("ADDIC")`, breaking mid-word when 5 columns remain |
| DumbWrap.BasicSplit3 | src/dumb_wrap.rs:169-181 | the fourth step's split of "ADDICTED TO OXYGEN" at 5 columns |
| DumbWrap.SplitAtMiddleSpace | src/dumb_wrap.rs:169-181 | two six-column words around a space split at that space on a 12-column line (the splits of the first and the fifth step) |
| DumbWrap.BasicWrapStep4 | src/dumb_wrap.rs:169-181 | fifth step: `Break("TED TO")` |
| DumbWrap.BasicWrapStep5 | src/dumb_wrap.rs:169-181 | sixth step: `Part("OXYGEN")`, and nothing is left |
| DumbWrap.BasicWrapFrom0 | src/dumb_wrap.rs:169-181 | from the start, all six items |
| DumbWrap.BasicWrapFrom1 | src/dumb_wrap.rs:169-181 | from after the first step, the last five items |
| DumbWrap.BasicWrapFrom2 | src/dumb_wrap.rs:169-181 | from after the second step, the last four items |
| DumbWrap.BasicWrapFrom3 | src/dumb_wrap.rs:169-181 | from after the third step, the last three items |
| DumbWrap.BasicWrapFrom4 | src/dumb_wrap.rs:169-181 | from after the fourth step, the last two items |
| DumbWrap.BasicWrapFrom5 | src/dumb_wrap.rs:169-181 | from after the fifth step, the last item |
| DumbWrap.BasicWrapFrom6 | src/dumb_wrap.rs:169-181 | at the end, no items |
| Tr.SetBool | src/tr.rs:41-50 | `set` on a bool leaves it set and fails exactly when it was set already |
| Tr.SetTwiceFails | src/tr.rs:31-50 | a second `set` always fails and leaves the flag set; the first succeeds exactly on an unset flag |
| Tr.BoolSwitch.constructor | src/tr.rs:41-56 | a new flag is unset |
| Tr.BoolSwitch.Set | src/tr.rs:43-50 | the in-place `set` is `SetBool` of the old flag |
| Tr.SetAgree | src/tr.rs:15-24 | `Agree::set` ends at `Yes` and fails exactly when already `Yes` |
| Tr.AgreeIsBool | src/tr.rs:10-29 | `Agree` behaves as `bool` with `Yes` as true: `set` and `is_set` agree under that renaming |
| Tr.CheckedAdd | src/tr.rs:88 | `checked_add` succeeds exactly when the sum stays within the type, and then is the sum |
| Tr.Bounded | src/tr.rs:78-83 | reference counter: increments below the limit, refuses at or above it, never changes on refusal |
| Tr.IncUnsignedIsBounded | src/tr.rs:85-123 | each unsigned `inc` is the reference counter bounded by the type's maximum, and stays in range |
| Tr.IncAtMost5IsBounded | src/tr.rs:65-76 | `AtMost5::inc` is the reference counter bounded by 5, and its `u8` never overflows |
| Tr.BoundedRepeatCounts | src/tr.rs:78-83 | `k` increments from within the limit reach the sum capped at the limit, and exactly those past the limit fail |
| Tr.UnsignedCounter.constructor | src/tr.rs:85-123 | a new counter of a type starts at zero |
| Tr.UnsignedCounter.Inc | src/tr.rs:85-123 | the in-place `inc` is `IncUnsigned` of the old value, and the value stays in range |
| Tr.AtMost5.constructor | src/tr.rs:65 | wraps a `u8` count |
| Tr.AtMost5.Inc | src/tr.rs:67-76 | the in-place `inc` is `IncAtMost5` of the old count |

## Left out

- src/lib.rs has a second lexer, at lines 69-177, with its own `Token`. That file's `from_args` and the test module of src/lib.rs use it. It is not part of this model: `from_args` is modelled over the lexer of src/token.rs. That lexer's `Token` has no `Error` variant, so the test builder's `Token::Error(_) => todo!()` arm (src/lib.rs:436) has no counterpart.
- The error type is the one in src/error.rs. The `Error` enum at src/lib.rs:30-41 is not part of this model.
- help.rs is not part of this model: it formats and prints help text.
- own.rs (the `FromArgsOwned` and `PollInitOwned` traits and their blanket impls) is not part of this model.
- The `IntoOwned` trait that src/token.rs:3 imports is declared in none of the crate's files here. Only its `impl` for `Token` (src/token.rs:175-192) is modelled, as Tokens.IntoOwned.
- Display width of a character: the Unicode width tables are foreign code. The wrapper takes the width as a parameter, and the tests use `NarrowWidth`, which is exact for their characters.
- Byte offsets: `split_w` measures by byte offsets into UTF-8 text. The model measures by character positions, so each slice is the same text.
- Thunks: the closures passed to `try_insert` and `try_set` are pure, so they are modelled as values. The value closure of `try_insert` is evaluated only for an empty slot. Evaluating it always changes nothing, because it has no effects.
- `String as FromStr` is infallible, so `a` and `x` values are taken verbatim. The `TestParseError::a` and `::x` cases cannot occur and are not modelled.
- TestBuilder.Poll: `UnexpectedPositional(todo!())` panics on a positional before `--`. The model excludes this case by precondition (`Accepts`), as it does `self.d += 1` overflowing `u32` (a panic in debug builds).
- Args.FromArgs: it requires that every token can be fed (`Feedable`), which is how the panicking calls above are kept out.
- FromArgsIter: its item type `Result<T, Error<..>>` does not type-check against `poll_init`'s own error type. The model yields `Result<O, E>` with `E` the builder's error. `from_args_iter` is not defined in the crate: src/lib.rs has no such function and does not declare `mod from_args`. The constructor stands for it.
- Tokens.Parse.SizeHint: the argument iterator's own size hint is taken to be exact, and the model uses the count of remaining arguments.
- DumbWrap.WrapAll (the whole output of a `Wrap`) is defined only when every character is at most a line wide. Without that, the source's iterator can loop forever: `Break("")` after `Break("")` when a character is wider than the line.
- `usize` is taken to be 64 bits wide.
- Lifetimes and borrowing (`&'a str` compared with `String`) are not modelled: tokens and owned tokens both hold values.
- `Counter`, `Switch`, `PollInit` and `FromArgs` are traits in the source. The model gives each implementation its own functions and class, and gives `PollInit` the `Builder` datatype.

## Findings

| source | as written | input that shows it | evidently intended | confidence | as-written member | corrected member |
|---|---|---|---|---|---|---|
| src/from_args.rs:33-35 | `size_hint` always returns `(1, None)` | any iterator after it has yielded the result of `finish`: no items remain, but the lower bound is 1 | a lower bound of 0 once the state is taken (for example `(0, Some(0))`), as the `Iterator` contract requires | not executed | LazyFromArgs.FromArgsIter.SizeHintAsWritten (shown by LazyFromArgs.SizeHintOverstatesWhenExhausted) | LazyFromArgs.FromArgsIter.SizeHint |
