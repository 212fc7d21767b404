# Guessing game: a Dafny model

This project models a terminal number-guessing game written in Rust. The
program greets the player. It then loops over a numbered menu ("play game",
"exit"). Choosing to play starts a round with a fresh secret `u8`. In a round
the player types guesses until one equals the secret, or until they type
`quit`. Each wrong guess is answered with "N is too low!" or "N is too high!",
and each unparsable line with an invalid-input message.

All I/O goes through two small wrappers:

- `write` appends one formatted string to the writer, then flushes it.
- `prompt` writes "> ", reads one line, writes a blank line and returns the
  line trimmed.

The repository's tests drive the wrappers with a recording writer
(`TestWriter`) and a scripted reader (`TestReader`). The model uses that
writer and reader as the program's environment `Env`. Every operation is a
pure function from an `Env` to an `Outcome`:

- `Returned(value, env)`: the Rust function returned `value`.
- `Panicked(env)`: a `.unwrap()` on a failed read fired.

Modules, in dependency order:

- `Wrappers`: `Option` and `Result`.
- `Text`: Rust's `str::trim`, the unsigned `str::parse` for `u8` and `usize`
  with overflow checking, and decimal rendering.
- `Io`: the test writer and reader, `write` and `prompt`.
- `Game`: `evaluate`, one iteration of `play`, `play` both as a function and
  as the loop it is written as.
- `Rounds`: what a round does on any finite script of input lines.
- `Menus`: `menu`.
- `Session`: the `while playing` loop of `main`, as a function and as the loop.

## Model

| member | source | states |
|---|---|---|
| Text.TrimSpec | src/io.rs:26 | the contract of `Text.Trim`: the trimmed line is empty or starts and ends with non-whitespace, and it sits in the line with only whitespace before and after it |
| Text.TrimCharacterised | src/io.rs:26 | conversely, any slice with only whitespace around it and non-whitespace ends IS the trimmed line |
| Text.TrimDropsLineBreak | src/io.rs:21-26 | a trailing line break that `read_line` leaves in the buffer does not change the answer |
| Text.TrimIdempotent | src/io.rs:26 | trimming twice is trimming once |
| Text.Show | src/game.rs:95-96 | the decimal rendering of `n` is a non-empty digit string whose value is `n`, with no leading zero: 0 renders as "0" and any other number starts with a non-zero digit |
| Text.ShowInjective | src/game.rs:95-96 | different numbers render differently |
| Text.AccumulateSpec | src/game.rs:54 | the checked digit-by-digit fold, failing as soon as the running value passes the maximum, succeeds exactly when the whole string is digits whose value fits, and then gives that value: failing on the way is the same as the final value being too large |
| Text.ParseUnsignedSpec | src/game.rs:54 | unsigned parsing accepts exactly an optional `+` followed by one or more digits whose value fits, and returns that value |
| Text.ParseU8Spec | src/game.rs:54 | the contract of `Text.ParseU8`: a line is a `u8` guess exactly when it is a numeral (an optional `+`, then one or more digits) of value at most 255, and the guess is that value |
| Text.ParseUsizeSpec | src/menu.rs:35 | a line is a `usize` exactly when it is a numeral of value at most 2^64-1 |
| Text.ShowParses | src/menu.rs:31-35 | the rendering of any number up to the maximum parses back to that number |
| Io.AppendToLine | src/io.rs:98-106 | the flushed lines are unchanged; the pending line is the old pending text (empty when none) followed by the value |
| Io.Flush | src/io.rs:140-148 | succeeds exactly when a line is pending, and then moves it into the flushed lines; otherwise fails with "Nothing to write!" and changes nothing |
| Io.Write | src/io.rs:56-64 | the flush after an append cannot fail; the result has nothing pending and exactly one new flushed line, the old pending text plus the value |
| Io.AppendAllThenFlush | src/io.rs:114-138 | a formatted write that reaches the writer in several pieces still flushes as one line: the concatenation of the pieces |
| Io.WriteEach | src/menu.rs:28-33 | writing several strings on a flushed writer adds exactly those strings as lines, in order |
| Io.ReadLine | src/io.rs:180-196 | `One` returns its value and stays as it is; `Many` returns the line at its cursor and advances it by one; an exhausted `Many` fails with "No more values to read." |
| Io.ManyReplaysScript | src/io.rs:186-194 | `n` reads from cursor `c` give exactly `lines[c..c+n]` and move the cursor to `c+n`; reading past the end fails |
| Io.OneRepeatsValue | src/io.rs:182-185 | any number of reads from a `One` reader give its value each time and leave it unchanged |
| Io.Prompt | src/io.rs:14-27 | the transcript grows by the marker and, if the read succeeded, a blank line; a panic happens exactly when the read fails and leaves the reader alone; the answer is the line read, trimmed, and the reader moves as one read moves it |
| Io.PromptScenarios | src/io.rs:29-43 | the marker is the first line written, and "given input" is returned as typed |
| Game.Evaluate | src/game.rs:92-98 | `Ok` exactly on the secret; below the secret exactly the "is too low!" message naming the guess, above it exactly the "is too high!" one |
| Game.EvaluateMessageIdentifiesGuess | src/game.rs:92-98 | two wrong guesses with the same message are the same guess |
| Game.Answer | src/game.rs:54-84 | after the read, the branch writes exactly the reply to the line and reads nothing; it stops the loop exactly on the secret or on "quit" that is not a number, with `Ok` or `Quit` |
| Game.Step | src/game.rs:50-85 | one iteration writes the guess prompt, the marker, the blank line and the reply, and consumes exactly one line; it panics exactly when the read fails, after the prompt and the marker |
| Game.Play | src/game.rs:44-88 | a round never loses output and never returns `Unknown`; it panics only on a failed read; it leaves a `One` reader as it was and only moves a `Many` reader forward over the same script |
| Game.PlayLoop | src/game.rs:44-88 | the loop as written (`res` starting at `Unknown`, a `keep_guessing` flag) computes `Play` and never returns `Unknown` |
| Game.OneReaderRepeats | src/game.rs:50-85 | on a `One` reader whose line does not end the round, an iteration keeps guessing with the reader unchanged, so the loop cannot end |
| Rounds.StepOnScript | src/game.rs:50-85 | on a script, an iteration at cursor `c` writes the exchange of `lines[c]`, moves to `c+1`, and stops exactly on a line that ends the round |
| Rounds.PlayAtEndOfScript | src/game.rs:52-53 | at the end of the script the round writes the guess prompt and the marker, then panics |
| Rounds.FirstTerminalExists | src/game.rs:50 | either no line of the script ends the round, or a first such line exists |
| Rounds.PlayFollowsScript | src/game.rs:44-88 | on any script, from any position, the round agrees with the line-by-line recursion `RunScript` |
| Rounds.RunScriptStops | src/game.rs:55-84 | a line that ends the round adds its exchange, and the round returns that line's result |
| Rounds.ScriptReturnsAtFirstTerminal | src/game.rs:44-88 | the recursion returns the first terminal line's result, having read up to that line and written one exchange per line read |
| Rounds.ScriptPanicsWithoutTerminal | src/game.rs:44-88 | without a terminal line the recursion reads the whole script, writes every exchange, prompts once more and panics |
| Rounds.PlayReturnsAtFirstTerminal | src/game.rs:44-88 | a round on a script returns at the first line that ends it, with that line's result; it reads nothing after that line and writes one exchange per line read |
| Rounds.PlayPanicsWithoutTerminal | src/game.rs:44-88 | a round on a script with no ending line reads all of it, writes every exchange, prompts once more and panics |
| Rounds.PlayResultIff | src/game.rs:44-88 | on any script: the round returns iff some line ends it; it is won iff the first such line is the secret; it is quit iff that line is "quit" |
| Rounds.OutOfRangeGuessesAreInvalid | src/game.rs:54-82 | "256" and "-1" are not `u8` guesses and get the invalid-input reply; "+7" is the guess 7 |
| Rounds.InputOne | src/game.rs:121-128 | the test input "1" is already trimmed and parses to 1 |
| Rounds.InputZero | src/game.rs:130-138 | the test input "0" is already trimmed and parses to 0 |
| Rounds.InputQuit | src/game.rs:140-156 | the test input "quit" is already trimmed and is not a number |
| Rounds.InputInvalid | src/game.rs:158-189 | the test input "not a valid input" is already trimmed and is not a number |
| Rounds.QuitsOnScriptLine | src/game.rs:72-76 | whatever the secret, a script line "quit" ends the round as `Quit` after one exchange ending in "Quitting..." |
| Rounds.PlayOnTerminalLine | src/game.rs:44-88 | a `One` reader whose line ends the round gives that line's result after a single exchange, with the reader unchanged |
| Rounds.WinsOnFirstGuess | src/game.rs:121-128 | secret 1 and the answer "1": won, and the full transcript ends in "Correct! " |
| Rounds.QuitsOnQuit | src/game.rs:140-156 | secret 1 and the answer "quit": `Quit`, and the transcript ends in "Quitting..." |
| Rounds.WinsOnSecondLine | src/game.rs:50-85 | secret 1 and a two-line script whose first line does not end the round and whose second is "1": won after both exchanges, both lines read |
| Rounds.ReplyToLowGuess | src/game.rs:57-96 | with secret 1, the answer "0" is told "0 is too low!" and a blank line |
| Rounds.WinsAfterLowGuess | src/game.rs:130-138 | secret 1 and the script "0", "1": "0 is too low!" is written, then the round is won on the second line |
| Rounds.ReplyToInvalidInput | src/game.rs:77-81 | "not a valid input" gets the invalid-input message |
| Rounds.WinsAfterInvalidInput | src/game.rs:158-189 | secret 1 and an invalid line then "1": the invalid-input message is written and the round goes on to be won |
| Menus.OptionLines | src/menu.rs:28-33 | one line per choice, the `i`-th being "i+1) name" |
| Menus.Choice | src/menu.rs:35-43 | an accepted choice lies between 1 and the number of choices; every rejection is "Invalid choice!" |
| Menus.ChoiceSpec | src/menu.rs:35-43 | a line is accepted exactly when it is a numeral between 1 and the number of choices, and that numeral's value is returned |
| Menus.ChoiceOfListedNumber | src/menu.rs:28-43 | typing the number a choice is listed under selects that choice |
| Menus.Menu | src/menu.rs:21-44 | the transcript is the header, one line per choice, the marker and (after a successful read) a blank line; exactly one line is read; a panic happens exactly when the read fails; the verdict is the trimmed line's `Choice` |
| Menus.EmptyMenuRejects | src/menu.rs:37-43 | a menu with no choices accepts nothing |
| Menus.MenuListsChoices | src/menu.rs:46-63 | with "first" and "second", the header is line 0 and the numbered choices are lines 1 and 2 |
| Menus.MenuVerdicts | src/menu.rs:65-104 | with one choice, "1" selects it, while "not a number", "-1", "2" and "0" are invalid choices |
| Menus.MenuReturnsInput | src/menu.rs:65-72 | the full transcript and result of the menu on the answer "1" |
| Session.OnlyPlayOrExit | src/main.rs:39-75 | the program's two-entry menu only ever returns 1 or 2, so the catch-all arm is dead |
| Session.Verdict | src/main.rs:53-67 | a won round is answered "You won!", a quit one "You quit. ", the unknown error "An unknown Error occurred.", and each message is given for exactly that result |
| Session.Pass | src/main.rs:37-79 | a pass never loses output; it panics only on a failed read; it stops the loop exactly when the line read selects "exit", and then writes nothing after the menu; it consumes at least one line of a script when it returns |
| Session.SessionKeepsScript | src/main.rs:37-79 | the contract of the loop function `Session.Session`: the loop never loses output and panics only on a failed read; it leaves a `One` reader as it was, and only moves a `Many` reader forward over the same script |
| Session.SessionEndsOnExit | src/main.rs:37-79 | the contract of the loop function `Session.Session`, continued: when the loop returns on a script, the last line it read selected "exit" |
| Session.ExitPassReadsExit | src/main.rs:40-72 | a pass that ends the loop on a script has read exactly one line, and that line selects "exit" |
| Session.Program | src/main.rs:20-80 | the greeting is the first thing written; a panic only follows a failed read |
| Session.MainLoop | src/main.rs:20-80 | the loop as written (a `playing` flag, the menu, a new secret every pass, `play` run by its own loop) computes `Program` |
| Session.ProgramMenuLines | src/main.rs:39-40 | the program's menu lists "1) play game" and "2) exit" |
| Session.SelectionsOfDigits | src/main.rs:47-72 | "1" selects "play game" and "2" selects "exit" |
| Session.ExitAtOnce | src/main.rs:20-80 | on the script "2", the whole transcript is the greeting and one menu, and the program returns |
| Session.OneExitLine | src/main.rs:20-80 | a reader that always answers "2" ends the program after one menu, the reader untouched |
| Session.ProgramOnFreshWriter | src/main.rs:28-37 | the program greets, then enters the loop from the first pass |
| Session.MenuOnScript | src/main.rs:40 | the program's menu on a script writes its three lines, the marker and a blank line, and reads the line at the cursor |
| Session.PassPlays | src/main.rs:51-70 | a pass whose line selects "play game" plays a round with that pass's secret, then writes the verdict and "Play again?" |
| Session.PassRejects | src/main.rs:77 | a pass whose line the menu rejects prints "Invalid choice!" on its own line after the menu, plays no round, and keeps the loop going |
| Session.PassExits | src/main.rs:72 | a pass whose line selects "exit" ends the loop right after the menu |
| Session.QuitPass | src/main.rs:51-70 | "1" then "quit": the round's exchange, "You quit. " and "Play again?" follow the menu, whatever the secret |
| Session.QuitThenExit | src/main.rs:20-80 | the script "1", "quit", "2" gives the full transcript of two menus around a quit round, whatever the secrets |

## Left out

- Real standard input and output: `main` locks `stdin` and uses `stdout`. The model runs it on the recording writer and the scripted reader the tests use, so every transcript is a list of flushed writes.
- End of input on a real terminal is not modelled. At end of file, `read_line` on real standard input returns `Ok(0)` and leaves the buffer empty. The real `main` and `play` then loop forever, printing "Invalid choice!" or the invalid-input message. The `Panicked` outcome at the end of a script is the behaviour of the `Many` test reader only (src/io.rs:191-193).
- Random secrets: `random.rs` is not part of this model. `main` draws a secret every pass (src/main.rs:43), and the model takes that as a parameter `draw`, where pass `i` (counting from 0) gets the secret `draw(i)`. Every result therefore holds for any generator.
- `println!` in `main` (src/main.rs:74, 77) prints to standard output directly, not through `write`. The model records it on the same writer as one line: the message plus "\n".
- `constants.rs` is not part of this model. The text of `INVALID_CHOICE` is taken from the tests that expect "Invalid choice!".
- The formatter error path of `TestWriter::write_fmt` (src/io.rs:130-136) is left out: appending to a `String` never fails, so the path is unreachable.
- `TestWriter::write`, `TestReader::consume`, `fill_buf` and `read` are `unimplemented!()` and are never called. `read_to_string` is never called by the game. None of them is modelled.
- Game.Play: requires `Halts`, that is, a `Many` reader, or a `One` reader whose line ends the round. On any other `One` reader the Rust loop never ends (`Game.OneReaderRepeats`), so there is no result to model.
- Session.Pass: requires `PassHalts`, for the same reason as `Play`.
- Session.Session: requires `SessionHalts`, that is, a `Many` reader or a `One` reader that chooses "exit". Any other `One` reader repeats the loop forever.
- Session.Program: requires `SessionHalts`, because it runs the same `while playing` loop as `Session.Session` and would repeat forever on the same `One` readers.
- Session.MainLoop: requires `SessionHalts`, for the same reason as `Session.Program`: its `while playing` loop never ends on those `One` readers.
- `usize` is taken as 64 bits wide (`USIZE_MAX`). On a 32-bit target the menu's overflow bound would be 2^32-1. With two choices the verdict is the same either way.
- `read_line` appends to a buffer. The model reads into a fresh buffer because `prompt` always passes an empty `String`.
