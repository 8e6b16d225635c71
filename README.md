# execql core, modelled in Dafny

execql is a command-line tool that runs a file of CQL statements against a
Cassandra cluster. It works like this:

- It checks that a statement file (`-f`/`--file`) and a keyspace
  (`-k`/`--keyspace`) were given. If either is missing, it fails with one
  line per missing option.
- It reads the file and cuts the text at every `;`.
- It deals the resulting statements to lanes. Every lane gets the same chunk
  size, `len(statements) / threads + 1`.
- Each lane runs in its own goroutine inside an error group, on one shared
  session. A lane strips leading and trailing `\n`, then `\r`, from each
  statement. It skips a statement that is empty after trimming and executes
  the rest in order. It returns at the first statement the cluster rejects.
- The first lane error becomes the command's error.

The model covers:

- the statement split and the trimming;
- the chunking;
- one lane's loop, on a `Session` class that records what it was sent;
- the error group, as a class with `Go` and `Wait`;
- the run command with its error paths;
- the pre-run option check and the validation helpers.

Modules, one per file:

| file | module | models |
|---|---|---|
| `wrappers.dfy` | `Wrappers` | `Option` and `Result` |
| `go_strings.dfy` | `GoStrings` | `strings.Split` and `strings.Trim` with one-character arguments, `strings.Join` |
| `statements.dfy` | `Statements` | `readCQLs` (the `;` split) and `trimCQL` |
| `lanes.dfy` | `Lanes` | the chunk size and `funk.Chunk` |
| `lane_executor.dfy` | `LaneExecutor` | the session and `execCQLs` |
| `runner.dfy` | `Runner` | the error group and `runRootCmd` |
| `validation.dfy` | `Validation` | `validateParams`, `extractValidationErrors`, `validationErrorToText` |
| `prerun.dfy` | `PreRun` | the `PreRunE` hook |

## Behaviour worth knowing

- **Chunk size is `len/N + 1`.** Four statements on four threads give two
  lanes of two (`Lanes.PartitionFourOnFour`). There are never more than N
  lanes, but lanes can be fewer than N.
- **No statements means no lanes.** `funk.Chunk` of an empty list returns no
  chunks at all. An empty file still reads as one empty
  statement (`""` has no `;`), so it gives one lane holding `[""]`, and that
  lane sends nothing (`Runner.RunEmptyFile`).
- **Blank statements are sent.** Only line breaks are trimmed. A statement
  of spaces is executed: in `X;; ;Y` the lane sends `X`, `" "` and `Y`
  (`LaneExecutor.LaneSendsBlank`).
- **Trimming is not idempotent.** `\n` is stripped before `\r`, so
  `\r\n\r\n` trims to `\n`, which is then sent
  (`Statements.TrimCQLWindowsBlankLine`).
- **The stop signal is read after a successful statement.** A lane that starts with the signal already up still sends its first
  executable statement (`LaneExecutor.LaneStopAlreadySet`).
- **A failing lane does not stop the others.** The stop channel is closed
  only after `Wait` has returned, which is after every lane has ended. So no
  lane ever sees the signal, and every lane runs to its own end
  (`Runner.DispatchKeepsGoing`). The runner therefore runs each lane with
  the stop signal unset.
- **No option check rejects a thread count of 0 or below.** The `required`
  tags are the only constraints. At 0 the code divides `len/0`, modelled as
  `Lanes.PartitionError.DivisionByZero`. A negative count that makes the
  chunk size 0 or less is modelled as `ChunkSizeNotPositive`.

## Model

| member | source | states |
|---|---|---|
| `GoStrings.Split` | cmd/root.go:145 | defines `strings.Split` with a one-character separator, which always gives at least one piece; its properties are `GoStrings.SplitShape`, `GoStrings.JoinSplit` and `GoStrings.SplitJoin` |
| `GoStrings.SplitShape` | cmd/root.go:145 | splitting at `c` gives one piece more than `c` occurs in the text, and no piece contains `c` |
| `GoStrings.JoinSplit` | cmd/root.go:145 | joining the pieces with `c` puts the original text back |
| `GoStrings.SplitJoin` | cmd/root.go:145 | splitting a join of at least one `c`-free piece gives back exactly those pieces |
| `GoStrings.Join` | cmd/root.go:72 | defines `strings.Join`: the pieces with `sep` between each two; its properties are `GoStrings.JoinSplit` and `GoStrings.SplitJoin` (with `GoStrings.Split` they undo each other) and `GoStrings.SplitFramed` |
| `GoStrings.SplitFramed` | cmd/root.go:72 | `c`-free pieces joined by `c`, with a `c` before and after, split into an empty piece, the pieces, and an empty piece |
| `GoStrings.TrimLeftDropsOnly` | cmd/root.go:164-165 | the left trim keeps a suffix that does not start with `c`, and every character it drops is `c` |
| `GoStrings.TrimRightDropsOnly` | cmd/root.go:164-165 | the right trim keeps a prefix that does not end with `c`, and every character it drops is `c` |
| `GoStrings.Trim` | cmd/root.go:164-165 | defines `strings.Trim` with a one-character cutset as the right trim of the left trim; its properties are `GoStrings.TrimEnds` and `GoStrings.TrimSurrounds` |
| `GoStrings.TrimEnds` | cmd/root.go:164-165 | what `Trim` keeps neither starts nor ends with `c` |
| `GoStrings.TrimSurrounds` | cmd/root.go:164-165 | what `Trim` keeps is an infix of the input, and everything around it is `c` |
| `Statements.ReadCQLs` | cmd/root.go:139-146 | the statements joined by `;` are the file's text, none holds a `;`, and there is one more statement than there are `;` in the text |
| `Statements.ReadCQLsJoin` | cmd/root.go:144-145 | reading the `;`-join of at least one `;`-free statement gives back those statements |
| `Statements.TrimCQL` | cmd/root.go:163-167 | defines `trimCQL`: `strings.Trim` with `\n`, then with `\r`; its properties are the `Statements.TrimCQL…` lemmas below |
| `Statements.TrimCQLEnds` | cmd/root.go:163-167 | a trimmed statement neither starts nor ends with `\r` |
| `Statements.TrimCQLInfix` | cmd/root.go:163-167 | a trimmed statement is an infix of the original, and only `\n`/`\r` were cut around it |
| `Statements.TrimCQLOnlyNewlines` | cmd/root.go:163-167 | a statement made only of `\n` trims to the empty statement |
| `Statements.TrimCQLKeeps` | cmd/root.go:163-167 | a statement that neither starts nor ends with a line break is sent unchanged |
| `Statements.TrimCQLKeepsSpace` | cmd/root.go:163-175 | `" "` survives trimming, so it is not skipped |
| `Statements.TrimCQLWindowsBlankLine` | cmd/root.go:163-167 | `\r\n\r\n` trims to `\n`, and trimming that again gives `""` |
| `Lanes.Chunk` | cmd/root.go:122 | the chunks concatenate to the input; every chunk but the last has `size` elements; the last has 1 to `size`; there are no chunks exactly when the input is empty |
| `Lanes.ChunkCountBound` | cmd/root.go:122 | at most `n * size` elements give at most `n` chunks |
| `Lanes.ChunkSize` | cmd/root.go:122 | with truncating division, for positive `n` the size is the least count whose `n` multiples exceed the length; for negative `n` it is at most 1 |
| `Lanes.Partition` | cmd/root.go:122 | a thread count of 0 fails exactly with division by zero; a positive count always succeeds; on success the lanes concatenate to the statements and there are none exactly when there are no statements |
| `Lanes.PartitionLanes` | cmd/root.go:122 | for N ≥ 1 threads: at most N lanes, each full lane has `len/N + 1` statements, and the last lane is non-empty and no larger |
| `Lanes.PartitionFourOnFour` | cmd/root.go:122 | four statements on four threads give two lanes of two |
| `Lanes.PartitionFiveOnTwo` | cmd/root.go:122 | five statements on two threads give lanes of three and two |
| `Lanes.PartitionEmpty` | cmd/root.go:122 | no statements give no lanes, whatever the positive thread count |
| `LaneExecutor.Session.constructor` | cmd/root.go:113 | a new session has been sent nothing and answers with the given acceptance |
| `LaneExecutor.Session.Exec` | cmd/root.go:176 | executing appends the statement to what was sent and reports whether the cluster accepted it |
| `LaneExecutor.ExecutableAppend` | cmd/root.go:171-175 | the executable statements of two chunks joined are those of the first, then those of the second |
| `LaneExecutor.ExecutableShape` | cmd/root.go:171-175 | a lane never has more statements to send than its chunk holds, and none of them is empty |
| `LaneExecutor.FirstRejected` | cmd/root.go:176-178 | it finds the first rejected statement: all before it are accepted, and it is rejected unless it is the end |
| `LaneExecutor.Run` | cmd/root.go:171-185 | defines the lane over already trimmed statements: an empty one is skipped, a rejected one ends it with that error, after an accepted one a set stop signal ends it; its properties are `LaneExecutor.RunMatchesExpected` and `LaneExecutor.LaneSpec` |
| `LaneExecutor.Lane` | cmd/root.go:171-185 | defines a lane as `Run` over its statements after `trimCQL`; `LaneExecutor.ExecCQLs` is proved to send and return exactly this |
| `LaneExecutor.RunMatchesExpected` | cmd/root.go:171-185 | the lane equals the run stated on its executable statements as a whole: up to and including the first rejection, or only the first statement when stop is set |
| `LaneExecutor.LaneSpec` | cmd/root.go:169-188 | a lane sends a prefix of its executable statements, all accepted except perhaps the last; it completes exactly when all are accepted and stop does not cut it short, and then it sent them all; a failure names the rejected last statement; a stop follows exactly one accepted statement |
| `LaneExecutor.ExecCQLs` | cmd/root.go:169-188 | the loop sends exactly what the lane sends and returns its outcome |
| `LaneExecutor.LaneFirstRejected` | cmd/root.go:171-187 | without a stop signal a lane fails exactly when one of its executable statements is rejected, and then with the first such statement; otherwise it completes |
| `LaneExecutor.LaneStopAlreadySet` | cmd/root.go:176-184 | with stop already set, a lane still executes its first statement and stops right after it |
| `LaneExecutor.LaneSendsBlank` | cmd/root.go:171-175 | of `X`, `""`, `" "`, `Y`, the empty one is skipped and the other three are sent |
| `Runner.Dispatch` | cmd/root.go:123-133 | defines the lanes run one after another with the stop signal unset: what they send, in lane order, and the first outcome that is not `Completed`; its properties are `Runner.DispatchSpec` and `Runner.DispatchFirstFailure` |
| `Runner.DispatchSpec` | cmd/root.go:119-134 | for any lanes, the run never stops; it completes exactly when every executable statement of all lanes is accepted, and then it sent them all in order; a failure names a sent, rejected statement; what is sent is the executable statements with some left out, the rest in order |
| `Runner.FirstFailingLane` | cmd/root.go:126-130 | the index of the lowest lane with a rejected executable statement: every lane before it has all its statements accepted, and it has one rejected, unless it is the lane count |
| `Runner.DispatchFirstFailure` | cmd/root.go:126-133 | the error `Wait` reports is the first rejected executable statement of the lowest lane that has one; with no such lane the run completes |
| `Runner.DispatchKeepsGoing` | cmd/root.go:126-133 | when lane `[a]` fails, lane `[b]` still runs, and the error is `a`'s |
| `Runner.ErrGroup.constructor` | cmd/root.go:121 | a new group has started no lane and records the session's state so far |
| `Runner.ErrGroup.Go` | cmd/root.go:126-128 | starting a lane runs it on the session and adds it to the started lanes, keeping the recorded first error consistent |
| `Runner.ErrGroup.Wait` | cmd/root.go:130 | `Wait` returns the first error of the started lanes, or completion |
| `Runner.RunLanes` | cmd/root.go:120-134 | one lane per chunk: the session receives what the lanes send, in lane order, and the outcome is the first lane error |
| `Runner.RunRootCmd` | cmd/root.go:104-137 | a file that cannot be read and a session that cannot be created are errors with nothing sent; a failed partition is its own error; otherwise the session receives the lanes' statements, and the command fails exactly when a lane failed, with that lane's error |
| `Runner.RunRootCmdSpec` | cmd/root.go:104-137 | for any file and N ≥ 1 threads, the run succeeds exactly when every executable statement of the file is accepted, and then it sent each one once, in file order (lanes run in lane order in the model; the program interleaves lanes on the shared session, so file order holds only within each lane) |
| `Runner.RunSingleThread` | cmd/root.go:122 | one thread gives one lane holding every statement of the file |
| `Runner.RunEmptyFile` | cmd/root.go:106-134 | an empty file sends nothing and succeeds for any positive thread count |
| `Validation.ValidateStruct` | cmd/validation.go:26 | the struct check is nil exactly when the file and the keyspace are both set, and otherwise holds at least one error |
| `Validation.RequiredFieldErrors` | cmd/root.go:38-39 | defines what the validator reports for the options: a `required` error for an empty file, then one for an empty keyspace; its properties are `Validation.RequiredFieldErrorsSpec` and `Validation.ValidateStruct` |
| `Validation.RequiredFieldErrorsSpec` | cmd/root.go:38-39 | one `required` error per empty required field (file, then keyspace) and no others |
| `Validation.ExtractValidationErrors` | cmd/validation.go:30-40 | nil gives no errors; otherwise every field error, in order |
| `Validation.ValidateParams` | cmd/validation.go:25-28 | the errors are those of the required fields, and there are none exactly when both are set |
| `Validation.ValidationErrorToText` | cmd/validation.go:42-52 | defines the message: the flag text, then ` is required`, ` cannot be greater than <param>`, ` must be greater than <param>`, or ` is not valid <value>` by tag; its properties are `Validation.ValidationErrorToTextDetermines` and `Validation.RequiredTextOnlyForRequired` |
| `Validation.ValidationErrorToTextDetermines` | cmd/validation.go:42-52 | with the flag text fixed, two errors give the same message exactly when their tags are of the same kind (`required`, `max`, `min`, other) and they agree on the parameter for `max`/`min` and on the value for another tag |
| `Validation.RequiredTextOnlyForRequired` | cmd/validation.go:42-52 | a message reads `<text> is required` exactly when the tag is `required` |
| `PreRun.FlagText` | cmd/root.go:62-69 | defines how a message names a field: `-f or --file`, `-k or --keyspace`, or `unknown error field: <field>`; its property is `PreRun.FlagTextNames` |
| `PreRun.FlagTextNames` | cmd/root.go:62-69 | a message says `-f or --file` exactly for `CQLFile` and `-k or --keyspace` exactly for `Keyspace`; any other field is named after the unknown-field prefix |
| `PreRun.Messages` | cmd/root.go:59-71 | defines the `messages` slice: one line per validation error, in order, the error's text for the flag that names its field; its properties are `PreRun.RequiredMessages` and `PreRun.PreRunMessageLines` |
| `PreRun.PreRunMessage` | cmd/root.go:56-72 | defines the hook's result: none for no errors, otherwise the message lines joined by line breaks between a leading and a trailing line break; `PreRun.BuildPreRunError` and `PreRun.PreRunE` are proved equal to it, and `PreRun.PreRunMessageLines`, `PreRun.PreRunFileMissing` and `PreRun.PreRunBothMissing` state its lines and texts |
| `PreRun.BuildPreRunError` | cmd/root.go:56-73 | filling one message slot per error and joining them gives the framed message, or no error when there are none |
| `PreRun.PreRunE` | cmd/root.go:54-74 | the hook fails exactly when the file or the keyspace is missing, with the framed message lines of the errors |
| `PreRun.PreRunMessageLines` | cmd/root.go:72 | cut at line breaks, the error is an empty line, the messages in order, and an empty line |
| `PreRun.RequiredMessages` | cmd/root.go:59-71 | the lines are the file flag's line if the file is missing, then the keyspace flag's line if the keyspace is missing |
| `PreRun.PreRunFileMissing` | cmd/root.go:54-74 | with only the file missing, the error is `\n-f or --file is required\n` |
| `PreRun.PreRunBothMissing` | cmd/root.go:54-74 | with both missing, the error holds the file line, then the keyspace line |

## Left out

- Reading the file: `ioutil.ReadFile` is replaced by the `file` parameter of `Runner.RunRootCmd`, which is the text or `None`. The wrapped error's text is not modelled.
- `createSession` and the gocql cluster configuration (host list, keyspace, timeout, connection count, password authentication): a `connected` flag says whether a session was created. The `Session` class stands in for the connection, and its `accepts` function stands in for the cluster's answers.
- Cobra: flag registration, default values, `Execute` and `os.Exit` are not modelled. Options enter as a value of `Validation.Options`.
- Logging: the `log.Printf` lines and the `fmt.Printf` of the error are not modelled. The thread number is used only in logs, so `LaneExecutor.ExecCQLs` has no such parameter.
- Error text: the `errors.Wrap`/`Wrapf` messages and `"stop execute cql"` become the constructors of `LaneOutcome` and `RunError`.
- Concurrency: there is no goroutine interleaving. Lanes run one after another in lane order, so the model does not capture:
  - how statements from different lanes interleave on the shared session;
  - which failing lane reaches `Wait` first in time. The model reports the lowest failing lane.
- `Runner.RunLanes`: every lane runs with the stop signal unset. This is because the stop channel is closed only after `Wait`. The `stop` parameter of `LaneExecutor.ExecCQLs` is a fixed value for the whole lane, not a channel that could close mid-lane.
- The validator's reflection: only the two `required` tags the options carry are modelled, on string fields. `FieldError.value` is the `%s` rendering as a string, and `param` is empty for `required`.
- `funk.Chunk` for a chunk size of 0 or less (from a negative thread count) is not modelled. The model returns `ChunkSizeNotPositive`, whatever the library would do.
- `Lanes.Partition`: division by zero at 0 threads is a Go run-time panic. The model returns the error value `DivisionByZero` instead.
- A nil slice and an empty slice are both the empty sequence.
- Encoding: the file's text is a Dafny `string`, a sequence of Unicode characters, while `string(f)`, `strings.Split` and `strings.Trim` work on bytes. Because `;`, `\n` and `\r` are ASCII the two agree on every valid UTF-8 file, but a file that is not valid UTF-8 cannot be represented.
- `LaneExecutor.Session`: the cluster's answer is a fixed function of the statement's text. It does not depend on what was executed before, on this lane or another. So the model cannot represent a second `CREATE TABLE t` that Cassandra rejects after accepting the first, or an `INSERT` that succeeds only after a `CREATE` in another lane. `Runner.RunRootCmdSpec` ("succeeds exactly when every executable statement is accepted") holds under this assumption.
