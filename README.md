# terminal-ia in Dafny

terminal-ia is an interactive terminal assistant written in Go (`main.go`). It
reads a line, runs plain input with `bash -c`, turns `/` requests into shell
commands through a local language-model service and asks before running them,
keeps a semantic history of the shell commands that succeeded so `/buscar` can
rank them by embedding similarity, holds a `/chat` transcript, and has a
`/config` menu. This project models the decision and data-structure logic of
that loop. The service's answers, embeddings, similarity scores, the user's
replies and bash's exit status are all inputs.

Modules, one per concern:

- `Wrappers` (`wrappers.dfy`): `Option`.
- `GoStrings` (`gostrings.dfy`): the Go library functions the logic relies on.
  These are `strings.TrimSpace` (with Go's full `unicode.IsSpace` set),
  `HasPrefix`, `HasSuffix`, `TrimPrefix`, `TrimSuffix`, a one-character
  `Index`, `ToLower` and `strconv.Atoi` (an optional sign, decimal digits,
  64-bit range). It also defines `Join`, which `main.go` does not call: it is
  the reference that the directory snippet's `strings.Builder` loop is proved
  against.
- `CommandText` (`commandtext.dfy`): `sanitizeIACommand`, `shouldColorOutput`,
  the ` --color=always` rewrite of plain shell input, and the 2048-byte stderr
  cap of `handleDebugCommand`.
- `SemanticStore` (`semanticstore.dfy`): the semantic history and its file. The
  `HistoryStore` class has `Load`, `Save`, `Record` and `Clear` methods.
  Each is specified by a function of the old state.
- `RankedSearch` (`rankedsearch.dfy`): the three-slot ranking of
  `handleSearchCommand`. The in-place insertion works on an `array` and is
  proved against a function on sequences. The ranking and optimality
  properties are proved about that function.
- `Decisions` (`decisions.dfy`): how the user's answers are read. This covers
  the confirmation switch for generated commands, the search-result selection
  loop and the configuration menu.
- `Transcript` (`transcript.dfy`): the chat transcript of `handleChatCommand`,
  held by a `ChatLog` class.
- `DirSnippet` (`dirsnippet.dfy`): `getDirectorySnippet`, as a method with the
  builder loop, proved equal to a fold over the directory entries.
- `Agent` (`agent.dfy`): the main loop. `Classify` classifies a trimmed line.
  The `Session` class holds the mode flag, the model, the transcript and the
  history. `Dispatch` handles one line and `Run` runs the loop. Each piece of
  session state after a line is given by a function, and lemmas about those
  functions state how the mode flag, the history and the transcript may change.

Three facts about the source came out of the proofs. The line is trimmed
before any branch runs, so `cd `, `/tiempo `, `/traducir `, `/chat ` and
`/buscar ` can never leave an empty argument. Their empty-request messages and
the `dir == ""` case of `cd` are dead code; only a lone `/` reaches an
empty-request message (`Agent.EmptyRequestOnlySlash`). A bare `cd` does not
match `cd ` at all: it runs in a bash subshell, which leaves the working
directory unchanged, and if it succeeds it is recorded in the semantic history
(`Agent.BareCdGoesToShell`).

## Model

| member | source | states |
|---|---|---|
| GoStrings.TrimSpace | main.go:499 | The result has no white space at either end and is no longer than the input. |
| GoStrings.TrimSpacePadded | main.go:499 | Trimming a trimmed text padded with any white space on both sides gives back exactly that text. |
| GoStrings.TrimAllSpace | main.go:500 | A line made only of white space trims to the empty line, which the loop skips. |
| GoStrings.TrimSpaceOfTrimmed | main.go:684 | Trimming is the identity on trimmed text, so trimming twice is trimming once. |
| GoStrings.TrimSpaceKeepsLast | main.go:509 | A text ending in a non-space trims to a non-empty text ending in that character. |
| GoStrings.Index | main.go:641-648 | Returns -1 exactly when the character is absent; otherwise its first position. |
| GoStrings.Atoi | main.go:1329 | A parsed value lies in the 64-bit signed range. |
| GoStrings.AtoiValue | main.go:1329-1330 | An optional `+` or `-` followed by one or more digits parses to its signed decimal value when that fits in 64 bits, and is an error otherwise. |
| GoStrings.AtoiOnlyNumerals | main.go:1329-1330 | Only a run of digits, with or without one leading `+` or `-`, parses; unsigned digits parse to their value. |
| GoStrings.AtoiAcceptsSignAndZeros | main.go:1329-1330 | A single digit k written with leading zeros, with or without a leading `+`, parses to k. |
| CommandText.StripLanguageTag | main.go:693-699 | At most one leading `bash\n`, `sh\n` or `shell\n` is removed, `bash\n` first; text without a tag is unchanged. |
| CommandText.StripEachTag | main.go:693-699 | Each of the three tags followed by a newline is removed, and nothing after it. |
| CommandText.NoTagAfterNewline | main.go:693-699 | A body that starts with the newline (no tag) keeps it. |
| CommandText.Sanitize | main.go:683-714 | The cleaned command never has leading or trailing white space. |
| CommandText.SanitizeFenced | main.go:687-702 | A trimmed reply wrapped in triple backticks loses both fences and at most one tag, then is trimmed. |
| CommandText.SanitizeBetweenFences | main.go:687-702 | Any text between two fences comes out with at most its tag removed, trimmed. |
| CommandText.SanitizeOverlappingFences | main.go:687-709 | Overlapping fences: three to five backticks lose only the first fence and clean to zero to two backticks, and a lone backtick cleans to nothing. |
| CommandText.SanitizeTicked | main.go:705-709 | A reply in one backtick pair (and not fenced) loses that pair and is trimmed. |
| CommandText.SanitizePlain | main.go:684-713 | A reply neither fenced nor quoted comes back trimmed and otherwise unchanged, interior newlines included. |
| CommandText.FencedBodyCleans | main.go:693-701 | The inside of a fence built around a trimmed command, with any of the tags or none, cleans to the command. |
| CommandText.SanitizeFenceRoundTrip | main.go:687-702 | Wrapping a trimmed command in a fenced block, with or without a tag, and sanitizing gives the command back. |
| CommandText.SanitizeTickRoundTrip | main.go:705-709 | Wrapping a trimmed command without backticks in backticks and sanitizing gives it back. |
| CommandText.FirstWord | main.go:641-648 | The first word is a space-free prefix of the text, followed by a space or by the end. |
| CommandText.MatchIsFirstWord | main.go:1098-1102 | For a space-free name, "equals it, or starts with it and a space" is "its first word is the name". |
| CommandText.AnyColorCommandByFirstWord | main.go:1098-1102 | The scan over the listed programs succeeds exactly when the first word is listed. |
| CommandText.ShouldColorByFirstWord | main.go:1090-1104 | Colour is added exactly when the first word of the trimmed command is ls, grep, diff, git, kubectl, docker or tree. |
| CommandText.WithColorFlag | main.go:640-649 | The rewrite is the first word, then ` --color=always`, then the rest of the input. |
| CommandText.FlagAfterFirstWord | main.go:640-649 | The rewrite keeps the first word, and cutting the flag out gives back the input. |
| CommandText.FlagKeepsTrimmed | main.go:640-649 | Rewriting a non-empty trimmed command leaves it trimmed. |
| CommandText.ColorRewriteKeepsCommand | main.go:639-649 | A rewritten command keeps its program name, differs from the input only by the flag, and would itself still be coloured. |
| CommandText.TruncateStderr | main.go:1052-1054 | Stderr of at most 2048 bytes passes whole; longer stderr keeps exactly its first 2048 bytes plus the note. |
| SemanticStore.Loaded | main.go:1154-1174 | A missing, unreadable or unparsable file loads as the empty history; a parsed one loads as its entries. |
| SemanticStore.Recorded | main.go:1193-1228 | Either nothing changes or one entry with the command and its embedding is appended. It changes exactly when the command is not empty, `/…` or `cd …`, is not already stored, and the embedding call succeeded. |
| SemanticStore.RecordKeepsUnique | main.go:1199-1206 | Recording never puts a second entry with the same command into a history without duplicates. |
| SemanticStore.OccurrencesOfUnique | main.go:1199-1206 | In a history without duplicates a stored command occurs exactly once. |
| SemanticStore.RecordTwice | main.go:1199-1225 | Recording a command twice leaves exactly one entry for it; the second recording changes nothing. |
| SemanticStore.HistoryStore.constructor | main.go:62-63 | A new store holds no entries and the given file. |
| SemanticStore.HistoryStore.Load | main.go:1154-1174 | The entries become what the file loads as; the file is unchanged. |
| SemanticStore.HistoryStore.Save | main.go:1177-1190 | The file becomes a parsed copy of the entries and loads back as them. |
| SemanticStore.HistoryStore.Record | main.go:1193-1228 | The entries become `Recorded` of the old ones. The file is rewritten exactly when they changed. No duplicates is preserved. |
| SemanticStore.HistoryStore.Clear | main.go:1504-1509 | The entries become empty and the file becomes the literal `[]`, which loads as empty. |
| RankedSearch.Scored | main.go:1261-1262 | One candidate per history entry, in order, carrying that entry's command and its similarity to the query. |
| RankedSearch.InsertHolds | main.go:1265-1275 | After one insertion every slot is a seed or holds a scanned entry with its own command and score. |
| RankedSearch.InsertOrdered | main.go:1265-1275 | After one insertion the entry slots come first, best first, equal scores in insertion order. |
| RankedSearch.InsertLeftOut | main.go:1265-1275 | After one insertion every scanned entry not in the buffer ranks after every slot. |
| RankedSearch.InsertKeepsRanked | main.go:1265-1275 | One insertion preserves the whole ranking invariant. |
| RankedSearch.TopRanked | main.go:1254-1276 | The buffer after the scan satisfies the ranking invariant over all entries. |
| RankedSearch.RelevantStep | main.go:1281-1285 | The filter over one more slot appends that slot exactly when its score exceeds 0.1. |
| RankedSearch.RelevantOfThree | main.go:1279-1285 | On a non-increasing buffer the filter keeps the prefix of slots scoring above 0.1. |
| RankedSearch.ChosenShape | main.go:1254-1285 | At most 3 results are offered. Each is a real entry scoring above 0.1. Scores are non-increasing, equal scores keep insertion order, and no entry appears twice. |
| RankedSearch.ChosenOptimal | main.go:1261-1285 | An entry not offered scores at most 0.1, or all three offered entries rank before it. |
| RankedSearch.LowScoresNeverEnter | main.go:1266 | An entry scoring -1.0 or less never enters the buffer. |
| RankedSearch.PlaceInTop | main.go:1265-1275 | The in-place shift and insert on the three-element array equals the specification's insertion. |
| RankedSearch.ProjectSnoc | main.go:1283 | Appending a slot appends its command and score to the projected results. |
| RankedSearch.KeepRelevant | main.go:1279-1285 | The filter loop returns exactly the slots scoring above 0.1, in order. |
| RankedSearch.TopMatches | main.go:1254-1285 | The seeded buffer, the scan and the filter return exactly the chosen slots' commands and scores. |
| Decisions.Confirm | main.go:1001-1047 | The sanitized command runs exactly when the trimmed, lowercased answer is `s` or `x`. Auto mode is switched on exactly for `x`. A failed call or a prompt error runs nothing. |
| Decisions.AutoOnlyWithRun | main.go:1029-1043 | Auto mode is never switched on without running the command. |
| Decisions.AutoRun | main.go:944-957 | In auto mode the sanitized command runs exactly when the service call succeeded. |
| Decisions.SelectionMeaning | main.go:1310-1333 | `x` in any case, trimmed, picks result 1. A number k in 1..n picks k. Every pick is within 1..n. Only result 1 comes with `x`. |
| Decisions.SelectFromFirstDecisive | main.go:1306-1336 | The loop's outcome is decided by the first reply that is not a retry. |
| Decisions.SelectFromAllRetries | main.go:1306-1336 | Replies that are all invalid, followed by end of input, cancel. |
| Decisions.SelectFromInRange | main.go:1306-1345 | A chosen result is within 1..n, and auto mode comes only with result 1. |
| Decisions.SelectLoop | main.go:1306-1345 | The re-prompting loop returns the outcome of the specification over the same replies. |
| Decisions.MenuRunTurn | main.go:1456-1523 | A reply that ends the menu fixes the model and the mode, and ends the process exactly when it is option 1 and the chooser does not return. Any other reply only adds what it cleared. |
| Decisions.MenuEnd | main.go:1456-1491 | The position of the first reply that ends the menu: no earlier one does. |
| Decisions.MenuModeAndModel | main.go:1456-1491 | The mode changes exactly when option 2 ends the menu. The model is the chooser's exactly when option 1 ends it and the chooser returns one. `q`, an error or end of input keep both. The process ends exactly when option 1 ends the menu and the chooser does not return. |
| Decisions.MenuClearsHistory | main.go:1501-1512 | The history is cleared exactly when option 4 was chosen before the menu ended. |
| Transcript.Request | main.go:805-814 | What is sent is the transcript plus the user turn. The system turn is added in front exactly when the transcript was empty. |
| Transcript.FailedTurn | main.go:841-852 | A failed or cancelled turn leaves the transcript as it was, plus the system turn if it was empty. |
| Transcript.RepliedTurn | main.go:853-858 | A successful turn appends the user turn and the assistant reply (after the system turn if it was empty) and keeps what was there. |
| Transcript.StartsWithSystem | main.go:805-858 | A transcript that was empty or started with the system turn starts with it after any turn. |
| Transcript.ChatLog.constructor | main.go:60 | The transcript starts empty. |
| Transcript.ChatLog.Turn | main.go:804-859 | The transcript becomes `ChatAfter` of the old one. |
| Transcript.ChatLog.Clear | main.go:543-544 | `/reset` and option 5 empty the transcript. |
| DirSnippet.SkippedNames | main.go:1389-1397 | An entry is left out exactly when it is a dot-name other than `.git`, `.` and `..`, or is `vendor`, `node_modules` or `terminal-ia`. |
| DirSnippet.Label | main.go:1404-1409 | A directory is labelled with a trailing `/`, anything else by its name. |
| DirSnippet.KeptEntries | main.go:1386-1398 | The kept labels are exactly the labels of the entries not left out. |
| DirSnippet.KeptPrefix | main.go:1386-1398 | More entries only extend the kept labels. |
| DirSnippet.Listed | main.go:1400-1402 | At most ten labels are listed. |
| DirSnippet.SnippetShape | main.go:1386-1413 | The listing is the first labels in directory order, ten of them when at least ten are kept. |
| DirSnippet.TerminatedSnoc | main.go:1404-1411 | Writing one more label and separator extends the builder's text. |
| DirSnippet.TerminatedIsJoin | main.go:1415-1418 | The builder's text is the joined labels plus one separator. |
| DirSnippet.TrimLastSeparator | main.go:1417 | Cutting the last separator gives exactly the joined labels. |
| DirSnippet.ListedSaturated | main.go:1400-1402 | Once ten labels are written, later entries change nothing. |
| DirSnippet.Snippet | main.go:1368-1420 | The loop returns the first ten kept labels joined by `, ` with no trailing separator, or the empty text when the directory cannot be read. |
| Agent.ArgumentNonEmpty | main.go:577-579 | After a prefix, a trimmed line with more text leaves a non-empty argument. |
| Agent.EmptyRequestOnlySlash | main.go:499-628 | Only a lone `/` is reported as an empty request, and `cd ` always has a directory. |
| Agent.ShellBranch | main.go:499-637 | What reaches the shell branch is the trimmed line, not empty, not `/…` and not `cd …`. |
| Agent.ColorCommandHead | main.go:1094-1096 | No listed program name starts with `/` or `cd`. |
| Agent.RewriteRecordable | main.go:639-663 | The colour rewrite keeps a recordable command recordable. |
| Agent.ShellInputRecordable | main.go:637-663 | Plain shell input is trimmed, and its rewritten form passes the history's filter. |
| Agent.BareCdGoesToShell | main.go:508 | A bare `cd` goes to bash unchanged, and the history filter accepts it. |
| Agent.SearchRunsStoredMatch | main.go:1232-1345 | A search runs only a stored command scoring above 0.1 that is among the offered results; `x` runs the best one offered. |
| Agent.ModeChanges | main.go:537-635 | `/ask` sets the mode false. `/config` changes it exactly when option 2 ends the menu. `/buscar` and a confirmed request can only set it true. Auto-mode generation keeps it. No other line changes it. |
| Agent.OnlyShellRecords | main.go:637-663 | The history grows only by a successful plain shell line, by one entry at the end holding the rewritten command, and is otherwise only cleared by option 4. Searches and generation requests never record. |
| Agent.ShellLineRecorded | main.go:660-663 | A successful new shell command with an embedding is appended to the history. |
| Agent.HistoryStaysUnique | main.go:1199-1225 | No line makes the history hold two entries with the same command. |
| Agent.TranscriptStaysRooted | main.go:543-804 | The transcript stays empty or starting with the system turn across every line. |
| Agent.Session.constructor | main.go:424-446 | The session starts in ask mode with the chosen model, an empty transcript and the history loaded from the file. |
| Agent.Session.SearchHistory | main.go:1232-1345 | Returns the outcome of the search specification over the current history. |
| Agent.Session.MenuTurn | main.go:1457-1523 | One menu answer: whether it ends the menu or the process, with which model and mode, and what it cleared. |
| Agent.Session.Configure | main.go:1424-1525 | The menu loop returns the specification's model and mode, and whether the chooser ended the process. It clears the history, its file and the transcript as the specification says. |
| Agent.Session.RunSearch | main.go:607-618 | `/buscar` runs the selected command and switches auto mode on only for `x`. |
| Agent.Session.RunGenerated | main.go:621-635 | `/` runs at once in auto mode, otherwise asks; only `x` switches auto mode on. |
| Agent.Session.Perform | main.go:504-671 | The branches leave the mode, model, transcript, history and file in the state the per-line functions give. |
| Agent.Session.Dispatch | main.go:499-671 | One line classified and handled, with the command handed to bash and the whole new session state. The loop stops exactly on `exit`/`quit`, or on `/model` or `/config` option 1 when the model chooser ends the process. |
| Agent.Consumed | main.go:480-506 | The loop reads up to and including the first stopping read, or every read. A stopping read is end of input, `exit`/`quit`, or a `/model` or `/config` line whose model chooser ends the process. No earlier read stops, and interrupted reads are consumed. |
| Agent.CancelledModelChoiceStops | main.go:524-526 | A `/model` line whose chooser ends the process (main.go:257-262) is the last read consumed and leaves the session state unchanged. |
| Agent.RunKeepsUnique | main.go:449-671 | Over any sequence of reads, a history without duplicates never gains one. |
| Agent.RunKeepsRooted | main.go:449-671 | Over any sequence of reads, a transcript that is empty or starts with the system turn keeps that shape. |
| Agent.Session.Run | main.go:449-671 | Runs from any loaded state. It consumes exactly the reads up to and including the first that stops it (end of input, `exit`/`quit`, or a model choice that ends the process), skipping interrupted ones. The mode, model, transcript, history and file end as `RunAfter` folds the per-line changes. A history without duplicates stays without them, and a rooted transcript stays rooted. |

## Left out

- The language-model service: `getEmbedding`, `client.Generate` and `client.Chat` are network calls. Their results are inputs. `handleDebugCommand`'s analysis call and `handleWeatherCommand`, `handleTranslateCommand` and `checkVersion` (HTTP and text plumbing) are not modelled; `/tiempo`, `/traducir`, `/help` only classify.
- `cosineSimilarity`, `dotProduct`, `magnitude`: floating point with `math.Sqrt`. The ranking takes the similarity as a function over `real`s, so IEEE rounding and NaN are out of scope.
- Running bash and its output buffers: success or failure is an input. `os.Chdir` is not modelled, so `ChangeDir` changes no modelled state.
- Concurrency: goroutines, `sync.Mutex` and signal cancellation. Recording runs synchronously inside the line that triggered it. In the source it runs in a goroutine, and its duplicate check and its append are two separate locked sections (main.go:1200-1225). Two concurrent calls can therefore both append the same command; a sequential model cannot show that.
- JSON encoding and file I/O: the history file is an abstract state (absent, unreadable, unparsable bytes, or parsed entries). Write failures in `saveSemanticHistory` and menu option 4 are not modelled. The history is loaded at start-up even when the home directory is unknown.
- The `liner` line editor: prompts are a finite sequence of replies, and running out of replies is end of input. The readline history file, `AppendHistory`, tab completion with `filepath.Glob`, `chooseModel`'s numbered list and its re-prompting (its outcome is an input: a model, or none when its `log.Fatal` ends the process on a cancelled prompt or a failed listing; the model then stops the loop and keeps the state as the line left it), `warmUpModel`, the logos, colours, screen clearing and the prompt text are left out.
- The prompt templates sent to the service, including the directory snippet's place in them. The snippet itself is modelled.
- GoStrings.ToLower: only ASCII letters are lowered. No non-ASCII character lowers to `s`, `x`, `q`, `n` or a digit, so every decision that compares a lowered answer is unaffected.
- GoStrings.Atoi: modelled for a 64-bit `int`.
