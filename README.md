# mpv debug console — a verified model

This project models the debug console of the mpv ImGui plugin (`src/debug.cpp`, with its state
declared in `src/debug.h`). It also models the small formatting rules that surround the console.

The console keeps a bounded log of `(text, level)` entries. It keeps a history of submitted lines,
with no two entries equal ignoring case. It keeps a seeded list of command names for TAB
completion, and a 256-byte input line. On Enter the trimmed line is executed:

- The line is echoed to the log.
- It is recorded in the history, where it replaces an earlier equal entry.
- `CLEAR`, `HELP` and `HISTORY` (ignoring case) are handled by the console itself.
- Any other line is handed to the player.

TAB completes the word before the cursor. Up and Down browse the history.

The model is split into modules:

- `Util`: `Option`, `Min`, `Max`.
- `Text`: the ASCII case fold behind case-insensitive comparison, blank trimming, decimal
  rendering and its inverse, padding, and joining/splitting.
- `MpvNode`: the player's node tree, as a datatype.
- `Log`: log entries, truncation and eviction.
- `History`: de-duplicated recording, and cursor movement.
- `Edit`: the toolkit's two edits of the input buffer.
- `Completion`: the completion branch of the edit callback, as pure functions and the loops that
  compute them.
- `CommandList`: `formatCommands`.
- `PropertyView`: the value text of a property row, the labels of the property tree, the binding
  title and the two list filters.
- `DebugConsole`: the `Console` class, whose methods update its fields in place. Beside it sit the
  functions that state what a submitted line logs, and the lemmas about them.

The player is an oracle:

- Executing a line takes `run: string -> HostReply`. This stands for `mpv_command_string`, with
  `mpv_error_string` for the failure text.
- HELP takes the `command-list` property as a `Node`.

## Model

| member | source | states |
|---|---|---|
| Log.Truncate | src/debug.cpp:357-362 | a message keeps exactly its first min(length, 1023) characters |
| Log.Retain | src/debug.cpp:365-369 | eviction keeps exactly the newest min(size, limit) entries, in order |
| Log.RetainAppend | src/debug.cpp:364-369 | evicting after every append gives the same log as evicting once after all of them |
| Log.AppendAppend | src/debug.cpp:364-369 | logging two batches one after the other is logging their concatenation |
| Log.AppendKeepsNewest | src/debug.cpp:364-369 | after a non-empty batch the log has min(old + batch, limit) entries, is the tail of old log followed by the batch, and ends with the whole batch when the batch fits |
| DebugConsole.AppendBounded | src/debug.cpp:357-364 | appending keeps every stored text within 1023 characters |
| DebugConsole.Console.AddLog | src/debug.cpp:356-370 | the new log is the newest LogLimit entries of old log plus the truncated entry; size at most LogLimit; the new entry is last when LogLimit >= 1; no other field changes |
| DebugConsole.Console.ClearLog | src/debug.cpp:351-354 | the log becomes empty and nothing else changes |
| DebugConsole.Console.constructor | src/debug.h:51-62 | empty log, history and command names, fresh-line cursor -1, empty input, auto-scroll on, scroll-to-bottom off, not seeded, level "status", limit 5000 |
| DebugConsole.Console.Init | src/debug.cpp:338-341 | sets the level and the limit and nothing else; the log is cut only by the next append |
| DebugConsole.Console.InitCommands | src/debug.cpp:344-349 | the first call seeds HELP, CLEAR, HISTORY and then the command names in order; once seeded, a call changes nothing |
| History.LastMatch | src/debug.cpp:474-479 | the index found is -1 or an entry equal ignoring case, and no later entry is equal |
| History.Recorded | src/debug.cpp:473-480 | the line is the newest entry and the history grows by at most one |
| History.RecordedShape | src/debug.cpp:474-480 | without an equal entry the line is appended; otherwise exactly the newest equal entry is removed, the others keep their order, and the line is appended |
| History.RecordedUnique | src/debug.cpp:474-480 | a history without case-insensitive duplicates keeps none, and the line occurs once, as the newest entry |
| DebugConsole.Console.RecordLine | src/debug.cpp:473-480 | the backwards search and erase leave the history equal to Recorded, free of duplicates ignoring case |
| History.Navigate | src/debug.cpp:565-574 | the cursor stays in -1 .. size - 1 |
| History.DownUndoesUp | src/debug.cpp:566-574 | Down undoes Up except at the oldest entry, where Up clamps |
| History.UpUndoesDown | src/debug.cpp:566-574 | Up undoes Down on every entry |
| History.NavigateExample | src/debug.cpp:566-574 | Up, Up, Down, Down over three entries shows the newest, the one before, the newest, then the fresh line |
| DebugConsole.BuiltinsDistinct | src/debug.cpp:482-494 | CLEAR, HELP and HISTORY never match one line together, so one dispatch branch applies |
| DebugConsole.ExecLog | src/debug.cpp:470-504 | the log after a line other than CLEAR is the echo logged, then the dispatched batch logged |
| DebugConsole.Dispatched | src/debug.cpp:484-504 | every branch but HISTORY logs at least one line, each within 1023 characters, and a line is logged at a level other than info exactly when the player rejects a non-built-in line |
| DebugConsole.LogAfterExec | src/debug.cpp:470-504 | the log stays within its limit, is empty exactly after CLEAR (or with a zero limit), and otherwise ends with the last line of the echo and the dispatched batch |
| DebugConsole.ExecClearEmpties | src/debug.cpp:470-483 | CLEAR leaves the log empty, its own echo included |
| DebugConsole.HistoryBatch | src/debug.cpp:494-496 | HISTORY logs min(size, 10) lines, entry max(0, size - 10) + k as line k, in ascending index order |
| DebugConsole.ExecHistoryEndsWithLine | src/debug.cpp:480-496 | the last line HISTORY logs is the HISTORY line itself, just recorded as the newest entry |
| DebugConsole.ExecHelpLists | src/debug.cpp:484-493 | HELP logs the header, the three built-in names, the second header, then one "- name args" line per formatted command |
| DebugConsole.ExecHostLine | src/debug.cpp:497-503 | any other line logs its echo then "[mpv] Success" at info level, or the player's error text at error level |
| DebugConsole.UpRecallsLast | src/debug.cpp:565-579 | Up on a fresh line just after submitting a line puts that line back in the input with the cursor at its end |
| DebugConsole.Console.ExecCommand | src/debug.cpp:470-507 | history is Recorded(old, line) with cursor -1; the log is LogAfterExec of the old log; scroll-to-bottom is set; settings and input unchanged |
| DebugConsole.Console.EchoAndRecord | src/debug.cpp:471-480 | the echo is logged, the cursor is back at -1, and the history is Recorded: no earlier entry equals the line ignoring case |
| DebugConsole.Console.Dispatch | src/debug.cpp:484-504 | a line other than CLEAR appends exactly the batch Dispatched names; the HISTORY step logs the HISTORY lines of the current history in order |
| DebugConsole.Console.ShowHelp | src/debug.cpp:484-493 | appends the HELP lines, built-ins then formatted commands |
| DebugConsole.Console.ListBuiltins | src/debug.cpp:486 | appends one "- name" line per built-in command, in order |
| DebugConsole.Console.ListCommands | src/debug.cpp:492 | appends one "- name args" line per formatted command, in order |
| DebugConsole.Console.RunOnHost | src/debug.cpp:497-503 | appends the player's reply as one entry |
| DebugConsole.Console.LogInfos | src/debug.cpp:550-559 | appends the given lines at info level, in order, as one batch |
| DebugConsole.Console.Submit | src/debug.cpp:450-454 | the input is trimmed of blanks; a blank line changes nothing but the input, any other is executed as ExecCommand states; the input is emptied |
| DebugConsole.Console.TextEditCallback | src/debug.cpp:509-584 | TAB sets the line to Complete's edit and logs its lines; an arrow key moves the cursor by Navigate and replaces the line by the entry (or empties it) exactly when the cursor moved |
| Text.TrimBlanks | src/debug.cpp:451 | the result is the input with its leading and trailing blanks removed: blanks before and after it, none at either of its ends, and empty exactly when the input is all blanks |
| Text.TrimBlanksIdempotent | src/debug.cpp:451 | trimming twice is trimming once |
| Text.ParseIntString | src/debug.cpp:270-271 | an integer's decimal text reads back as the integer |
| Text.PadLeft | src/debug.cpp:496 | right-aligns in a field of the given width, spaces in front |
| Text.PadRight | src/debug.cpp:553 | left-aligns in a field of the given width, spaces after |
| Text.SplitJoin | src/debug.cpp:120 | arguments joined by single spaces split back into the same arguments, when none contains a space |
| Text.JoinLength | src/debug.cpp:120 | joining puts exactly one separator between neighbouring arguments |
| Edit.DeleteChars | src/debug.cpp:546 | a well-formed line stays well-formed |
| Edit.InsertChars | src/debug.cpp:547 | a well-formed line stays well-formed |
| Edit.ReplaceAllResult | src/debug.cpp:576-580 | replacing the whole line leaves exactly the new text with the cursor after it, or an empty line when the text does not fit |
| Completion.WordStart | src/debug.cpp:512-519 | the word before the cursor is the longest run ending there with no space, tab, comma or semicolon |
| Completion.FindWordStart | src/debug.cpp:512-519 | the backwards scan stops at WordStart |
| Completion.Candidates | src/debug.cpp:520-524 | exactly the commands that start with the word ignoring case |
| Completion.CandidatesConcat | src/debug.cpp:520-524 | candidates keep the commands' relative order |
| Completion.CollectCandidates | src/debug.cpp:520-524 | the loop collects exactly Candidates |
| Completion.MatchEnd | src/debug.cpp:532-543 | the common prefix length is at least the word's length and at most the first candidate's |
| Completion.CommonPrefixEnd | src/debug.cpp:532-543 | the match_len loop ends at MatchEnd |
| Completion.MatchEndAgrees | src/debug.cpp:532-543 | every candidate agrees ignoring case with the first on the first MatchEnd characters |
| Completion.Row | src/debug.cpp:553 | a row has at least 32 columns per name |
| Completion.Listing | src/debug.cpp:551-559 | the candidates take ceil(n / 3) lines |
| Completion.ListingLines | src/debug.cpp:551-559 | the listing loop emits exactly Listing: every third name ends a line and a partial last line is emitted |
| Completion.Complete | src/debug.cpp:511-561 | a well-formed line stays well-formed |
| Completion.CompleteLine | src/debug.cpp:511-561 | the completion branch's loops compute exactly Complete |
| Completion.CompleteNoMatch | src/debug.cpp:525-526 | no match: the line is unchanged and one "No match" line is logged |
| Completion.CompleteSingle | src/debug.cpp:527-530 | one match: the word becomes the match plus a space, the cursor is after the space, nothing is logged |
| Completion.CompleteSeveral | src/debug.cpp:531-559 | several matches: the word becomes the first candidate's first m characters, where m is maximal and every candidate agrees on them; a header and ceil(n / 3) lines are logged |
| CommandList.Lookup | src/debug.cpp:97-100 | a missing key gives None; otherwise the value of the last entry with that key |
| CommandList.LookupSnoc | src/debug.cpp:106-110 | reading one more entry overrides the value exactly when it carries the key |
| CommandList.FormatArg | src/debug.cpp:103-112 | the loop over an argument map gives ArgText: the name, in angle brackets when optional |
| CommandList.FormatArgs | src/debug.cpp:102-113 | the loop over the argument list gives ArgTexts: one text per argument, in order |
| CommandList.Signature | src/debug.cpp:118-122 | the signature is empty without arguments; otherwise as long as the arguments together, plus one space between neighbours, plus four for " ..." when variadic |
| CommandList.FormatCommand | src/debug.cpp:93-123 | the loops over a command map give CommandOf: None without a name, else the name and its signature |
| CommandList.FormatCommands | src/debug.cpp:91-125 | the outer loop gives Formatted |
| CommandList.CommandsInConcat | src/debug.cpp:92-124 | the entries keep the order of the list |
| CommandList.UnnamedSkipped | src/debug.cpp:117 | a command map without a name adds no entry |
| CommandList.SignatureSplit | src/debug.cpp:118-122 | a non-empty signature splits at spaces into the arguments, then "..." exactly when variadic |
| CommandList.CommandOfEncoded | src/debug.cpp:93-123 | a command map built from a name, arguments and a vararg flag formats to the expected name and signature |
| CommandList.FormatCommandList | src/debug.cpp:91-125 | a command list built from any sequence of commands formats to their expected entries, one per command, in order |
| PropertyView.ValueText | src/debug.cpp:258-283 | only an empty value and a format without a case are dimmed, shown as "<Empty>" and "<Unavailable>" |
| PropertyView.ValueTextCases | src/debug.cpp:263-269 | strings are shown verbatim, flags as yes or no |
| PropertyView.ValueTextInt | src/debug.cpp:270-271 | an integer's text reads back as the integer |
| PropertyView.Render | src/debug.cpp:302-320 | arrays and maps become branches with one child per element or entry; anything else a single row carrying its value text |
| PropertyView.RenderLeaves | src/debug.cpp:302-320 | every scalar of a property, however deeply nested, is drawn as one row carrying its value text, in the order the player lists them |
| PropertyView.RenderNestedExample | src/debug.cpp:302-320 | a string inside a map inside an array renders as closed "p [1]" over open "#0 (1)" over the row |
| PropertyView.MapInMapStartsClosed | src/debug.cpp:310-315 | a map directly inside a map starts closed even below the top level |
| PropertyView.BindingTitleAsWritten | src/debug.cpp:69-72 | as written: the title starts with the comment (or command) cut to 50 characters, is at most 53 long, and is longer than 50 exactly when the comment has 50 or more characters |
| PropertyView.BindingTitleFiftyChars | src/debug.cpp:69-72 | as written, a 50-character comment gets the ellipsis although nothing was cut |
| PropertyView.BindingTitle | src/debug.cpp:69-72 | corrected rule: the comment, or the command without one, keeps its first min(length, 50) characters; it is 53 characters long ending in "..." exactly when it was longer than 50, else it is whole |
| PropertyView.BindingTitleAgrees | src/debug.cpp:69-72 | the rule as written and the corrected rule differ exactly on titles of 50 characters |
| PropertyView.FilterProperties | src/debug.cpp:238-239 | exactly the properties whose name contains the filter, or all of them for an empty filter; the order is kept, as FilterPropertiesConcat states |
| PropertyView.FilterPropertiesConcat | src/debug.cpp:238-239 | filtering distributes over concatenation, so shown properties keep the order of the list |
| PropertyView.FilterPropertiesEmpty | src/debug.cpp:239 | an empty filter shows every property in order |
| PropertyView.EmptyPatternContained | src/debug.cpp:239 | the empty filter test agrees with the substring search |
| PropertyView.FilterCommands | src/debug.cpp:181-182 | exactly the commands whose name starts with the filter; the order is kept, as FilterCommandsConcat states |
| PropertyView.FilterCommandsConcat | src/debug.cpp:181-182 | filtering distributes over concatenation, so shown commands keep the order of the list |
| PropertyView.FilterCommandsNarrows | src/debug.cpp:182 | extending the filter never shows a command a shorter filter hid |

## Left out

- The ImGui drawing is not modelled: windows, headers, list boxes, tooltips, the clipboard, scrolling and
  auto-scroll, focus, and the lazy per-row property fetch. `ScrollToBottom` is only set.
- Calls into mpv are parameters: command execution and its error text (`run`), the command list
  (`commandList`). Requesting log messages in `init` is not modelled.
- `LogColor` is left out, because it computes floating-point colours.
- Formatting a double is left out, because it is floating point. `Node.Double` carries its printed text.
- `Debug` itself is left out: `initData`, `update`, binding parsing and the `Debug::AddLog` prefix
  wrapper. The already formatted text is given directly to `AddLog`.
- The Level popup and the `InputInt` editing of `LogLimit` are left out. Every member that needs it
  takes `LogLimit >= 0`.
- DebugConsole.Console.Init: requires a non-negative limit. With a negative one, `AddLog` would erase
  past the end of the log.
- The log window's `ImGuiTextFilter` is left out, because it is external toolkit code. The property
  format checkboxes are left out too, because they are a UI mask.
- Text is modelled as characters, not bytes, so the 1023-byte and 256-byte limits count characters.
- Toolkit behaviour is assumed, because its code is not part of this model:
  - `InsertChars` does nothing when the text would not fit the 256-byte buffer.
  - `DeleteChars` moves the cursor back over what it removed.
  - `ImStrTrimBlanks` trims spaces and tabs at both ends.
  - `ImStricmp` and `ImStrnicmp` fold ASCII letters.
- Malformed node trees (reading the wrong member of the C union) are modelled as reading defaults:
  `""`, `false`, an empty list.
- CommandList.ArgText: an argument map without "name" leaves `name_` uninitialised in the code. The
  model reads it as "".
- Completion.CompleteLine: computes the listing lines first and logs them afterwards; the interleaving
  of entries in the log is the same.
- DebugConsole.Console.ExecCommand: the three built-in branches and the host call are helper methods
  of the class.
- The header declares constructors that take a log-line count. The source file defines constructors
  without it, and the model follows the source file and `Init`.
- Memory management (`strdup`/`free`) is not modelled: strings and sequences are values.

Two points where the code differs from a plain reading of its intent, followed by the model:

- Map entries are drawn without the depth argument, so a map directly inside a map starts closed
  (`PropertyView.MapInMapStartsClosed`).
- With several candidates, the word is replaced by the first candidate's prefix whenever that prefix
  is non-empty, even when it is no longer than the word, so the word takes that candidate's case.

## Findings

| source | as written | input that shows it | evidently intended | confidence | as-written member | corrected member |
|---|---|---|---|---|---|---|
| src/debug.cpp:72 | "..." is appended whenever the cut title is 50 characters long | a binding whose comment is exactly 50 characters: it is shown whole with "..." after it | "..." only when the title was longer than 50 characters and was cut | not executed; medium | PropertyView.BindingTitleFiftyChars | PropertyView.BindingTitle |
