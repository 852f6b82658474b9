# bp-flugsimulator server core in Dafny

This project models the application logic of the bp-flugsimulator server: a
Django application that drives simulator "slaves" (machines running
programs and holding filesystems), runs scripts of programs stage by stage,
and shows the programs' terminal output in the browser. The model proves
properties of that logic.

What is modelled, file by file:

- **Terminal output interpreter** (`AnsiTerm`, frontend/static/frontend/ansi_term.js).
  - It is a class whose fields `row`, `col`, `saved_cursor` and `grid[row][wrap][col]` are updated in place. Its methods are proved against a pure model of the state.
  - Files: `AnsiTerminal` (ansi_term.dfy) holds the class, `AnsiModel` (ansi_model.dfy) the pure model, `AnsiScreen` (ansi_screen.dfy) the grid operations and the render, and `AnsiControl` (ansi_control.dfy) the escape-sequence classifier.
  - `AnsiControl` inverts the classifier by a `Spelling` function.
  - `AnsiFacts` (ansi_facts.dfy) states, for every kind of input, what one `feed` step does.
  - A JavaScript exception raised while feeding is a failure outcome. The state is then the one before the step that throws.
- **Records** (`Models`, frontend/models.py):
  - the MAC-address validator and the argument-list validator;
  - the derived states of programs and filesystems;
  - the in-place `reset` and `set_last_started` updates on `Slave`, `Filesystem` and `Script` objects.
- **Script value objects** (`Scripts`, frontend/scripts.py):
  - validating constructors;
  - the asymmetric multiset equality of `Script.__eq__`, with its copy-and-remove loop;
  - the dictionary projection and the JSON round trip;
  - identifier selection in `from_query`.
- **Scheduler** (`Scheduling`, frontend/scheduler.py). A class whose handlers advance the state machine INIT → WAITING_FOR_SLAVES → NEXT_STEP ⇄ WAITING_FOR_PROGRAMS → SUCCESS/ERROR. Each handler is proved against a pure `Step` function. The database answers the handlers read are a `Db` value.
- **Controller** (`Controller`, frontend/controller.py): for moving, restoring and deleting filesystems, starting and stopping programs, and the log requests, it models which error is raised, which command is built, and which `command_uuid` is stored.
- **Download listing** (`Views`, frontend/views.py): size labels in B, KiB, MiB or GiB, using Python's round-half-even.
- **`Status`** (`Statuses`, frontend/static/frontend/status.js): the ok/err value and its JSON form.
- **`clean_npm` command** (`CleanNpm`, server/management/commands/clean_npm.py):
  - the HTML-file filter;
  - the dependency folder named on a `{% static %}` line;
  - its parent folders;
  - the choice of files removed from node_modules.
- **`int_to_mac`** (`Factory`, frontend/tests/factory.py): the MAC-address encoder of the test factories.
- **Shared helpers**:
  - `Wrappers`: Option and Result;
  - `Text`: decimal conversion, Python's `str.isdigit`, `split`, `join`, `endswith`, `in`, `replace`;
  - `Paths`: POSIX `os.path.join`, `basename`, `split`;
  - `Shlex`: Python's `shlex.split` (POSIX mode, whitespace-split, no comments). `prog_start` splits a program's argument string with it, and `validate_argument_list` checks a stored string with it.

## Model

| member | source | states |
|---|---|---|
| AnsiFacts.PutSpec | frontend/static/frontend/ansi_term.js:20-23 | `insertText` sets the one cell at column c and leaves the row's length and every other cell as they were |
| AnsiScreen.GrowSpec | frontend/static/frontend/ansi_term.js:63-90 | after `moveCursor(r, c)` the grid has max(old rows, r + 2) rows, row r has a segment for column c, every existing cell is unchanged, every new segment holds `width` unset cells, and all segments keep width `width` |
| AnsiScreen.BlankRangeStep | frontend/static/frontend/ansi_term.js:178-180 | one more iteration of an erase loop (`insertText(" ", row, i)`) extends the blanked column range by column i and keeps the row's shape |
| AnsiScreen.BlankRangeEmpty | frontend/static/frontend/ansi_term.js:178-180 | an erase starting at or beyond the end of the row leaves the row unchanged |
| AnsiScreen.BlankRangeAbsorb | frontend/static/frontend/ansi_term.js:218-224 | blanking from the cursor and then the whole row equals blanking the whole row |
| AnsiScreen.BlankRangeNone | frontend/static/frontend/ansi_term.js:178-180 | an erase loop whose bound does not exceed its start writes nothing |
| AnsiScreen.Kept | frontend/static/frontend/ansi_term.js:48-56 | the trim keeps between 1 and all segments; every dropped text is whitespace only; the last kept one is segment 0 or not whitespace only |
| AnsiScreen.KeptIdempotent | frontend/static/frontend/ansi_term.js:48-56 | trimming the already trimmed texts removes nothing more |
| AnsiScreen.KeptUnique | frontend/static/frontend/ansi_term.js:48-56 | the number of kept segments is the only count with those three properties |
| AnsiScreen.Render | frontend/static/frontend/ansi_term.js:29-61 | one entry per row; per row at least one and at most all segment texts, each the text of its segment, and only whitespace-only texts dropped |
| AnsiScreen.RenderSpec | frontend/static/frontend/ansi_term.js:29-61 | the render has one entry per row; per row, one string of exactly `width` characters per surviving segment, showing each cell or ' ' when unset; the surviving segments are a prefix of the row that keeps segment 0 and drops only whitespace-only segments from the end |
| AnsiScreen.TrimGridIdempotent | frontend/static/frontend/ansi_term.js:29-61 | a second `updateHtml` trim changes nothing |
| AnsiScreen.EraseRowsFromAbsorb | frontend/static/frontend/ansi_term.js:216-225 | for `CSI J`, the first loop (cursor row from the cursor) is absorbed by the second (the whole cursor row and everything below) |
| AnsiControl.Spelling | frontend/static/frontend/ansi_term.js:98-110 | the characters a recognised sequence consists of start with ESC and are at least three long |
| AnsiControl.DigitRun | frontend/static/frontend/ansi_term.js:106 | the greedy `\d*`: the longest run of digits from a position |
| AnsiControl.ParamRun | frontend/static/frontend/ansi_term.js:295 | the greedy `(\d*)((;+)(\d*))*`: the longest run of digits and ';' |
| AnsiControl.MatchCursorMove | frontend/static/frontend/ansi_term.js:106 | a match of `^ESC[(\d*)[A-G]` is well formed and its spelling starts the window |
| AnsiControl.MatchEraseLine | frontend/static/frontend/ansi_term.js:167 | a match of `^ESC[(\d*)K` is well formed and starts the window |
| AnsiControl.MatchEraseDisplay | frontend/static/frontend/ansi_term.js:205 | a match of `^ESC[(\d*)J` is well formed and starts the window |
| AnsiControl.MatchCursorPosition | frontend/static/frontend/ansi_term.js:256 | a match of `^ESC[((\d*);(\d*))?[Hf]` is well formed and starts the window |
| AnsiControl.MatchPositionParams | frontend/static/frontend/ansi_term.js:256 | a match of the parameter form `(\d*);(\d*)` followed by 'H' or 'f' is well formed and starts the window |
| AnsiControl.MatchSaveCursor | frontend/static/frontend/ansi_term.js:278 | a match of `^ESC[s` is well formed and starts the window |
| AnsiControl.MatchRestoreCursor | frontend/static/frontend/ansi_term.js:287 | a match of `^ESC[u` is well formed and starts the window |
| AnsiControl.MatchGraphics | frontend/static/frontend/ansi_term.js:295 | a match of the SGR pattern is well formed and starts the window |
| AnsiControl.MatchPrivateMode | frontend/static/frontend/ansi_term.js:302 | a match of the `ESC[?…h/l` pattern is well formed and starts the window |
| AnsiControl.MatchCharset | frontend/static/frontend/ansi_term.js:309 | a match of `^ESC(B` is well formed and starts the window |
| AnsiControl.Classify | frontend/static/frontend/ansi_term.js:98-317 | the first pattern that matches, in `feed`'s order; a result is always a well-formed sequence spelled at the front of the window |
| AnsiControl.DigitRunExact | frontend/static/frontend/ansi_term.js:106 | a digit run ends exactly at the first non-digit |
| AnsiControl.ParamRunExact | frontend/static/frontend/ansi_term.js:295 | a run of digits and ';' ends exactly at the first other character |
| AnsiControl.DigitRunToEnd | frontend/static/frontend/ansi_term.js:106 | a digit run reaching the window's end takes the rest of the window |
| AnsiControl.ParamRunToEnd | frontend/static/frontend/ansi_term.js:295 | a parameter run reaching the window's end takes the rest of the window |
| AnsiControl.DigitRunInParams | frontend/static/frontend/ansi_term.js:256 | inside a parameter run, a digit run stops at a ';' or at the run's end |
| AnsiControl.SpellingAt | frontend/static/frontend/ansi_term.js:98 | a window starting with a spelling has its characters in front |
| AnsiControl.ClassifyCursorMove | frontend/static/frontend/ansi_term.js:106-110 | every `CSI n A–G` is recognised as that move, whatever follows |
| AnsiControl.ClassifyEraseLine | frontend/static/frontend/ansi_term.js:167-169 | every `CSI n K` is recognised as an erase in line |
| AnsiControl.ClassifyEraseDisplay | frontend/static/frontend/ansi_term.js:205-207 | every `CSI n J` is recognised as an erase in display |
| AnsiControl.ClassifyCursorPositionBare | frontend/static/frontend/ansi_term.js:256 | `CSI H` and `CSI f` are recognised as a position without parameters |
| AnsiControl.ClassifyCursorPositionParams | frontend/static/frontend/ansi_term.js:256-258 | `CSI r;c H` is recognised with exactly its two parameters |
| AnsiControl.PositionParamsMatch | frontend/static/frontend/ansi_term.js:256-258 | ESC [, a digit run, ';', a digit run and 'H' or 'f' is recognised with the two runs as row and column |
| AnsiControl.PositionDigitsUnmatched | frontend/static/frontend/ansi_term.js:256 | ESC [, digits and 'H' or 'f' without a ';' matches none of the patterns |
| AnsiControl.DigitsToEndUnmatched | frontend/static/frontend/ansi_term.js:98-317 | ESC [ followed by nothing but digits up to the end of the window matches none of the patterns |
| AnsiControl.ClassifyCursorPosition | frontend/static/frontend/ansi_term.js:256-258 | every well-formed cursor position is recognised from its spelling |
| AnsiControl.ClassifySaveRestore | frontend/static/frontend/ansi_term.js:278-288 | `CSI s` and `CSI u` are recognised |
| AnsiControl.GraphicsNotEarlier | frontend/static/frontend/ansi_term.js:295 | an SGR window matches none of the patterns tried before SGR |
| AnsiControl.ClassifyGraphics | frontend/static/frontend/ansi_term.js:295-298 | every SGR sequence is recognised as SGR |
| AnsiControl.ClassifyPrivateMode | frontend/static/frontend/ansi_term.js:302-305 | every DEC private mode sequence is recognised as such |
| AnsiControl.ClassifySpelling | frontend/static/frontend/ansi_term.js:98-315 | the classifier returns k for every window starting with the spelling of a well-formed k (with Classify's contract: exactly then) |
| AnsiControl.SpellingUnambiguous | frontend/static/frontend/ansi_term.js:98-315 | two well-formed sequences both spelled at the front of one window are equal |
| AnsiControl.ClassifyNone | frontend/static/frontend/ansi_term.js:316-317 | "unknown escape code" happens exactly when no well-formed sequence is spelled at the front of the window |
| AnsiModel.MoveTo | frontend/static/frontend/ansi_term.js:63-90 | `moveCursor` throws exactly when the row is negative; otherwise it leaves a valid state |
| AnsiModel.Apply | frontend/static/frontend/ansi_term.js:106-292 | the effect of one recognised sequence keeps the state valid whenever it does not throw |
| AnsiModel.Literal | frontend/static/frontend/ansi_term.js:322-325 | writing a literal then moving right keeps the state valid |
| AnsiModel.Newline | frontend/static/frontend/ansi_term.js:318-321 | a newline never throws and keeps the state valid |
| AnsiModel.Window | frontend/static/frontend/ansi_term.js:98 | the lookahead window holds at most 20 characters |
| AnsiModel.Step | frontend/static/frontend/ansi_term.js:93-326 | one loop iteration keeps the state valid and advances the index by at least one, without passing the end of the text |
| AnsiModel.RunFrom | frontend/static/frontend/ansi_term.js:93-327 | the whole loop ends in a valid state, whether it finishes or stops at a throw |
| AnsiModel.RunStep | frontend/static/frontend/ansi_term.js:93-327 | a run continues from the result of its first step, or stops there when the step throws |
| AnsiModel.TrimState | frontend/static/frontend/ansi_term.js:29-61 | the trim of `updateHtml` keeps the state valid |
| AnsiFacts.MoveToSpec | frontend/static/frontend/ansi_term.js:63-90 | `moveCursor(r, c)` with r ≥ 0 puts the cursor exactly at (r, c), leaves at least r + 2 rows and a segment for column c in row r, keeps every existing cell and the saved cursor; r < 0 throws |
| AnsiFacts.MoveToKeeps | frontend/static/frontend/ansi_term.js:63-90 | with r ≥ 0, `moveCursor` succeeds, sets the cursor and keeps every existing cell |
| AnsiFacts.StepLiteral | frontend/static/frontend/ansi_term.js:96-326 | any character other than ESC and newline (`\r` and `\t` included) is written as a literal and the index moves by one; the step throws exactly when the write does |
| AnsiFacts.LiteralSpec | frontend/static/frontend/ansi_term.js:322-325 | a literal is stored at cell col mod width of segment col div width of the cursor row, nothing else changes, and the cursor moves to (row, col + 1); it throws exactly when col < 0 or that segment is missing |
| AnsiFacts.NewlineSpec | frontend/static/frontend/ansi_term.js:318-321 | a newline writes nothing and moves to (row + 1, 0) |
| AnsiFacts.CursorUpSpec | frontend/static/frontend/ansi_term.js:116-121 | `CSI n A` moves up n rows only when row − n > 0 (missing n is 1), otherwise nothing changes |
| AnsiFacts.CursorDownSpec | frontend/static/frontend/ansi_term.js:123-126 | `CSI n B` moves down n rows with no upper bound |
| AnsiFacts.CursorForwardSpec | frontend/static/frontend/ansi_term.js:128-131 | `CSI n C` moves right n columns with no upper bound |
| AnsiFacts.CursorBackSpec | frontend/static/frontend/ansi_term.js:133-138 | `CSI n D` moves left only when col − n > 0, otherwise nothing changes |
| AnsiFacts.CursorNextLineSpec | frontend/static/frontend/ansi_term.js:140-143 | `CSI n E` goes to column 0 of the row n below |
| AnsiFacts.CursorPrevLineIgnored | frontend/static/frontend/ansi_term.js:145-150 | `CSI n F` is consumed and changes nothing: its case label is a second `"E"` |
| AnsiFacts.CursorColumnSpec | frontend/static/frontend/ansi_term.js:152-155 | `CSI n G` goes to column n − 1 of the same row, −1 for `CSI 0G` |
| AnsiFacts.EraseLineSpec | frontend/static/frontend/ansi_term.js:167-196 | only the parameterless `CSI K` acts: it blanks the cursor row from col to its end, leaves the cursor, and throws when col is −1; with any parameter nothing changes |
| AnsiFacts.EraseDisplaySpec | frontend/static/frontend/ansi_term.js:205-247 | only the parameterless `CSI J` acts: every cell of the cursor row, before the cursor too, and of every row below becomes " "; with any parameter nothing changes |
| AnsiFacts.CursorPositionSpec | frontend/static/frontend/ansi_term.js:256-273 | `CSI r;c H/f` calls `moveCursor(r − 1, c − 1)`, an empty parameter giving 0, so `CSI H` goes to (0, 0); a row parameter 0 throws |
| AnsiFacts.PositionWithoutSemicolon | frontend/static/frontend/ansi_term.js:256 | `CSI 5H` (a row without ';') matches no pattern at all |
| AnsiFacts.SaveRestoreSpec | frontend/static/frontend/ansi_term.js:278-292 | `CSI s` saves (row, col); `CSI u` restores exactly that pair without growing the grid, and throws when nothing was saved |
| AnsiFacts.SaveThenRestore | frontend/static/frontend/ansi_term.js:278-292 | after a save, whatever steps that do not save again, a restore returns to the saved cursor and keeps the cells written meanwhile |
| AnsiFacts.SequenceSkipped | frontend/static/frontend/ansi_term.js:98-110 | a well-formed sequence that fits the window is applied in one step and the index moves past all of it |
| AnsiFacts.IgnoredSequenceSkipped | frontend/static/frontend/ansi_term.js:294-315 | SGR, DEC private modes and `ESC ( B` are skipped whole and change nothing |
| AnsiFacts.UnknownEscapeDropped | frontend/static/frontend/ansi_term.js:316-317 | with no recognised sequence in the window only the ESC is dropped, nothing changes, and the following characters are processed on their own |
| AnsiFacts.LongGraphicsNotRecognised | frontend/static/frontend/ansi_term.js:98-99 | an SGR sequence longer than the 20-character window is not recognised: only its ESC is dropped |
| AnsiFacts.InitialIsMoveCursor | frontend/static/frontend/ansi_term.js:2-9 | the constructor's `moveCursor(0, 0)` turns one empty row into the initial two rows |
| AnsiFacts.LiteralAfterTrimThrows | frontend/static/frontend/ansi_term.js:20-23 | with width 2, after feeding "ab" and the trim, a further literal throws because its segment was popped |
| AnsiFacts.FeedTwoLiterals | frontend/static/frontend/ansi_term.js:322-325 | with width 2, "ab" leaves the cursor at (0, 2) in a new empty second segment of row 0 |
| AnsiFacts.TrimPopsCursorSegment | frontend/static/frontend/ansi_term.js:48-56 | a blank second segment under the cursor is popped by the trim, after which a literal throws |
| AnsiFacts.MoveToKeepsSpare | frontend/static/frontend/ansi_term.js:63-90 | after `moveCursor` there is a row below the cursor and below the saved cursor |
| AnsiFacts.ApplyKeepsSpare | frontend/static/frontend/ansi_term.js:106-292 | every escape sequence keeps that spare row |
| AnsiFacts.StepKeepsSpare | frontend/static/frontend/ansi_term.js:93-326 | every loop step keeps that spare row |
| AnsiFacts.RunKeepsSpare | frontend/static/frontend/ansi_term.js:92-329 | a whole `feed` and the trim after it keep the spare row |
| AnsiTerminal.AnsiTerm.constructor | frontend/static/frontend/ansi_term.js:2-9 | the new terminal is the initial state: cursor (0, 0), two rows of one empty segment, no saved cursor |
| AnsiTerminal.AnsiTerm.Clear | frontend/static/frontend/ansi_term.js:11-18 | `clear()` yields the initial grid and cursor with the saved cursor at (0, 0), so clearing twice equals clearing once |
| AnsiTerminal.AnsiTerm.InsertText | frontend/static/frontend/ansi_term.js:20-23 | writes exactly cell c mod width of segment c div width of row r; throws (no change) exactly when that row or segment is missing |
| AnsiTerminal.AnsiTerm.InsertTextAtCursor | frontend/static/frontend/ansi_term.js:25-27 | the same at the cursor |
| AnsiTerminal.AnsiTerm.MoveCursor | frontend/static/frontend/ansi_term.js:63-90 | the new state is the model's `moveCursor`; a negative row throws and changes nothing |
| AnsiTerminal.AnsiTerm.EraseCells | frontend/static/frontend/ansi_term.js:178-180 | the erase loop blanks row r from column lo to its end; it throws at once when lo < 0 |
| AnsiTerminal.AnsiTerm.ApplyControl | frontend/static/frontend/ansi_term.js:106-292 | the handler of a recognised sequence leaves exactly the model's state, or throws where the model does |
| AnsiTerminal.AnsiTerm.MoveBy | frontend/static/frontend/ansi_term.js:116-155 | the cursor-movement handlers leave exactly the model's state, or throw where the model does |
| AnsiTerminal.AnsiTerm.EraseBelow | frontend/static/frontend/ansi_term.js:221-225 | every cell of the cursor row and of all rows below becomes " " |
| AnsiTerminal.AnsiTerm.Feed | frontend/static/frontend/ansi_term.js:92-329 | `feed` leaves the state of the model's run followed by the trim and returns its render; when a step throws, the state is the one before that step |
| AnsiTerminal.AnsiTerm.FeedChar | frontend/static/frontend/ansi_term.js:94-326 | one pass of the `feed` loop leaves exactly the state of the model's step and returns its next index, or reports the throw with the state unchanged |
| AnsiTerminal.AnsiTerm.UpdateHtml | frontend/static/frontend/ansi_term.js:29-61 | returns the render of the grid and pops the trailing blank segments after segment 0 from every row |
| AnsiTerminal.AnsiTerm.TrimRow | frontend/static/frontend/ansi_term.js:31-56 | one row of `updateHtml`: returns the texts of the segments that survive and pops the rest from that row only |
| AnsiTerminal.AnsiTerm.RowTexts | frontend/static/frontend/ansi_term.js:33-45 | the text of every segment of a row, ' ' for unset cells |
| AnsiTerminal.AnsiTerm.PopBlankWraps | frontend/static/frontend/ansi_term.js:48-56 | the trim loop of one row keeps exactly the kept prefix of texts and segments |
| Models.ValidateMacAddress | frontend/models.py:37-79 | accepts exactly when there are six ':'-separated parts and every character is A–F, a–f or a character `str.isdigit` accepts (ASCII, other decimal, superscript and other Unicode digits) in a part of length 2; `invalid_mac_few` exactly when the count is not six |
| Models.MacAcceptedParts | frontend/models.py:37-79 | acceptance part by part: each part is empty or two characters, each a hex letter or a `str.isdigit` digit, so empty parts pass |
| Models.FirstCharRejected | frontend/models.py:66-73 | a part whose first character is neither a hex letter nor a `str.isdigit` digit makes the address invalid |
| Models.SuperscriptPartOk | frontend/models.py:70 | "²²" is a part the validator accepts, although '²' is neither a hex letter nor an ASCII digit |
| Models.SuperscriptMacAccepted | frontend/models.py:37-79 | "²²:²²:²²:²²:²²:²²" passes the validator |
| Models.ValidateArgumentList | frontend/models.py:82-99 | "Enter a valid argument list." exactly when `shlex.split` raises ValueError, no error otherwise |
| Models.ArgumentListValidity | frontend/models.py:82-99 | quoted words joined by spaces are a valid list; a word followed by an unclosed quote, or by a trailing backslash, is not |
| Models.ProgramWithoutStatus | frontend/models.py:317-360 | without a status row every predicate is false and `data_state` is "unknown"; with one, running and timeouted mirror it |
| Models.ErrorSuccessPartition | frontend/models.py:347-388 | executed ⇔ status exists, not running, code ≠ ''; error and success are exclusive and together equal executed |
| Models.ProgramDataState | frontend/models.py:298-315 | `data_state` is "running" exactly when running, "error" exactly when not running and failed, "success" exactly when successful, "unknown" exactly when neither running nor executed |
| Models.Filesystem.constructor | frontend/models.py:432-458 | a new row has the model's defaults |
| Models.Filesystem.DataState | frontend/models.py:512-527 | "error" iff an error code is set; "moved" iff no error and a hash is set; "restored" otherwise |
| Models.Filesystem.Reset | frontend/models.py:474-481 | clears the command uuid and error code and nothing else |
| Models.Slave.constructor | frontend/models.py:122-133 | a new slave has no command and is offline |
| Models.Slave.Reset | frontend/models.py:135-142 | clears the command uuid and sets offline, keeping name and addresses |
| Models.Slave.HasError | frontend/models.py:156-174 | true exactly when some program or some filesystem of the slave has an error |
| Models.Script.constructor | frontend/models.py:553-560 | a new script row has the default run fields |
| Models.Script.Reset | frontend/models.py:562-571 | sets not initialized, not running, error code "" and index −1, keeping name and `last_ran` |
| Models.Script.SetLastStarted | frontend/models.py:611-618 | afterwards exactly the rows with that id have `last_ran`, and nothing else changes |
| Models.Script.UpdateRunState | frontend/scheduler.py:402-420 | the rows with that id get the running flag and error code, no other row or field changes |
| Models.Script.UpdateIndex | frontend/scheduler.py:153-157 | the rows with that id get the index (and, when starting, running and initialized), no other row or field changes |
| Scripts.EntryFieldsError | frontend/scripts.py:188-201 | the constructors' checks in order: non-int index, negative index, bad target, bad slave; none fails exactly for valid fields |
| Scripts.NewProgramEntry | frontend/scripts.py:332-345 | succeeds exactly for an int index ≥ 0 and str-or-int program and slave, storing the fields unchanged |
| Scripts.NewFileEntry | frontend/scripts.py:188-201 | the same for filesystem entries |
| Scripts.EntryIndexCheckedFirst | frontend/scripts.py:188-201 | a bad index is reported whatever the other fields hold |
| Scripts.MapSeq | frontend/scripts.py:93-96 | the list comprehension: one image per element, in order |
| Scripts.BoolEqualsInt | frontend/scripts.py:347-349 | entry equality is Python's: an index `True` equals 1 |
| Scripts.ProgramsOf | frontend/scripts.py:51-73 | the entries of a list of entry objects, in order |
| Scripts.FilesOf | frontend/scripts.py:51-73 | the same for filesystem entries |
| Scripts.NewScript | frontend/scripts.py:51-73 | succeeds exactly for lists of entry objects with at least one entry in total and a str name, checked in that order, keeping the entries |
| Scripts.FirstIndex | frontend/scripts.py:75-91 | `list.index`: a position holding the element |
| Scripts.RemoveFirst | frontend/scripts.py:75-91 | `list.remove` takes exactly one copy out of the multiset |
| Scripts.RemoveMatched | frontend/scripts.py:75-91 | the copy-and-remove loop leaves the multiset difference of the other entries minus own entries |
| Scripts.EmptyDifference | frontend/scripts.py:75-91 | an empty remainder means multiset inclusion, both ways |
| Scripts.ScriptEquals | frontend/scripts.py:75-91 | `__eq__` holds exactly when names are equal and the other script's entries are a sub-multiset of this one's |
| Scripts.ScriptEqReordered | frontend/scripts.py:75-91 | equality ignores entry order, both ways |
| Scripts.MapSeqPermutation | frontend/scripts.py:75-91 | permuting entries permutes their keys |
| Scripts.ScriptEqAsymmetric | frontend/scripts.py:75-91 | a script with an extra entry equals the smaller one but not vice versa |
| Scripts.DictProjections | frontend/scripts.py:208-210 | `dict(entry)` has exactly its three fields, each holding the attribute |
| Scripts.ScriptDict | frontend/scripts.py:93-96 | `dict(script)` has exactly the keys name, programs and filesystems: the name, and one entry dictionary per entry in list order |
| Scripts.ProgramEntryFromKwargs | frontend/scripts.py:145 | `ScriptEntryProgram(**item)`: TypeError on a non-dictionary; an entry built is valid and the item is exactly its dictionary |
| Scripts.ProgramObjsFromKwargs | frontend/scripts.py:144-150 | the comprehension yields one entry object per item, each built from exactly that item |
| Scripts.FileObjsFromKwargs | frontend/scripts.py:146-149 | the same for filesystems |
| Scripts.ScriptFromJson | frontend/scripts.py:127-151 | a script read back is the one whose `dict` the document holds: every key of `dict(script)` is in the document with the same value |
| Scripts.ScriptFromJsonNeedsLists | frontend/scripts.py:137-141 | `from_json` raises ValueError when programs or filesystems is not a list |
| Scripts.ProgramEntryFromJson | frontend/scripts.py:399-413 | TypeError on a non-dictionary, KeyError for a missing 'index' first; an entry read is valid and its three fields are the document's values under their keys |
| Scripts.ProgramEntryRoundTrip | frontend/scripts.py:389-413 | a program entry read back from its JSON dictionary is the entry |
| Scripts.FileEntryRoundTrip | frontend/scripts.py:248-261 | a filesystem entry read back from its JSON dictionary is the entry |
| Scripts.ProgramListRoundTrip | frontend/scripts.py:144-150 | reading back the list of program dictionaries gives the entries |
| Scripts.FileListRoundTrip | frontend/scripts.py:144-150 | the same for filesystems |
| Scripts.ScriptRoundTrip | frontend/scripts.py:127-174 | `Script.from_json(to_json(s)) == s` |
| Scripts.SelectIdents | frontend/scripts.py:369-381 | succeeds exactly for types 'int' or 'str'; the id is taken for 'int' and the name for 'str', for the slave and the target alike |
| Scripts.FromQuerySpec | frontend/scripts.py:356-387 | 'int' takes ids, 'str' names; any other type is a ValueError, the slave type's first |
| Scheduling.NextIndex | frontend/scheduler.py:187-193 | the smallest stage index above the old one, None exactly when there is none |
| Scheduling.AtIndexMeaning | frontend/scheduler.py:331-334 | the programs taken for a stage are exactly those of the graph rows with that index |
| Scheduling.MaxStartTime | frontend/scheduler.py:321-335 | the reported start time is the largest start time of the stage, at least 0 |
| Scheduling.Scheduler.StageStartTime | frontend/scheduler.py:321-335 | the loop over the stage's programs returns their largest start time, 0 when none is larger |
| Scheduling.ScanPrograms | frontend/scheduler.py:361-383 | the scan of a stage finishes exactly when every program of it is done |
| Scheduling.ScanStopsAtFirst | frontend/scheduler.py:361-383 | a failure names a failed program and a block points at a busy one, with every program before it done |
| Scheduling.ScanFrom | frontend/scheduler.py:361-383 | the scan from a program on is decided by that program when it failed or is busy, otherwise by the rest |
| Scheduling.BusyBeforeFailure | frontend/scheduler.py:361-383 | a busy program ahead of a failed one keeps waiting; in the other order the failure is reported |
| Scheduling.Step | frontend/scheduler.py:223-260 | the dispatch of `__run__`: INIT always moves to WAITING_FOR_SLAVES, SUCCESS and ERROR are fixed points, no state goes back to INIT, the stage index never decreases, and only a move to ERROR sets an error message |
| Scheduling.WaitSlavesSpec | frontend/scheduler.py:287-298 | NEXT_STEP exactly when all slaves are online, otherwise no change |
| Scheduling.NextStepSpec | frontend/scheduler.py:300-343 | SUCCESS with index old + 1 exactly when no stage is left, else WAITING_FOR_PROGRAMS at the next stage |
| Scheduling.WaitProgramsSpec | frontend/scheduler.py:345-387 | the first failed program gives ERROR with "Program <name> has an error.", a busy one first leaves the state unchanged, and NEXT_STEP comes exactly when every program of the stage is done |
| Scheduling.StageNotEmpty | frontend/scheduler.py:187-193 | the stage NEXT_STEP moves to has at least one program |
| Scheduling.EveryStageReachesEnable | frontend/scheduler.py:328-335 | NEXT_STEP moves to WAITING_FOR_PROGRAMS exactly when some stage lies above the index, and then the loop over that stage's programs runs at least once |
| Scheduling.TimedOutSpec | frontend/scheduler.py:206-221 | the slave timeout moves WAITING_FOR_SLAVES to ERROR with its message and leaves other states alone |
| Scheduling.LaterAfterNext | frontend/scheduler.py:187-193 | moving to the next stage removes exactly that stage from the remaining ones |
| Scheduling.LaterShrinks | frontend/scheduler.py:187-193 | moving to the next stage leaves exactly one stage fewer above the index |
| Scheduling.StageOfDonePrograms | frontend/scheduler.py:300-387 | a stage whose programs are all done takes two passes |
| Scheduling.NoStageLeft | frontend/scheduler.py:300-343 | with no stage left, NEXT_STEP reaches SUCCESS in one pass |
| Scheduling.OneDoneStage | frontend/scheduler.py:300-387 | a stage whose programs are all done costs two passes of the run loop, after which the run goes on as from that stage |
| Scheduling.AllDoneReachesSuccess | frontend/scheduler.py:223-260 | when every program has finished cleanly, NEXT_STEP reaches SUCCESS after two passes per remaining stage plus one |
| Scheduling.Scheduler.constructor | frontend/scheduler.py:56-65 | a new scheduler is INIT, index −1, no error, not stopped, no script |
| Scheduling.Scheduler.ShouldStop | frontend/scheduler.py:91-104 | returns the stop flag |
| Scheduling.Scheduler.Stop | frontend/scheduler.py:106-119 | raises the stop flag and wakes the thread, nothing else |
| Scheduling.Scheduler.Start | frontend/scheduler.py:121-161 | refused (False, nothing changes) while the thread is alive; otherwise no error, not stopped, INIT, index −1, the script, and its row running and initialized at −1 |
| Scheduling.Scheduler.Notify | frontend/scheduler.py:163-174 | wakes the thread exactly when it runs |
| Scheduling.Scheduler.NextStage | frontend/scheduler.py:176-204 | returns the old index; moves to the smallest larger stage index, or to old + 1 with all-done |
| Scheduling.Scheduler.TimerSlaveTimeout | frontend/scheduler.py:206-221 | the state becomes the timeout step of the old state |
| Scheduling.Scheduler.StateInit | frontend/scheduler.py:262-285 | moves to WAITING_FOR_SLAVES and reports it |
| Scheduling.Scheduler.StateWaitSlaves | frontend/scheduler.py:287-298 | the state is the pure step's |
| Scheduling.Scheduler.StateNext | frontend/scheduler.py:300-343 | without the `enable()` call: the pure step's state, the row's index updated, the notice with the index, last index and the stage's largest start time (at least 0) |
| Scheduling.Scheduler.StateNextAsWritten | frontend/scheduler.py:300-343 | as written: the pure step's state and the row's index are stored; a move to a stage raises at `enable()`, so no notice is sent and the thread is not woken; only the move to SUCCESS sends the notice |
| Scheduling.Scheduler.StateWaitPrograms | frontend/scheduler.py:345-387 | the loop with `break` yields the pure step's state |
| Scheduling.Scheduler.StateSuccess | frontend/scheduler.py:389-407 | the row stops running with no error and is the only last-ran one |
| Scheduling.Scheduler.StateError | frontend/scheduler.py:409-426 | the row stops running and keeps the error message |
| Scheduling.Scheduler.RunOnce | frontend/scheduler.py:223-260 | a stop request ends the thread with nothing changed; otherwise the handler of the state runs, and the thread ends exactly after SUCCESS or ERROR |
| Controller.LookupTargets | frontend/controller.py:77-85 | 'file': the destination and its directory; 'dir': destination/basename(source) and the destination; None for any other type |
| Controller.LookupTargetsMeaning | frontend/controller.py:77-85 | both lookup targets name the file the move creates |
| Controller.Conflicts | frontend/controller.py:87-92 | exactly the other moved filesystems at the lookup file ('file') or lookup dir with a source ending in "/" or "\\" plus the name ('dir'), in table order |
| Controller.BasenameOfSuffix | frontend/controller.py:87-92 | a source ending in '/' + name has that basename |
| Controller.ConflictSharesTarget | frontend/controller.py:87-92 | a conflict occupies the file the move would create |
| Controller.FileMoveMatchesSourceName | frontend/controller.py:87-92 | a 'file' move does not see a 'dir' filesystem that placed a file at the same target under another source name |
| Controller.FsMove | frontend/controller.py:58-148 | offline gives SlaveOfflineError, moved gives FilesystemMovedError, an unknown source type gives UnboundLocalError, more than one conflict gives MultipleObjectsReturned, all with nothing changed; otherwise it succeeds: a single move with its uuid stored, or restore-then-move as `chain_execution` with both uuids stored |
| Controller.MoveUnmoved | frontend/controller.py:76-148 | the lookup on an unmoved filesystem: UnboundLocalError for an unknown type, otherwise the conflict query and the send |
| Controller.MoveToTarget | frontend/controller.py:87-138 | more than one conflict is MultipleObjectsReturned with nothing changed; zero or one conflict succeeds with the command sent and the uuids stored |
| Controller.SendMove | frontend/controller.py:94-138 | the command and the uuids stored for zero or one conflict |
| Controller.FsRestore | frontend/controller.py:151-191 | offline and not-moved are refused; an online moved filesystem is always restored: a restore carrying the hash with its uuid stored |
| Controller.FsDelete | frontend/controller.py:194-207 | deletion is allowed exactly when not moved, else FilesystemDeleteError |
| Controller.ProgStart | frontend/controller.py:210-272 | offline first, running second and an argument string `shlex.split` refuses third give errors; otherwise a start: the command carries the split tokens, a running status is created under the command's uuid, and a timeout is scheduled exactly when start_time ≥ 0 |
| Controller.ValidatedProgramStarts | frontend/controller.py:210-272 | a program whose argument string passes `validate_argument_list` starts whenever its slave is online and it is not running; quoted words joined by spaces reach the slave as exactly those words |
| Controller.ProgStop | frontend/controller.py:275-309 | offline and not running are refused; otherwise the stop command for the status uuid |
| Controller.LogRequest | frontend/controller.py:320-388 | the log requests fail only on an online slave without a status row, report True exactly when the slave is online, and then send the command for the status uuid |
| Views.RoundHalfEven | frontend/views.py:74 | the result is the integer nearest to n / d, the even one on a tie |
| Views.NearestEvenUnique | frontend/views.py:74 | there is only one such integer, so the label is determined |
| Views.UnitOf | frontend/views.py:71-79 | the unit is the largest of B, KiB, MiB, GiB not above the size |
| Views.SizeLabel | frontend/views.py:71-79 | the label is a count, a space and the unit the size falls in |
| Views.SizeLabelMeaning | frontend/views.py:71-79 | the label is the nearest-even count of units, a space and the unit; below 1 KiB the exact size in B |
| Views.SizeLabelCountBounds | frontend/views.py:74-77 | below 1 GiB the count is between 1 and 1024 |
| Views.SizeLabelExamples | frontend/views.py:71-79 | 1023 B, 1025 → 1 KiB, 1536 → 2 KiB, 2560 → 2 KiB, 2^20 − 1 → 1024 KiB, 5 GiB |
| Views.FileList | frontend/views.py:66-81 | one entry per listed file, in order, with its name and size label |
| Statuses.NewStatus | frontend/static/frontend/status.js:2-9 | succeeds exactly for "ok" or "err", keeping status and payload; otherwise TypeError |
| Statuses.OkStatus | frontend/static/frontend/status.js:32-34 | status ok, not err, payload kept |
| Statuses.ErrStatus | frontend/static/frontend/status.js:36-38 | status err, not ok, payload kept |
| Statuses.OkXorErr | frontend/static/frontend/status.js:24-30 | exactly one of `is_ok` and `is_err` holds |
| Statuses.HelpersAreConstructor | frontend/static/frontend/status.js:32-38 | the static helpers build what the constructor builds |
| Statuses.Equals | frontend/static/frontend/status.js:11-14 | with primitive payloads `equals` is field equality; with objects it is identity; an object never equals a primitive |
| Statuses.ToJson | frontend/static/frontend/status.js:40-42 | the document is an object whose "status" member is the status and whose "payload" member is the stringified payload, absent when undefined |
| Statuses.Member | frontend/static/frontend/status.js:46 | a parsed member is one of the object's entries; missing exactly when no entry has the key |
| Statuses.FromJson | frontend/static/frontend/status.js:44-47 | fails only on `null` or a status other than "ok"/"err" |
| Statuses.FromJsonRejectsOtherStatus | frontend/static/frontend/status.js:44-47 | any other status throws TypeError |
| Statuses.RoundTripPrimitive | frontend/static/frontend/status.js:40-47 | `from_json(to_json(s))` gives s back for primitive and undefined payloads |
| Statuses.RoundTripObject | frontend/static/frontend/status.js:40-47 | an object payload comes back with its content as a new object, so the result is never `equals` to s |
| CleanNpm.GetParentFolders | server/management/commands/clean_npm.py:47-52 | one entry per '/'-component, the k-th being cwd joined with the first k + 1 components |
| CleanNpm.ParentFoldersExtend | server/management/commands/clean_npm.py:47-52 | each entry extends the previous one |
| CleanNpm.LastParentIsPath | server/management/commands/clean_npm.py:47-52 | the last entry is join(cwd, path) when no component but the last is empty |
| CleanNpm.AbsolutePathLosesRoot | server/management/commands/clean_npm.py:47-52 | an absolute '/name' under a directory cwd gives the folders cwd + '/' and cwd + '/name', although `os.path.join(cwd, '/name')` is '/name' |
| CleanNpm.JoinAllRelative | server/management/commands/clean_npm.py:49-50 | the running path never starts with '/' |
| CleanNpm.JoinAllIsJoin | server/management/commands/clean_npm.py:49-50 | with no empty inner component, the running path is the '/'-join of the components |
| CleanNpm.GetPaths | server/management/commands/clean_npm.py:24-30 | the kept paths over the walk, in walk order |
| CleanNpm.KeptInMeaning | server/management/commands/clean_npm.py:26-29 | a directory's kept paths are exactly its wanted files |
| CleanNpm.GetPathsMeaning | server/management/commands/clean_npm.py:24-30 | a path is returned exactly when some walked file has the suffix and its path avoids node_modules |
| CleanNpm.GetPathsFiltered | server/management/commands/clean_npm.py:24-30 | every returned path avoids node_modules and names a file with the suffix |
| CleanNpm.BeforeLastSlash | server/management/commands/clean_npm.py:72-73 | `rsplit('/', 1)[0]`: the text before the last slash, or all of it |
| CleanNpm.Dependency | server/management/commands/clean_npm.py:69-75 | raises IndexError exactly for a `{% static` line without a quote |
| CleanNpm.DependencyMeaning | server/management/commands/clean_npm.py:69-75 | a dependency comes from a `{% static` line whose quoted text mentions node/, and rebuilds the rewritten text with its last component |
| CleanNpm.ReplaceAbsent | server/management/commands/clean_npm.py:72 | replacing an absent pattern changes nothing |
| CleanNpm.DependencyOfNodeLine | server/management/commands/clean_npm.py:69-75 | a `{% static` line quoting node/<dir>/<file> names node_modules/<dir> |
| CleanNpm.QuotedPart | server/management/commands/clean_npm.py:70-71 | splitting on `'` gives the quoted text as the second part |
| CleanNpm.RewrittenFolder | server/management/commands/clean_npm.py:72-73 | replacing the prefix and cutting at the last `/` gives the folder under the new prefix |
| CleanNpm.CollectDependencies | server/management/commands/clean_npm.py:64-78 | the loop over template lines yields the set of all parent folders of all dependencies, or the first IndexError |
| CleanNpm.NeededStep | server/management/commands/clean_npm.py:66-75 | one more line adds its dependency's parent folders |
| CleanNpm.NeededStopsAtError | server/management/commands/clean_npm.py:70 | once a line raises, the command raises |
| CleanNpm.NeededKeepsParents | server/management/commands/clean_npm.py:64-78 | every parent folder of every named dependency is kept |
| CleanNpm.NeededKeepsDependency | server/management/commands/clean_npm.py:64-78 | the dependency folder itself is kept when its components are non-empty |
| CleanNpm.RemoveUnused | server/management/commands/clean_npm.py:81-84 | the files removed over the walk, in walk order |
| CleanNpm.RemovedMeaning | server/management/commands/clean_npm.py:81-84 | a file is removed exactly when it lies in a walked directory that is not a dependency |
| Factory.Hex | frontend/tests/factory.py:34 | format spec `x`: at least one lower-case hex digit |
| Factory.Format012x | frontend/tests/factory.py:34 | format spec `012x` is at least 12 characters |
| Factory.Pairs | frontend/tests/factory.py:37 | half as many pairs as characters, each of two characters |
| Factory.PairsAreZip | frontend/tests/factory.py:34-37 | the i-th pair is the characters at 2i and 2i + 1, as `zip(s[::2], s[1::2])` pairs them |
| Factory.PairsDropLast | frontend/tests/factory.py:34-37 | an odd last character is dropped |
| Factory.HexRoundTrip | frontend/tests/factory.py:34 | reading the hex digits back gives the number |
| Factory.HexLength | frontend/tests/factory.py:34 | a number below 16^k has at most k hex digits |
| Factory.ParseLeadingZeros | frontend/tests/factory.py:34 | zero padding does not change the value |
| Factory.MacDigits | frontend/tests/factory.py:34 | below 2^48 the formatted number is 12 digits: zeros then the hex of n |
| Factory.IntToMac | frontend/tests/factory.py:34-37 | the address has three characters per pair minus one, 17 for 0 ≤ n < 2^48 |
| Factory.MacShape | frontend/tests/factory.py:34-37 | below 2^48 the address is six pairs joined by ':', 17 characters |
| Factory.IntToMacRoundTrip | frontend/tests/factory.py:34-37 | reading the address back gives n, for 0 ≤ n < 2^48 |
| Factory.IntToMacInjective | frontend/tests/factory.py:22-37 | distinct numbers below 2^48 get distinct addresses |
| Factory.IntToMacValid | frontend/tests/factory.py:22-37 | every such address passes `validate_mac_address` |
| Factory.HexPairsAccepted | frontend/tests/factory.py:37 | every pair cut from hex digits is a part the MAC validator accepts |
| Factory.NegativeRejected | frontend/tests/factory.py:34 | a negative number starts with '-' and is refused by the validator |
| Factory.LongNumbersCollide | frontend/tests/factory.py:34-37 | from 2^48 on, 16m and 16m + 1 with an odd digit count share an address |
| Text.NatToString | frontend/views.py:72 | `str(n)` is decimal digits without leading zeros |
| Text.NatToStringRoundTrip | frontend/views.py:72 | reading `str(n)` back gives n |
| Text.NatToStringInjective | frontend/views.py:72 | distinct sizes give distinct numerals |
| Text.Split | frontend/models.py:66 | `str.split` on one character: at least one part, no part holds the separator |
| Text.SplitJoin | frontend/tests/factory.py:37 | splitting a join of separator-free parts gives the parts |
| Text.JoinSplit | server/management/commands/clean_npm.py:49 | joining a split gives the string back |
| Paths.PathJoinMeaning | frontend/controller.py:84 | `os.path.join(a, b)` ends with b; an absolute b is the result; a relative b extends a with at most one character between them |
| Paths.StripSlashes | frontend/controller.py:80 | `rstrip('/')` gives a prefix without a trailing slash, non-empty unless the text is all slashes |
| Paths.SplitHead | frontend/controller.py:80 | the head of `os.path.split` is a prefix of the path, empty exactly when the path has no slash |
| Paths.LastSlash | frontend/controller.py:80-84 | `rfind('/')`: a slash there and none after |
| Paths.Basename | frontend/controller.py:83 | `basename`: no slash, and a suffix of the path |
| Paths.SplitAtLastSlash | frontend/controller.py:80-84 | a path is its part up to the last slash and its basename |
| Paths.SplitHeadJoin | frontend/controller.py:80-84 | joining `dirname` and `basename` rebuilds the path unless slashes are doubled |
| Paths.JoinBelowSlash | frontend/controller.py:80-84 | below a single last slash, joining head and basename rebuilds the path |
| Paths.JoinSlashesHead | frontend/controller.py:80-84 | when the head is all slashes, joining it with the basename rebuilds the path |
| Shlex.SplitQuotedWords | frontend/controller.py:232 | splitting single-quoted words joined by spaces gives the words back, for any words |
| Shlex.SplitPlainWords | frontend/controller.py:232 | words of ordinary characters joined by single spaces split into those words |
| Shlex.UnclosedQuote | frontend/models.py:94-99 | a quote that is never closed raises "No closing quotation" |
| Shlex.TrailingBackslash | frontend/models.py:94-99 | a backslash at the end raises "No escaped character" |
| Shlex.BackslashInDoubleQuotes | frontend/controller.py:232 | inside double quotes a backslash escapes only `\` and `"`, and is kept before any other character |
| Shlex.EscapeInWordRule | frontend/controller.py:232 | outside quotes a backslash escapes the next character, even a space |
| Shlex.EmptyQuotedToken | frontend/controller.py:232 | an empty pair of quotes is an empty token |
| Shlex.LexQuoteBody | frontend/controller.py:232 | a quoted word, with its quotes written as '"'"', reads back as the word |

## Left out

- The DOM and jQuery work of `AnsiTerm` (span creation, `.text`, `.remove`, `.empty`), its `pid` field and `console.log`: only the grid, the cursor and the rendered strings are modelled.
- AnsiTerminal.AnsiTerm.constructor: requires `width > 0`, an assumption the JavaScript does not check.
- AnsiModel.Count: `parseInt` is exact; counts beyond 2^53 lose precision in JavaScript and do not here.
- JavaScript strings are sequences of UTF-16 code units; the model's characters are Dafny characters, so characters outside the Basic Multilingual Plane count as one character here and as two there.
- The threads, the lock, the `threading.Event` wait and the `Timer` of the scheduler: handlers run sequentially, the event is a flag, and the slave timeout is a method the caller invokes.
- The Django ORM: every query is replaced by the rows it returns, passed in (`Db`, tables as sequences); `save()` is the assignment itself.
- `notify`, channels `Group.send`, logging and `Slave.wake_on_lan`: the scheduler returns the notice it would send, and the controller returns the command it would send.
- The fresh uuids of `uuid4()` and of the `Command` constructor are parameters.
- `Script.check_online` and `Script.get_involved_slaves` are not part of this model: their answer is the `allOnline` input.
- `Slave.from_identifier`, `Script.indexes` and the `save` and `from_model` methods of scripts.py are database or library glue, not part of this model.
- JSON text: `json.dumps`/`json.loads` and `JSON.stringify`/`JSON.parse` are modelled on values (dictionaries, or JSON values with ordered members), not on text. Status payload numbers are integers (no fractions, NaN or Infinity).
- Statuses.RoundTripObject: the identity of objects nested inside a payload is not modelled, only that of the payload itself.
- `Filesystem.is_moved` also tests `hash_value is not None`. The column is not nullable, so the model uses a string and tests only emptiness.
- Views.SizeLabelMeaning: Python divides the size as a float before rounding. Above 2^53 bytes the float quotient is inexact; the model divides exactly.
- The directory listing, `getsize`, `mkdir` in views.py, and the `os.walk` traversal, file reading, `remove` and the empty-folder `rmdir` loop of `clean_npm`: the listing and the walk are inputs, and the removed files are an output.
- Paths follow POSIX `os.path`; Windows separators are not modelled.
- Text.StrIsDigit: the table of `str.isdigit` is the one of Unicode 15.0, as in Python 3.12; other Python versions differ in the digits added later.
- `shlex` in non-POSIX mode, comment characters, `punctuation_chars` and the `shlex.quote` escaping rules are not modelled; only the configuration `shlex.split` uses.
- The other factories of frontend/tests/factory.py (fuzzy names, IP sequences) are test data generation, not part of this model.

## Findings

| source | as written | input that shows it | evidently intended | confidence | as-written member | corrected member |
|---|---|---|---|---|---|---|
| frontend/scheduler.py:328-335 | the loop over the new stage's programs calls `sgp.program.enable()`, and the `Program` model (frontend/models.py:262) defines no `enable`, so the first program raises AttributeError after WAITING_FOR_PROGRAMS and the new `current_index` are stored and before the NEXT_STEP notice is sent | any script whose graph has a program at an index above the current one (every stage NEXT_STEP moves to has one, by `Scheduling.EveryStageReachesEnable`) | record the stage's largest start time and send the NEXT_STEP notice with index, last index and start time | not executed | Scheduling.Scheduler.StateNextAsWritten | Scheduling.Scheduler.StateNext |
