# Docker Monitor: the poll logic and the watch-list edits, in Dafny

This models two pieces of a GNOME Shell extension that watches Docker containers.

**The panel indicator** (`gnome-extension/extension.js`). Each poll runs
`docker ps --all --format '{{.Names}}\t{{.State}}'`. `_updateFromOutput` turns the output into a
name → state map. It then walks the user's watch list in order and shows one menu entry per watched
name: running or not, plus a status text. It folds these into one `allRunning` flag, which picks the
OK or the error panel icon. `_refresh` sends every failure of the run to `_setError`, which replaces
the entries with one error line and forces the error icon.

**The preferences window** (`gnome-extension/prefs.js`). The window edits the `monitored-containers`
list:
- the add button appends a trimmed, non-empty name unless it is already there;
- a row's remove button filters every occurrence of the name out;
- "Import from Docker" merges the names `docker ps` prints into the list, without duplicates, in
  first-seen order.

Modules:
- `Text` (`text.dfy`): the JavaScript string operations both files use. These are
  `String.prototype.trim` (the ECMAScript WhiteSpace and LineTerminator characters, written out),
  `split` on one character, and the filter that drops zero-length lines. `Split` is proved to be the
  inverse of `Join`.
- `Subprocess` (`subprocess.dfy`): how a `Gio.Subprocess` run of `docker ps` ends. The spawn throws,
  or `communicate_utf8_finish` throws, or the process exits with `get_successful()` true or false.
- `DockerState` (`docker_state.dfy`): the parse loop, as a method proved against a left fold over the
  entries of the kept lines.
- `Status` (`status.dfy`): the reconcile loop and the `allRunning` fold. The `Indicator` class holds
  the state the poll changes: the menu section's entries, `_containerItems` and the icon. Its methods
  `UpdateFromOutput`, `SetError` and `Refresh` are proved against the functions `Reconcile`,
  `StatusOf` and `AllRunning`.
- `WatchList` (`watch_list.dfy`): add, remove and import. The settings store is the list passed in and
  the list returned.

On these points the model follows what the code does:
- Only the whole output is trimmed. Lines are not trimmed one by one, so a line of spaces between two
  others is kept (`Text.BlankLineKept`).
- Whether a line is kept depends on its first tab field before trimming. A line whose first field is
  only spaces maps the empty name `""`; it is not dropped (`DockerState.BlankNameLine`). Only a line
  that starts with a tab adds nothing.
- A present but empty state is shown as "not found".
- `_setError` clears the menu section but leaves `_containerItems` as it was.
- No timeout on the `docker` run exists in the code, and no guard against two polls in flight.

## Model

| member | source | states |
|---|---|---|
| Text.Trim | gnome-extension/extension.js:151 | `s.trim()`, also used at gnome-extension/prefs.js:56 and :159; its meaning is the contract of `Text.TrimMeaning` |
| Text.TrimMeaning | gnome-extension/extension.js:151 | `Trim(s)` is a slice of `s` with only JS white space cut from either end, and no white space is left at either end of it |
| Text.TrimIdempotent | gnome-extension/extension.js:151 | trimming a trimmed string changes nothing |
| Text.TrimOfTrimmed | gnome-extension/extension.js:151 | a string with no white space at either end is its own trim |
| Text.TrimFinalBreak | gnome-extension/extension.js:151 | the line break that ends the output is trimmed away |
| Text.Split | gnome-extension/extension.js:151 | `split` on one character: at least one piece, no piece holds the separator, and the pieces joined with the separator give back the input |
| Text.SplitJoin | gnome-extension/extension.js:151 | splitting a join of separator-free pieces gives back those pieces, so the split is uniquely determined |
| Text.NonEmpty | gnome-extension/extension.js:151 | the filter keeps exactly the non-empty lines, and never more lines than it was given |
| Text.NonEmptyConcat | gnome-extension/extension.js:151 | the filter keeps the order of what it keeps (it distributes over concatenation) |
| Text.NonEmptyLines | gnome-extension/extension.js:151 | `text.trim().split('\n').filter(l => l.length > 0)`, the lines of an output; their shape is `Text.NonEmptyLinesShape` |
| Text.NonEmptyLinesShape | gnome-extension/extension.js:151 | every kept line is non-empty and holds no line break |
| Text.BlankLineKept | gnome-extension/extension.js:151 | only zero-length lines are dropped: `"a\n \nb"` gives the lines `a`, ` `, `b` |
| DockerState.ParseLine | gnome-extension/extension.js:153-155 | what one kept line contributes: nothing when its first tab field is empty, otherwise (trimmed first field, trimmed second field or `""`); stated by `ParseLineNone`, `ParseLineNoTab` and `ParseLineFields` |
| DockerState.Fold | gnome-extension/extension.js:150-156 | the `dockerState` map after applying the entries in order with `Map.set`; key set and last-wins stated by `FoldHas` and `FoldLastWins` |
| DockerState.Parse | gnome-extension/extension.js:150-156 | the map built from the whole output: the fold of the entries of its kept lines; `ParseOutput` is proved to compute it |
| DockerState.ParseEmpty | gnome-extension/extension.js:150-156 | an empty output gives the empty map |
| DockerState.ParseOutput | gnome-extension/extension.js:149-156 | the loop that fills `dockerState` returns `Parse(stdout)`, the left fold of the entries of the kept lines |
| DockerState.ParseLineNone | gnome-extension/extension.js:153-154 | a line adds nothing exactly when its first tab field is empty, that is, when it starts with a tab |
| DockerState.ParseLineNoTab | gnome-extension/extension.js:153-155 | a line without a tab maps its trimmed self to the empty state |
| DockerState.ParseLineFields | gnome-extension/extension.js:153-155 | the name is the trimmed first tab field and the state is the trimmed second; fields after the second are ignored |
| DockerState.BlankNameLine | gnome-extension/extension.js:153-155 | a first field of spaces is kept and maps the empty name |
| DockerState.FoldHas | gnome-extension/extension.js:152-156 | a name is a key of the map iff some line's entry names it |
| DockerState.FoldLastWins | gnome-extension/extension.js:152-156 | a name's state is the state of the last line that names it |
| DockerState.FoldEntriesStep | gnome-extension/extension.js:152-156 | one more line writes its entry, if any, over the map built so far |
| DockerState.ParseOneLine | gnome-extension/extension.js:149-156 | the output `web\trunning\n` parses to `{web: running}` |
| DockerState.OneLineLines | gnome-extension/extension.js:151 | the output `web\trunning\n` has the single line `web\trunning` |
| DockerState.ParseLastWins | gnome-extension/extension.js:149-156 | in `web\trunning\n\nweb\texited\n` the empty line is dropped and the later state `exited` wins |
| DockerState.TwoLinesWithGap | gnome-extension/extension.js:151 | the empty line between two lines is dropped and the two lines are kept in order |
| DockerState.WebRunningLine | gnome-extension/extension.js:153-155 | the line `web\trunning` names `web` with state `running` |
| DockerState.WebExitedLine | gnome-extension/extension.js:153-155 | the line `web\texited` names `web` with state `exited` |
| DockerState.LastWinsLines | gnome-extension/extension.js:151 | the lines of that two-line output, without the empty one |
| DockerState.LastWinsEntries | gnome-extension/extension.js:153-155 | both lines of that output name `web`, in order |
| DockerState.LastWinsFold | gnome-extension/extension.js:152-156 | of two entries for one name, the later one is kept |
| DockerState.EntriesSingle | gnome-extension/extension.js:152-156 | the entries of one line are that line's entry |
| DockerState.EntriesPair | gnome-extension/extension.js:152-156 | the entries of two lines are the two lines' entries, in order |
| Status.StatusOf | gnome-extension/extension.js:165-171 | the entry for one watched name given the parsed map; its meaning is the contract of `Status.StatusOfMeaning` |
| Status.AllRunning | gnome-extension/extension.js:162-169 | every entry is a running container entry, the value the `allRunning` fold reaches; characterised by `Status.AllRunningIff` |
| Status.Reconcile | gnome-extension/extension.js:164-193 | one container entry per watched name, in watch-list order, duplicates included; names the output has but the watch list lacks produce nothing |
| Status.StatusOfMeaning | gnome-extension/extension.js:165-171 | an entry is running iff the name is in the map with state exactly `running`; its text is "not found" iff the name is absent or its state is empty (or literally "not found"), and otherwise the state |
| Status.AllRunningIff | gnome-extension/extension.js:162-169 | `allRunning` holds iff every watched name is reported exactly `running`, vacuously for an empty watch list |
| Status.RunningFromEntries | gnome-extension/extension.js:152-166 | from output lines to entry: a watched name is running iff the last line that names it has the state `running` |
| Status.NotFoundFromEntries | gnome-extension/extension.js:152-171 | from output lines to entry: the text is "not found" iff no line names the name, or the last line that names it has an empty (or "not found") state |
| Status.LastIndexNaming | gnome-extension/extension.js:152-156 | when some line names the name, there is a last such line |
| Status.AllRunningAppend | gnome-extension/extension.js:168-169 | one more entry keeps `allRunning` iff that entry is running |
| Status.ReconcileStep | gnome-extension/extension.js:191-192 | one more watched name appends its entry to the section and records it for its name |
| Status.RunningWebShown | gnome-extension/extension.js:146-202 | the output `web\trunning\n` with the watch list `[web]` shows one running entry, and the OK icon |
| Status.MissingNameShown | gnome-extension/extension.js:164-171 | a watched name absent from the map shows "not found", is not running, and so selects the error icon |
| Status.FailureMessage | gnome-extension/extension.js:135-142 | the message `_setError` receives: the exception's message for a spawn or finish failure, "docker command failed" for an unsuccessful exit |
| Status.Indicator.constructor | gnome-extension/extension.js:35-41 | a new indicator has no entries, an empty `_containerItems` and the OK icon |
| Status.Indicator.UpdateFromOutput | gnome-extension/extension.js:146-203 | the section becomes `Reconcile` of the watch list against the parsed output, `_containerItems` maps each watched name to its entry, and the icon is OK iff every entry is running |
| Status.Indicator.SetError | gnome-extension/extension.js:205-216 | the section is the single error line, the icon is the error icon, and `_containerItems` is unchanged |
| Status.Indicator.Refresh | gnome-extension/extension.js:122-143 | only a successful exit reaches `_updateFromOutput`; a spawn failure, a finish failure and an unsuccessful exit all reach `_setError`, with the exception's message or "docker command failed" |
| WatchList.Appended | gnome-extension/prefs.js:60-64 | the name ends up in the list; the old list is kept as a prefix; the result holds exactly the old names plus the new one; a present name leaves the list as it is, and an absent one is appended at the end |
| WatchList.AddClicked | gnome-extension/prefs.js:55-67 | an entry whose trimmed text is empty leaves the list and the entry as they are; otherwise the trimmed name is appended unless present, and the entry is cleared |
| WatchList.AppendedIdempotent | gnome-extension/prefs.js:60-64 | adding the same name a second time changes nothing |
| WatchList.AppendedNoDuplicates | gnome-extension/prefs.js:61-63 | adding keeps a duplicate-free list duplicate-free |
| WatchList.AddedNameTrimmed | gnome-extension/prefs.js:56-58 | an added name is non-empty and has no white space at either end |
| WatchList.Without | gnome-extension/prefs.js:135-137 | the name no longer occurs; every other name keeps all its occurrences (as a multiset, the name's count becomes zero); removing an absent name changes nothing |
| WatchList.WithoutConcat | gnome-extension/prefs.js:136 | the remaining names keep their relative order: the filter distributes over concatenation |
| WatchList.WithoutNoDuplicates | gnome-extension/prefs.js:136 | removing keeps a duplicate-free list duplicate-free |
| WatchList.Dedup | gnome-extension/prefs.js:161 | `[...new Set(s)]` has no duplicates and exactly the elements of `s` |
| WatchList.Merge | gnome-extension/prefs.js:161 | the merged list has no duplicates and holds exactly the names of the current list and of the import |
| WatchList.ImportedNames | gnome-extension/prefs.js:159 | the imported names are the output's non-empty lines, each taken without trimming (`Text.BlankLineKept` shows a line of spaces kept) |
| WatchList.Import | gnome-extension/prefs.js:146-171 | an import that does not exit successfully leaves the list unchanged; a successful one gives a duplicate-free list of the current names and the imported lines |
| WatchList.DedupOrder | gnome-extension/prefs.js:161 | each element sits at its first-occurrence position: of two elements of the result, the earlier one occurs first in the input |
| WatchList.MergeOrder | gnome-extension/prefs.js:161 | of two names in the merged list, the earlier one occurs first in `current ++ names` |
| WatchList.MergeKeepsCurrent | gnome-extension/prefs.js:161 | a duplicate-free current list stays in front of the merged list, in its order |
| WatchList.MergeIdempotent | gnome-extension/prefs.js:161 | merging the same names into the result again changes nothing |
| WatchList.MergeExample | gnome-extension/prefs.js:161 | `["a","c"]` merged with `["b","a","d"]` gives `["a","c","b","d"]` |
| WatchList.DedupOfNoDuplicates | gnome-extension/prefs.js:161 | a duplicate-free list is its own dedup |
| WatchList.DedupAbsorbs | gnome-extension/prefs.js:161 | appending names the list already holds adds nothing to its dedup |
| WatchList.DedupPrefix | gnome-extension/prefs.js:161 | the dedup of a longer list starts with the dedup of its prefix |

## Left out

- The GNOME Shell and GTK/Adw widgets are not modelled: panel button, popup menu items, icons,
  CSS style classes, list-box rows and gettext translation. Menu entries are reduced to
  (name, running, status text) or an error message, and the icon to `StatusOk` / `StatusError`.
- The process spawn and the asynchronous `communicate_utf8_async` callback are not modelled. Only how
  the run ends (`Subprocess.Outcome`) is an input. The exception messages are free strings.
- The GLib timer (`_startPolling`, `_restartTimer`, `destroy`) and the settings-change subscriptions
  are not modelled; they are event-loop plumbing. Polls are modelled one at a time; the code has no
  guard against overlapping polls, and the model adds none.
- The refresh-interval bounds 5..300 are left out. Only the GTK adjustment widget enforces them.
- `CONTAINER_URLS` and launching a URL when an entry is clicked are left out: a static table plus a
  call into GIO.
- `_rebuildContainerList` is left out; it only rebuilds the widget list. Writing back to settings is
  the returned list.
- The `console.error` logging of a failed import is left out. The list is unchanged either way.
- An exception thrown inside `_updateFromOutput` itself would be caught by the callback and sent to
  `_setError`. Nothing in the modelled logic throws, so that path is not modelled.
- JavaScript strings are UTF-16 code units, but the model's `string` is a sequence of Unicode scalar
  values. Text outside the Basic Multilingual Plane is therefore not modelled unit by unit.
