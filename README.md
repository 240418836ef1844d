# sshrs host picker, modelled in Dafny

`sshrs` is a terminal picker for the hosts of an SSH configuration. The user
types a query that filters the host list, moves a cursor over the matches,
and opens a popup to enter an optional jump chain (`-J h1,h2`) with Tab
completion over the host names. Then `ssh` is started with the chosen host.
This project models the logic behind that:

- `searcher.dfy` (module `Search`): the query and the substring filter over
  the catalogue (src/searcher.rs). The class `Searcher` holds the query that
  `add_char`/`del_char` update in place.
- `completer.dfy` (module `Completion`): the jump-chain completer
  (src/completer.rs).
  - The value `CompleterState` holds the six fields and the pure meaning of
    each operation.
  - The class `Completer` updates the same fields step by step, and each of
    its methods is proved to produce exactly the state the pure operation
    describes.
  - Indexing an empty candidate list panics (line 42), and so does a
    remainder by zero (line 48). Both are modelled as an explicit `Panicked`
    outcome that keeps the fields written before the panic.
  - `Consistent()` is the invariant that rules out the second kind of panic.
- `app.dfy` (module `Selection`): the controller (src/app.rs).
  - Cursor rotation, character routing and the bounds-checked selected-item
    lookup.
  - The body of the event loop in `run`, as a pure `Step` over an abstract
    key type that returns the next state plus an outcome: `Continue`, `Quit`,
    `Spawn` or `Panic`.
  - `RunKeys`, the loop over a finite stream of keys.
  - The class `App`, whose `HandleKey` and `Run` methods mutate the fields
    and the two sub-objects, and are proved against `Step` and `RunKeys`.
- `main.dfy`, module `Cli`: the argument handling of src/main.rs.
  - `parse_args`, which splits `-opt=value` arguments.
  - The option loop, which ends in `Usage`, `Version` or
    `Run(config, search)`.
  - The `ssh` argument vector built from the final state.
- `main.dfy`, module `Scenarios`: three worked examples of the whole program.
- `strings.dfy`, `seqs.dfy`, `catalog.dfy`, `wrappers.dfy`: the Rust string
  and iterator operations used, the catalogue record, and `Option`.

Two behaviours of the code that are easy to misread, both modelled as
written:

- The popup's chain may be confirmed when the completer is not in free-text
  mode, OR the display ends in a comma, OR it is empty (src/app.rs:109-111).
- A completion with no candidate panics; it is not a no-op.

## Model

| member | source | states |
|---|---|---|
| Search.FilteredHosts | src/searcher.rs:13-23 | an empty query returns the catalogue unchanged; every host kept contains the query; the result is no longer than the catalogue |
| Search.FilteredHostsIsFilter | src/searcher.rs:13-23 | the empty-query shortcut agrees with the general substring filter, so the result is always that filter |
| Search.FilteredHostsExact | src/searcher.rs:18-22 | the result is the subsequence of the catalogue at strictly increasing positions, and a position is taken exactly when its host contains the query |
| Search.FilteredHostsCount | src/searcher.rs:18-22 | every item occurs in the result as often as in the catalogue if its host matches, and not at all otherwise |
| Search.FilteredHostsIdempotent | src/searcher.rs:21 | filtering the filtered list again with the same query changes nothing |
| Search.Searcher.GetFilteredHosts | src/searcher.rs:13-23 | with an empty query the whole catalogue; otherwise only hosts containing the query, never more than the catalogue; it reads nothing but the query |
| Search.Searcher.constructor | src/searcher.rs:7-11 | the query starts as the given string |
| Search.Searcher.AddChar | src/searcher.rs:24-26 | the new query is the old one with the character appended |
| Search.Searcher.DelChar | src/searcher.rs:28-30 | the new query is the old one with its last character removed, unchanged when empty |
| Strings.PushPop | src/searcher.rs:24-30 | appending a character and popping it restores the string |
| Strings.Pop | src/searcher.rs:29 | popping the empty string gives the empty string; otherwise the old string is the result plus its last character |
| Strings.ContainsIff | src/searcher.rs:21 | `contains` holds exactly when the needle occurs at some position |
| Seqs.FilterIsSubsequence | src/searcher.rs:18-22 | an iterator filter keeps exactly the passing elements, in their original order |
| Seqs.FilterCount | src/searcher.rs:18-22 | an iterator filter keeps each passing value as often as it occurs, and drops the others |
| Catalog.Hosts | src/completer.rs:27 | mapping to host names keeps the length, and each name is that of the item at the same position |
| Completion.FilteredJumpers | src/completer.rs:22-29 | every candidate starts with the fragment; there are no more candidates than catalogue entries |
| Completion.FilteredJumpersByName | src/completer.rs:22-29 | filtering the items and then taking their names equals taking the names and then filtering them |
| Completion.FilteredJumpersExact | src/completer.rs:22-29 | the candidates are the catalogue's host names with the given prefix, exactly and in catalogue order |
| Completion.FilteredJumpersEmpty | src/completer.rs:22-29 | there is no candidate exactly when no host starts with the fragment |
| Completion.SplitChain | src/completer.rs:33-36 | with a comma, the display is the chain prefix, a comma and a comma-free fragment; without one, the prefix is "" and the fragment is the whole display |
| Strings.RSplitOnce | src/completer.rs:35 | no result exactly when the separator does not occur; otherwise the string is left part, separator, right part, with no separator in the right part |
| Strings.RSplitOnceUnique | src/completer.rs:33-36 | the split at the last separator is the only split whose right part is free of the separator |
| Completion.Rebuild | src/completer.rs:41-44 | the rebuilt display always ends in a comma |
| Completion.RebuildSplit | src/completer.rs:41-44 | without its final comma, the rebuilt display is `host` or `prefix,host`, and it splits back into the prefix and the host |
| Completion.Init | src/completer.rs:12-21 | the initial state is consistent and its chain is confirmable |
| Completion.CompleterState.AddChar | src/completer.rs:58-61 | typing enters free-text mode, so the state remains consistent |
| Completion.CompleterState.DelChar | src/completer.rs:62-65 | deleting enters free-text mode, so the state remains consistent |
| Completion.CompleterState.Clear | src/completer.rs:66-70 | clearing empties the display and the chain prefix and enters free-text mode; candidates, fragment and index stay the same; the result is consistent and its chain is confirmable |
| Completion.CompleterState.Finalizable | src/app.rs:109-111 | the chain may be confirmed exactly when the completer is not in free-text mode or there is no unfinished fragment after the last comma |
| Completion.NoFragmentIff | src/app.rs:110-111 | a display ends in a comma or is empty exactly when the fragment after its last comma is empty |
| Completion.CompleterState.Complete | src/completer.rs:30-57 | a completion that does not panic leaves free-text mode and a consistent state; a consistent state can panic only in free-text mode; outside free-text mode it panics exactly when there are no candidates |
| Completion.CompleterState.Restart | src/completer.rs:33-46 | a free-text completion sets the chain prefix and fragment to the split of the display at its last comma and the candidates to those of the fragment; it panics exactly when there are none; otherwise it shows `prefix,first,` (or `first,`) with index 1, outside free-text mode and consistent |
| Completion.CompleterState.Advance | src/completer.rs:47-54 | a cycling completion panics exactly when the candidate list is empty (remainder by zero); otherwise it ends consistent and outside free-text mode, with prefix, fragment and candidates unchanged and the index one higher |
| Completion.CompleteFresh | src/completer.rs:33-40 | a free-text completion sets the chain prefix to the text before the last comma and the fragment to the text after it ("" and the whole display without a comma); it recomputes the candidates for that fragment, and it panics exactly when no host starts with the fragment |
| Completion.CycleFrom | src/completer.rs:47-54 | `n` further completions never panic, change nothing but the index (which grows by `n`) and the display, and the display shows candidate `(idx + n - 1) % len` |
| Completion.CycleFresh | src/completer.rs:30-57 | from free-text mode with candidates, the n-th completion in a row shows candidate `(n - 1) % len` of the fragment's candidates after the chain prefix, with index `n` |
| Completion.CycleOfThree | src/completer.rs:30-57 | with three candidates a, b, c, four completions in a row show a, b, c, a |
| Completion.FinalizableWhenConsistent | src/app.rs:109-111 | under the completer invariant, the `!has_popup_input` disjunct of the confirm test adds nothing: the chain is confirmable exactly when the display ends in a comma or is empty |
| Completion.Completer.constructor | src/completer.rs:12-21 | empty strings and candidates, index 0, free-text mode |
| Completion.Completer.Complete | src/completer.rs:30-57 | the fields become exactly the pure completion's result, the panic flag is set exactly when it panics, and the invariant is kept |
| Completion.Completer.AddChar | src/completer.rs:58-61 | free-text mode, one character appended to the display |
| Completion.Completer.DelChar | src/completer.rs:62-65 | free-text mode, the last character of the display removed |
| Completion.Completer.Clear | src/completer.rs:66-70 | free-text mode, display and chain prefix emptied, nothing else changed |
| Selection.Rotate | src/app.rs:35-52 | no rows: unchanged; otherwise the new cursor is within the rows even if the old one was stale; no cursor gives 0; forward wraps the last row to 0 and backward wraps 0 to the last row; every other move is one step |
| Selection.RotateRoundTrip | src/app.rs:44-46 | for a cursor on a row, forward then backward (or backward then forward) returns to it |
| Selection.AppState.FilteredItems | src/app.rs:67-69 | the filtered rows are the whole catalogue for an empty query, and otherwise hosts containing the query, never more than the catalogue |
| Selection.AppState.ChangeSelected | src/app.rs:35-52 | only the cursor moves; with no filtered rows it stays put, otherwise it always lands on an existing row |
| Selection.AppState.AddChar | src/app.rs:53-58 | the character goes to the completer's display with the popup shown and to the query otherwise; cursor, popup and launch flag stay; the invariant is kept |
| Selection.AppState.DelChar | src/app.rs:60-65 | one character is popped from the completer's display with the popup shown and from the query otherwise; cursor, popup and launch flag stay; the invariant is kept |
| Selection.AppState.Confirm | src/app.rs:104-118 | cursor, query and completer stay; the popup is shown afterwards exactly when it was or a row is selected; a launch is decided exactly when one was, or a row is selected, the popup is shown and the chain is confirmable |
| Selection.AppState.SelectedItem | src/app.rs:70-81 | a row is returned exactly when the cursor is set and within the filtered list, and it is the filtered row under the cursor |
| Selection.AppState.Step | src/app.rs:88-125 | the invariant is kept; a panic can come only from Tab in free-text mode; the loop quits exactly on Esc with the popup hidden |
| Selection.Settle | src/app.rs:123-125 | the state is unchanged; the loop breaks to launch exactly when a launch was decided, and otherwise goes on |
| Selection.New | src/app.rs:22-34 | a new controller is consistent, has no launch decided and no popup shown |
| Selection.RunKeys | src/app.rs:83-129 | the loop over any key stream keeps the invariant |
| Selection.EscHidesOrQuits | src/app.rs:89-95 | Esc with the popup shown hides it and clears the chain, which is then empty and confirmable; Esc with the popup hidden quits with nothing changed |
| Selection.TypedCharRouting | src/app.rs:53-58 | a typed character goes to the completer's display (free-text mode; candidates, index, chain prefix and fragment kept) when the popup is shown, and to the query otherwise; nothing else changes |
| Selection.DeleteRouting | src/app.rs:60-65 | Backspace is routed the same way and removes one character; with the popup shown the completer enters free-text mode and keeps its candidates, index, chain prefix and fragment |
| Selection.TypeThenDelete | src/app.rs:53-65 | with the popup hidden, typing a character and deleting it restores the state |
| Selection.NavigateAnyMode | src/app.rs:102-103 | Up and Down rotate the cursor over the current filtered list, change nothing else, and do not depend on the popup |
| Selection.TabAnyMode | src/app.rs:119 | Tab completes whether or not the popup is shown, and panics exactly when the completion does |
| Selection.OtherKeyNoop | src/app.rs:120 | any other key or event changes nothing and the loop goes on |
| Selection.EnterGating | src/app.rs:104-118 | Enter without a selected row does nothing; with one it opens a hidden popup; with the popup shown it decides to launch exactly when the chain is confirmable |
| Selection.SpawnOnlyOnConfirm | src/app.rs:104-125 | a launch is decided only by Enter with the popup shown, a confirmable chain and a selected row, which stays selected |
| Selection.RunSpawnHasSelection | src/app.rs:83-129 | a loop that is still waiting has decided nothing; a loop that breaks to launch has a selected row |
| Selection.App.constructor | src/app.rs:22-34 | the fields match the initial controller state, with the given catalogue |
| Selection.App.GetFilteredItems | src/app.rs:67-69 | the rows of the current query over the stored catalogue: all of it for an empty query, otherwise only hosts containing the query |
| Selection.App.GetSelectedItem | src/app.rs:70-81 | returns the pure selected-item lookup |
| Selection.App.ChangeSelectedItem | src/app.rs:35-52 | the fields become the pure rotation's result |
| Selection.App.AddChar | src/app.rs:53-58 | the fields become the pure routing's result |
| Selection.App.DelChar | src/app.rs:60-65 | the fields become the pure routing's result |
| Selection.App.HandleKey | src/app.rs:88-125 | the new fields and the outcome are exactly one pure step; the invariant is kept |
| Selection.App.Run | src/app.rs:83-129 | the final fields and outcome are exactly the pure loop over the key stream |
| Cli.SplitArg | src/main.rs:87-92 | a `-opt=value` argument becomes at least two pieces, none containing `=`, that join back to it; any other argument stays as it is |
| Cli.ExpandArgs | src/main.rs:84-96 | the expansion is never shorter than the input, and has the same length exactly when no argument is of the form `-opt=value` |
| Strings.Split | src/main.rs:88 | at least one piece; the pieces joined with the separator give the string back; no piece contains the separator |
| Strings.SplitJoin | src/main.rs:88 | splitting undoes joining, for separator-free pieces |
| Cli.ParseArgs | src/main.rs:84-96 | the loop returns the argument-by-argument expansion of its input |
| Cli.PushAll | src/main.rs:88-90 | pushing the pieces one by one appends them in order |
| Cli.ExpandArgsConcat | src/main.rs:86-94 | expansion works argument by argument and keeps their order |
| Cli.ExpandArgsPlain | src/main.rs:91-93 | arguments none of which is `-opt=value` come through unchanged |
| Cli.ExpandArgsAllPlain | src/main.rs:87-92 | no returned argument is of the form `-opt=value` |
| Cli.ExpandArgsIdempotent | src/main.rs:84-96 | expanding an expanded list changes nothing |
| Cli.Options | src/main.rs:18-38 | the loop ends in `Run` only after consuming an even number of arguments (flag and value pairs), and the config and search it ends with are the starting ones or arguments it read |
| Cli.ParseOptions | src/main.rs:14-38 | the loop, started from config `~/.ssh/config` and search "", ends in the result of the option grammar |
| Cli.OptionsCompose | src/main.rs:18-38 | options are consumed left to right; what follows a fully read prefix is read from the values that prefix left |
| Cli.OptionsStop | src/main.rs:20-36 | after well-formed options, a help or version flag gives usage or version whatever follows; `-s`/`-c` with no value or an unknown argument gives usage |
| Cli.LaterOptionWins | src/main.rs:22-35 | a later `-s` or `-c` overrides the value of an earlier one and keeps the other |
| Strings.TrimEnd | src/main.rs:64 | the result is a prefix that does not end in the character, and everything cut off is that character |
| Cli.JumpChain | src/main.rs:64 | the chain passed on is the display with all trailing commas removed |
| Strings.FirstPiece | src/main.rs:67 | the result is a prefix without the separator, followed in the string by the separator or by nothing |
| Cli.HostArg | src/main.rs:67 | the host argument is the host name up to its first space |
| Cli.SshArgs | src/main.rs:63-76 | one argument, the host, exactly when the display is all commas; otherwise `-J`, the non-empty trimmed chain, then the host |
| Cli.LaunchAfter | src/main.rs:58-77 | nothing is launched exactly when no launch was decided; `exit(1)` exactly when one was but no row is selected; otherwise `ssh` with the argument list for the selected row's host |
| Cli.Start | src/main.rs:43-52 | the loop starts consistent, with no popup, no launch and the cursor on row 0 |
| Cli.LaunchAfterSpawn | src/main.rs:58-77 | for every key stream that ends in a launch, a row is selected, so the `exit(1)` of line 61 is never reached, and `ssh` is started with that row's arguments |
| Scenarios.PickSecond | src/app.rs:102-118 | query "a" keeps alpha, beta and gamma; Down, Enter, Enter launches `ssh beta` |
| Scenarios.CompleteChain | src/completer.rs:33-46 | completing "h1,w" over h1, web1, db gives the prefix "h1", the single candidate web1 and the display "h1,web1,"; the chain is not confirmable before and is after |
| Scenarios.LaunchChain | src/main.rs:63-76 | the chain "h1,web1," launches `ssh -J h1,web1 db`; clearing leaves an empty, confirmable chain |

## Left out

- src/ui.rs (drawing, layout, cursor placement by display width) is not
  part of this model.
- src/configstore.rs is not part of this model. The catalogue is a given
  `seq<SshItem>`; parsing the configuration, the `ssh_cfg` library and
  `whoami` are not modelled. Only `host` takes part in the logic.
- `App::new`'s error path when the configuration cannot be read, and the
  `eprintln`/`exit(1)` that follows it (src/main.rs:43-49), are left out
  for the same reason.
- Terminal I/O is left out: `terminal.draw`, the blocking `event::read`,
  `init_terminal` and `restore_terminal`.
  - Keys arrive as a finite sequence, and a stream that runs out while the
    loop still waits is reported as `Continue`.
  - Events that are not key presses, and keys with no binding, are the
    single key `Other`.
  - I/O errors from `draw`/`read` are not modelled.
- Process effects are left out: `std::env::args` (the argument list is a
  parameter), `shellexpand::tilde`, and `Command::spawn`/`wait`. The model
  stops at the program name and argument vector that would be started.
- The text printed by `print_usage`/`print_version` is not modelled; only
  the decision to print it is.
- `idx` and the cursor are unbounded naturals. A `usize` overflow of
  `idx += 1` or of `i + items_len - 1` is not modelled; neither can occur
  in practice.
- `char` is one Unicode scalar value and strings are sequences of them, as
  in Rust's `push`/`pop`. Byte offsets are not modelled.
- Completion.Completer.Complete: requires the completer's invariant
  (`Valid`), which the constructor establishes and every method keeps. The
  remainder-by-zero panic of line 48 therefore cannot be reached through the
  class. It is still modelled in the pure `CompleterState.Advance`.
- A panic is modelled as an outcome that ends the run (`Panic`). Unwinding
  and terminal restoration after it are not modelled.
