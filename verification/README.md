# RedLab, modelled and verified

RedLab lets participants repair an emulated RHEL host. A scenario package builds the host, a small
shell changes it, every line goes into a hash-chained log, and the log is what reports, signed
bundles and crash recovery rely on. This project models the emulator and the machinery around
the log, and proves what each of them keeps over every input, run or interleaving of steps.

`dafny verify dfyconfig.toml` checks all of it.

## The parts

* **Strings and paths.** `Text` (sorting, substring search, byte lengths), `Paths` (`path.Clean`,
  `path.Dir`, `NormalizePath`), `PathSteps` (what a path leads to, component by component), `PackagePaths`
  (the two guards on archive names); `Options`.
* **The machine** (`internal/system/state.go`). `Host` is its data as one value. `FileTree`, `Services`
  and `Machine` give each operation as a function on that value. `FileMoves`, `FileTheorems`,
  `FileConservation`, `FileLimits`, `RegularMoves`, `FileGuards`, `FileMeaning`, `Arrivals`, `Accounts` and
  `Website` say what the operations mean, keep and lose, `Access` which user they are granted to, by mode
  bits, and `Units` what starts, stops and signals do to a unit. `Boot` makes a machine of a scenario package,
  and `FirstMachine` says what is on it.
  `VirtualMachine.State` is the object as it is in memory: every Go map is a heap object of its own,
  firewall zones hold maps inside maps, and the snapshot must share none of them. Its methods carry the
  loops of the original, each is proved to do what the function on values says, and whole runs on the
  objects are proved equal to runs on values.
* **The shell.** `Shell` is lexer, operator recombination and statement builder, as loops and as the
  functions they compute; `Quoting` says what every spelling of a word is read as; `ShellPrinter` is a
  printer, and when exactly parsing undoes it.
* **Sessions** (`internal/runtime/session.go`). `Interpreter` runs the statements of a line; `Expansion` and
  `Pipes` say what its words, pipes and redirections mean, in terms of what handlers read and write.
  `Session` records lines and replays the log; `Lines` and `LabCommands` say what one line leaves, and
  `Hints` and `Progress` account for hint costs, notes and answers.
* **Evidence.** `Evidence` (the chain, and the redacted chain of the exports), `Redaction`, `Bundle`
  (writer and verifier of submissions; a zip file, `Zip`, is its list of entries).
* **Derived views.** `Rules` (conditions and effects) and `Conditions` (their laws, and which operations make
  which test hold), `StateDiff` (the change list of a report),
  `Archive` (scenario archives) and `Digest`.
* **The server.** `RateLimiter`, `Server` (session, restart and refresh-token steps), `Store` (tables),
  `Recovery` (what the rows are after requests that follow one another, and what recovery rebuilds),
  `Persistence` (the single steps of requests that overlap in any order), `Overlaps` (the runs that
  go wrong) and `Counters` (what the stored counters are worth then, and what recovery brings back).

SHA-256, JSON and Ed25519 are parameters. Where a result needs more of them than determinism, that is
a predicate `Sane` of the parameter, or the result says "equal, or an explicit collision". Clocks and
fresh identifiers are inputs. A section under a mutex, or an SQL statement or transaction, is one atomic
step, in `Persistence` and in `Server`; `Recovery` takes a whole request as one step, and
`Persistence.RequestIsRun` shows that this is the run in which its steps are not interrupted.

## Where the code falls short of the obvious claim

Each of these is a lemma with the exact condition, or with the input that shows it.

* `mv f f/x` of a regular file is accepted and removes the file (`MoveBelowItselfLoses`,
  `MoveLosesExact`). A move keeps the number of inodes only onto a free target with a parent
  (`MoveExact`); `mv /x/y/y /x` resolves to an ancestor of its source and loses some
  (`MoveOntoAncestorLoses`).
* A copy or move keeps the filesystem a tree only if the entries on the way to the target are directories
  and every regular file comes to lie where nothing is below it (`CopyExact`, `CopyApartExact`). The loop
  reads the map that it writes, so that onto an ancestor of the source an entry can be overtaken by a
  deeper one (`Carried`); `cp -r /x/y/y /x` can put a file in place of its own directory
  (`CopyOntoAncestorBreaks`). The other operations have exact conditions too (`CreateExact`,
  `RefusedCreateExact`, `EnsureExact`, `MakeDirExact`), and together they are exact for every operation,
  accepted or refused (`ApplyExact`), and for every run (`RunExact`).
* A scenario entry or package file may lie where a directory of the base is, or below a file
  (`EntryOverDirectoryBreaks`); otherwise a new machine is sound (`FreshExact`), and stays so as far as the
  operations' guards hold (`LifeExact`).
* A user name need not be one path component: `useradd x/y` leaves entries without a directory above them
  (`NestedNameBreaks`, `NewUserExact`).
* A start that fails while the unit runs leaves a stale process table (`StartSyncExact`).
* A session replays from its log unless the first recorded line was rejected: such a line does not take
  the second that the replay subtracts (`ReplayExact`). The documentation promises replay without this
  exception.
* A branch behind `||` never runs and `;` stops at a failure (`ListSemantics`), unlike section 2.9.3 of
  the POSIX.1-2017 Shell Command Language. Quoting does not survive lexing (`QuotedWordExact`). What a
  line exports after its `lab reset` is lost (`ExportsAfterResetAreLost`).
* Redaction leaves a secret readable exactly when some secret is part of the word `REDACTED`, as long as
  secrets have no brackets (`RedactExact`). With brackets it can fail too (`BracketSecretSurvives`). For a
  single secret of any kind there is an exact condition on how it overlaps the mark (`SingleSecretExact`);
  several secrets are all removed when none of them can overlap it (`RedactsAll`). The documentation
  promises redaction for every password.
* Rules of which one reads a page that another writes need not reach a fixpoint (`HttpRulesKeepMoving`,
  `RulesFixpoint`).
* The request limiter can let `2 * limit - 1` requests through in sixty seconds, and never more
  (`BoundReached`, `BelowTwiceTheLimit`).
* Without a store, refresh tokens do not expire (`MemoryIgnoresTime`, `MemoryExact`).
* A request that overlaps a restart can leave rows that are no prefix of the chain. It needs a call of
  persistSession that took its events before the restart's clear and saves one after it: an event of
  before the restart comes back (`StaleRowReturns`), or a later event is saved without the cleared one
  before it, and recovery refuses the rows (`ClearLeavesGap`). The condition is exact (`PrefixExact`); such
  a save does no harm when the restarted session has come to the same event again (`SameLineFits`).
  Without restarts nothing of this happens (`PrefixWithoutRestarts`).
* The counters of a session's row are read at three moments of one call and written at a fourth. A request
  that is carried out and persisted in between is forgotten: a restart (`RestartForgotten`), a judging
  (`JudgingForgotten`), or that a submitted session was restarted (`SubmissionReturns`). The row is current
  exactly if no restart was let through since its reading, and the last grade, submission or restart since
  left what was read (`CountersExact`); `SameGradeFits` is a run in which it did. Recovery brings count and
  judging back exactly then, and the whole session exactly if the chain is saved too
  (`RecoversAfterOverlap`).
* A package whose contents hold NUL bytes can share its digest with another (`NulIsAmbiguous`): a package
  without NUL has such a double exactly if it has two files or more (`SharedExact`), and one with the same scenario
  document exactly if two of its other files are neighbours in name order (`SharedWithDocumentExact`). Package
  names such as `a/../b` and `a\b` are not refused, as the documentation says, but cleaned
  (`NormalizedIsIdentity` says which come back as they were).

## Model

| member | source | states |
|---|---|---|
| Paths.NormalizeMeaning | internal/system/state.go:1011-1026 | from a canonical directory, every non-empty input is accepted, and the answer is its components folded over the directory's, each by the cases of the next rows; it is absolute, without empty, `.` or `..` components |
| PathSteps.ComponentLeads | internal/system/state.go:1011-1026 | a single component leads, from the directory or from the root, to the same place if it is empty or `.`, to the parent (of the root, the root) if it is `..`, and else to the child of that name |
| PathSteps.AppendLeads | internal/system/state.go:1011-1026 | and so does one more component behind any path |
| PathSteps.WalksDetermine | internal/system/state.go:1011-1026 | these cases leave no choice: whatever reads paths in this way gives the answers of NormalizePath |
| Paths.NormalizeIdempotent | internal/system/state.go:1011-1026 | normalising a canonical path again, from any directory, changes nothing |
| Paths.CanonicalDoesNotEscape | internal/system/state.go:1022-1024 | the escape test never fires on a canonical path |
| PathSteps.ChangeDirExact | internal/system/state.go:879-892 | `cd` is accepted if and only if its path is an existing directory, and that is then the directory |
| PathSteps.ChangeDirThen | internal/system/state.go:879-892 | after `cd a` a relative path `p` is what `a/p` was before |
| FileTree.EnsureParentsMeaning | internal/system/state.go:1042-1050 | the missing proper ancestors of the path, and nothing else, are added, each as an empty root-owned directory |
| FileMeaning.WriteMeaning | internal/system/state.go:334-359 | a write leaves the text (behind the old text when appending) in the named entry, keeps its owner and mode or gives a new one to the writer, and adds at most missing ancestors |
| FileMeaning.TouchMeaning | internal/system/state.go:446-463 | touch leaves an existing entry alone and creates an empty one otherwise, with at most its missing ancestors |
| FileMeaning.MakeDirAllMeaning | internal/system/state.go:415-445 | after `mkdir -p` the path is a directory in a tree, nothing old has changed and all that is new lies on the path |
| FileMeaning.RemoveMeaning | internal/system/state.go:464-491 | removal takes exactly the entry and what is below it, never the root, or changes nothing |
| Access.OverwriteExact | internal/system/state.go:1057-1083 | overwriting is accepted, for a known user other than root, by bit 0o200 of the mode if the user owns the entry, by 0o020 if not and in its group, and by 0o002 otherwise; root always may and an unknown user never |
| Access.ReadExact | internal/system/state.go:318-333 | reading a file in the same way by 0o400, 0o040 and 0o004; what is read is the content |
| Access.AcceptedExact | internal/system/state.go:334-491 | exactly when a write, touch, mkdir and removal are accepted, for every user and name: by the bits of the entry, or of the directory, which only root can do without |
| Access.CopyAcceptedExact | internal/system/state.go:500-568 | exactly when a copy or move is accepted: by the read bits of the source and the write bits of the target's directory and of what the target replaces |
| Access.NewFileAccess | internal/system/state.go:334-359 | a new file can be read by every user, and written again by root and its creator alone |
| Access.NewDirectoryAccess | internal/system/state.go:397-413 | in a new directory root and its creator, and nobody else, can make files |
| Arrivals.CopyArrives | internal/system/state.go:524-566 | an accepted copy or move leaves the source's own entry, with its owner, group, mode and content, under its last component in a target that is a directory, and at the target otherwise |
| Arrivals.MakeDirAllExact | internal/system/state.go:415-445 | `mkdir -p` of a missing path is accepted if and only if the deepest entry above it is a directory that the user may write; otherwise it changes nothing; all it makes belongs to the user and the user's first group, with mode 0755 |
| Arrivals.ParentsExact | internal/system/state.go:1042-1050 | what is created on the way to a path is empty directories of root's with mode 0755 |
| Arrivals.RefusedBecause | internal/system/state.go:334-491 | which error a write, touch, mkdir or removal is refused with |
| FileMoves.CopyEntriesMeaning | internal/system/state.go:548-559 | the copying loop, which reads the map it writes, puts under each landing key the entry it finds in its turn, and leaves every other key alone, wherever the target is |
| FileMoves.CopyIsCopied | internal/system/state.go:546-559 | the loop over the sorted keys of a directory, onto any target, has one result, in which an entry is overtaken exactly by one that lands on it in an earlier turn |
| FileMoves.CopiedIsOverlay | internal/system/state.go:546-559 | for disjoint source and target nothing is overtaken: the result is the old subtree written over the target |
| FileMoves.CopyTreeExact | internal/system/state.go:541-566 | with a directory above the target, a copy or move onto any target keeps the tree if and only if every regular file comes to lie where nothing is below it |
| FileMoves.OverlayTreeExact | internal/system/state.go:541-566 | for disjoint source and target: if and only if nothing is below the places where the source's regular files land |
| FileTheorems.CopyDecision | internal/system/state.go:500-568 | a copy or move is all or nothing: it is carried out exactly when the listed checks pass; otherwise the map is as it was, or grown by the target's parents exactly when the refusal came after the first checks |
| FileTheorems.AcceptedIsResult | internal/system/state.go:500-568 | an accepted copy or move onto any target that is not below the source leaves the loop's result on the grown map, without the source after a move |
| FileTheorems.CopyIsOverlayOnTree | internal/system/state.go:500-568 | for disjoint source and target that is the overlay |
| FileTheorems.MakeDirAllKeepsTree | internal/system/state.go:415-445 | `mkdir -p` keeps the tree without any guard |
| FileTheorems.RemovalKeepsTree | internal/system/state.go:464-491 | removal keeps the tree without any guard |
| FileGuards.EnsureExact | internal/system/state.go:1042-1050 | creating the parents of a path keeps the tree if and only if its parent is there or the existing entries on the way are directories |
| FileGuards.CopyExact | internal/system/state.go:500-568 | an accepted copy or move of a file or directory, onto any target not below the source, keeps the tree if and only if the way to the target is directories and there is room for the regular files |
| FileGuards.CopyApartExact | internal/system/state.go:500-568 | for disjoint source and target: if and only if the way is directories and nothing is below the landing places of regular files |
| FileGuards.CopyOntoAncestorBreaks | internal/system/state.go:524-559 | `cp -r /x/y/y /x` as root, with a regular file `/x/y/y/y`, is accepted and leaves no tree |
| FileGuards.ApplyExact | internal/system/state.go:334-568 | every filesystem operation by any user, accepted or refused, keeps the tree (canonical keys equal to the entry's path, `/` a directory, every other entry below a directory) if and only if its guard holds |
| FileConservation.MoveRelocates | internal/system/state.go:500-568 | a move to a free place outside the source is accepted, maps each source key to its renamed key with the same entry, and changes no other key |
| FileConservation.MoveConserves | internal/system/state.go:560-566 | a relocation keeps the number of inodes and of bytes |
| FileConservation.CopyAdds | internal/system/state.go:546-559 | `cp -r` to a free place adds exactly the subtree's inodes and bytes and keeps every old entry |
| FileConservation.RelocatedBack | internal/system/state.go:546-566 | relocating there and back is the identity on the map |
| FileConservation.MoveBackRestores | internal/system/state.go:500-568 | moving a subtree away and back restores the whole host |
| FileLimits.CreateExact | internal/system/state.go:334-359 | a created entry keeps the tree if and only if the existing entries on its way are directories |
| FileLimits.RefusedCreateExact | internal/system/state.go:349-352 | a refused creation changes nothing if and only if the parent was there |
| FileLimits.MakeDirExact | internal/system/state.go:397-413 | mkdir adds one empty directory where nothing was, or changes nothing; and it keeps the tree if and only if its parent is an existing directory |
| FileLimits.RegularOverExact | internal/system/state.go:541-543 | a regular file over an entry keeps the tree if and only if nothing is below that entry |
| FileLimits.MoveExact | internal/system/state.go:524-566 | an accepted move of a file or a directory with all its entries, onto any target not below it, loses inodes if and only if the target exists, and keeps their number if and only if it is free and its parent exists |
| FileLimits.MoveOntoAncestorLoses | internal/system/state.go:524-532 | `mv /x/y/y /x` as root, on four nested directories, is accepted and loses inodes |
| RegularMoves.MoveBelowItselfLoses | internal/system/state.go:530-566 | an accepted move of a regular file below itself ends in the old map without the file |
| RegularMoves.MoveLosesExact | internal/system/state.go:530-566 | an accepted move of a regular file puts it, unchanged, at the target, except exactly when the target is below the file |
| Services.CoveredIsSound | internal/system/state.go:1126-1139 | a table built for at least the running units has PID 1, distinct PIDs and exactly one row per running unit |
| Services.TableInjective | internal/system/state.go:1126-1139 | the process table determines the set of units it was built for |
| Services.StartSyncExact | internal/system/state.go:723-749 | a start leaves a correct table correct, except exactly when a condition fails while the unit is running |
| Services.RefusedSignalChangesNothing | internal/system/state.go:644-668 | with distinct PIDs a signal that is refused has changed nothing |
| Units.SignalMeaning | internal/system/state.go:644-668 | a signal to the one row of a unit is refused for PID 1 and for users other than root and the row's; otherwise it stops that unit and no other, rebuilds the table, logs one line and closes the ports of the web unit |
| Units.KillExact | internal/system/state.go:644-668 | under a correct table every running unit has a PID by which root, and nobody else, stops it |
| Units.SignalToNobody | internal/system/state.go:644-668 | a signal to a PID without row is accepted and only rebuilds the table |
| Units.TableExact | internal/system/state.go:1126-1139 | a correct table is init and the running units in the order of their names, with these PIDs, owners and figures |
| Services.TableAlwaysSound | internal/system/state.go:644-668 | over every run of start, stop, enable, signal and reset the table is sound, and it is the dense name-sorted list when no failed start hit a running unit |
| Services.PublishMeaning | internal/system/state.go:1107-1124 | port 80 of every address, and no other port, opens when the web unit runs and some zone allows http |
| Services.StartMeaning | internal/system/state.go:741-749 | a start with its conditions met sets one unit running, logs one line at the current time and publishes the web ports |
| Units.StartExact | internal/system/state.go:723-749 | root's start is carried out if and only if each condition of the unit is met, where the conditions are said in terms of texts, modes, units and zones |
| Units.OperationsMeet | internal/system/state.go:1084-1098 | a write of a text meets the condition for its parts, and allowing a service the condition for it |
| Units.StopMeaning | internal/system/state.go:750-766 | a stop sets one unit stopped, rebuilds the table, logs one line and closes the ports of the web unit and no others |
| Units.OperatedByRoot | internal/system/state.go:723-780 | starts, stops, enabling and disabling by other users, or of units that are not there, are refused with their own errors and change nothing |
| Services.FailureLogged | internal/system/state.go:735-738 | those messages are logged in their order, at the current time, behind everything logged before |
| Services.StopUndoesStart | internal/system/state.go:1140-1148 | whatever a start did, after the stop of the web unit no address has port 80 |
| Website.ServedWhileRunning | internal/system/state.go:816-865 | allow http, start the web unit: a URL resolving to any address of the host answers 404; stop it: 503 |
| Website.NotServedUnlessAllowed | internal/system/state.go:1107-1124 | with http allowed in no zone, starting a unit opens no port |
| Machine.NextUidExists | internal/system/state.go:945-950 | there is an id above all in use, at least 1000 and no higher than needed |
| Machine.NextUid | internal/system/state.go:945-950 | the id a new user gets is that one |
| Machine.HomeExact | internal/system/state.go:951-955 | the home entries of a new user, whatever its name, keep the tree if and only if the home is a canonical path below a directory and nothing is below its two files |
| Machine.NewUserExact | internal/system/state.go:933-958 | adding a user keeps the tree if and only if it is refused or there is room for the home |
| Machine.NestedNameBreaks | internal/system/state.go:939-955 | `useradd x/y` is accepted and, without a directory `/home/x`, leaves no tree |
| Machine.UnitsKeepRest | internal/system/state.go:644-780 | unit operations write units, table, journal and ports and nothing else |
| Machine.CwdStaysCanonical | internal/system/state.go:879-892 | every operation leaves a canonical working directory and the snapshot as it was |
| Machine.RunKeepsSound | internal/system/state.go:291-1010 | in every run of every operation, resets included, whose guards hold, the filesystem stays a tree, the process table sound and the snapshot what it was |
| Machine.RunExact | internal/system/state.go:291-1010 | the guards lose nothing: a run is sound after every operation if and only if each guard holds |
| Machine.PagesStay | internal/system/state.go:866-869 | in a run without reset a published URL never disappears, and its response changes only when it is published again |
| Accounts.NewUserMeaning | internal/system/state.go:933-958 | a new user has an id above every other; exactly the home entries are added, and `/etc/passwd` and `/etc/group` are rendered from the new table |
| Accounts.HomeIsOwn | internal/system/state.go:951-955 | in a new user's home directory the user and root, and nobody else, can make files |
| Accounts.UidsStayDistinct | internal/system/state.go:945-951 | no run, resets included, gives two users one id |
| Accounts.UsersStay | internal/system/state.go:942-951 | in a run without reset every user record stays what it was |
| Boot.PlaceEntries | internal/system/state.go:164-177 | the loop over the scenario's entries stops at the first bad one, or leaves the base with the entries over it, the last of a path counting, and the missing directories on their ways |
| Boot.PlacePackage | internal/system/state.go:178-191 | the loop over the package's files, in any order, adds those below `files/` that no entry has taken the place of |
| Boot.OverlayUnique | internal/system/state.go:178-191 | what is placed determines the result, whatever the order |
| Boot.OverlayExact | internal/system/state.go:164-191 | files placed over a tree leave a tree if and only if nothing of the base is below one of them, what the base has on their ways are directories, and none of them is below another |
| Boot.PublishRunning | internal/system/state.go:207-211 | the loop over the units, in any order, opens port 80 of every address if a web unit runs and some zone allows http, and no port otherwise |
| Boot.LogAll | internal/system/state.go:213-217 | the nested loops log the failure messages of all units in the order of the scenario |
| Boot.NewState | internal/system/state.go:125-220 | a package is refused if and only if its initial user is undefined or an entry has a bad path or mode, with the first of these errors; from every other one the machine is made that the scenario describes |
| Boot.BootedUnique | internal/system/state.go:125-220 | that is one machine, whatever the order in which the maps are visited |
| Boot.ModesAreOctal | internal/system/state.go:1027-1040 | a mode is read in base 8, with or without `0o`; more than 32 bits, any other character and a bare prefix are refused |
| Boot.EntryExact | internal/system/state.go:164-177 | which file a scenario's entry becomes, and which entries are refused with which error |
| Boot.BootedTables | internal/system/state.go:130-163 | of users, units and packages of one name the last counts; root is there whether it is listed or not |
| Boot.BootedEnvironment | internal/system/state.go:192-206 | the environment of a new machine is its user's, and `~` expands to the home directory |
| FirstMachine.BootedFiles | internal/system/state.go:164-191 | the last entry of a path is on the new machine as the scenario gives it; a package file below `files/` without an entry is there as root's, with mode 0644 |
| FirstMachine.BootedZones | internal/system/state.go:198-200 | the zones are the scenario's, with exactly its services and ports |
| FirstMachine.BootedPorts | internal/system/state.go:207-211 | open are port 80 of every address, if a web unit runs that a zone allows, and nothing else |
| FirstMachine.BootedJournal | internal/system/state.go:213-217 | the journal is the failure messages of the units, in the scenario's order, at the time of the start |
| Boot.FreshExact | internal/system/state.go:125-220 | over a base that is a tree, a new machine is sound if and only if there is room for every placed file and the initial user's home is a canonical path |
| Boot.EntryOverDirectoryBreaks | internal/system/state.go:164-177 | a scenario entry in place of a directory that is not empty is accepted and leaves no tree |
| Boot.LifeExact | internal/system/state.go:125-1010 | from the scenario on, in every run, resets included, the machine is sound after every operation if and only if it was made sound and the guard of every operation holds |
| VirtualMachine.Dict.Clone | internal/system/state.go:232-235 | the copying loop yields a new map object with the same entries |
| VirtualMachine.CloneZones | internal/system/state.go:259-270 | the nested loops yield zones with the same values whose maps are all new objects |
| VirtualMachine.State.CloneUnlocked | internal/system/state.go:224-289 | the clone holds the same values in objects that are all new |
| VirtualMachine.State.Reset | internal/system/state.go:291-316 | reset restores every field from the snapshot, leaves a snapshot of the same value, and shares no map with it; without snapshot it changes nothing |
| VirtualMachine.NewState | internal/system/state.go:218-219 | from the values that `Boot.NewState` gives, with a canonical home: the machine holds them, its snapshot holds the same, and the two share no object |
| VirtualMachine.State.EnsureParents | internal/system/state.go:1042-1050 | the upward loop computes the function whose meaning is above |
| VirtualMachine.State.WriteFile | internal/system/state.go:334-359 | the file table and the error are those of the write on values, whose meaning is `FileMeaning.WriteMeaning` and whose decision is `Access.AcceptedExact` |
| VirtualMachine.State.Touch | internal/system/state.go:446-463 | the same for touch |
| VirtualMachine.State.MakeDir | internal/system/state.go:397-413 | the same for mkdir |
| VirtualMachine.State.MakeDirAll | internal/system/state.go:415-445 | the same for `mkdir -p`, with its loop over the components |
| VirtualMachine.State.Remove | internal/system/state.go:464-491 | the same for rm, with its deleting loop |
| VirtualMachine.State.CopyRecursive | internal/system/state.go:500-568 | the same for cp and mv, with the collecting, writing and deleting loops |
| VirtualMachine.State.FileOperation | internal/system/state.go:334-568 | after any filesystem operation the machine holds what the operation on values says, and the snapshot what it held |
| VirtualMachine.State.VirtualUsage | internal/system/state.go:670-678 | the loop returns the number of entries and the sum of their bytes, whatever the order of the map |
| VirtualMachine.State.RebuildProcesses | internal/system/state.go:1126-1139 | the loops compute the table of the running units |
| VirtualMachine.State.RefreshServiceEffects | internal/system/state.go:1107-1124 | the nested loops over zones and addresses open the web ports exactly when some zone allows http |
| VirtualMachine.State.ClearServiceEffects | internal/system/state.go:1140-1148 | the deleting loop drops exactly the keys that end in `:80` |
| VirtualMachine.State.ConditionLocked | internal/system/state.go:1084-1098 | the condition on the objects is the condition on values |
| VirtualMachine.State.StartService | internal/system/state.go:723-749 | units, table, journal, ports and error are those of the start on values |
| VirtualMachine.State.StopService | internal/system/state.go:750-766 | the same for a stop |
| VirtualMachine.State.EnableService | internal/system/state.go:767-780 | the same for enable and disable |
| VirtualMachine.State.SignalProcess | internal/system/state.go:644-668 | the loop over the rows read at its start does what the signal on values does, and keeps the snapshot |
| VirtualMachine.State.ServiceOperation | internal/system/state.go:644-780 | after any unit operation the machine holds what the operation on values says, and the snapshot what it held |
| VirtualMachine.State.AllowFirewall | internal/system/state.go:816-832 | the in-place write into a zone's map changes that zone only and does not reach the snapshot |
| VirtualMachine.State.PublishEffect | internal/system/state.go:866-878 | SetHTTP and SetPort write the entries of the effect, and the snapshot stays |
| VirtualMachine.State.SetCwd | internal/system/state.go:879-892 | cd moves to existing directories only, and the snapshot stays |
| VirtualMachine.State.Advance | internal/system/state.go:1005-1010 | the clock moves and nothing else |
| VirtualMachine.State.NextUid | internal/system/state.go:945-950 | the loop over the users finds the next id, whatever the order of the map |
| VirtualMachine.State.SyncIdentityFiles | internal/system/basefs.go:187-196 | both identity files are rewritten from the user table, at the path each entry names |
| VirtualMachine.State.AddUser | internal/system/state.go:933-958 | after adding a user the machine holds what the operation on values says, and the snapshot what it held |
| VirtualMachine.State.Step | internal/system/state.go:291-1010 | any operation on the objects is the step on values; the snapshot is never written, and reset replaces it by an equal one |
| VirtualMachine.State.Run | internal/system/state.go:291-1010 | every run on the objects is the run on values, with the same snapshot at the end |
| VirtualMachine.State.Rounds | internal/system/state.go:291-316 | any number of run-and-reset rounds ends in the state of the snapshot |
| Shell.Lex | internal/shell/parser.go:102-170 | the lexing loop computes the lexer function, errors included; what that does is in the rows on `Quoting` |
| Quoting.SpelledWord | internal/shell/parser.go:102-170 | a word spelled as any sequence of bare, backslashed, single-quoted and double-quoted pieces is lexed to the text that the pieces stand for |
| Quoting.QuotesKeep | internal/shell/parser.go:102-170 | single quotes keep every character but their own, blanks and operators included, and double quotes every character when their own and the backslash are marked |
| Quoting.BlankSeparates | internal/shell/parser.go:142-146 | each of the four blanks ends a word and is no token |
| Quoting.OperatorSeparates | internal/shell/parser.go:147-157 | an operator character ends a word and is a token of its own, with blanks around it or without |
| Quoting.RawRecombined | internal/shell/parser.go:162-169 | lexing is taking these tokens and then recombining operators |
| Quoting.NoText | internal/shell/parser.go:102-170 | no text is no token |
| Quoting.OpenQuoteRefused | internal/shell/parser.go:163-169 | a quote that is not closed is refused with its error, wherever it is opened |
| Quoting.LastBackslashRefused | internal/shell/parser.go:160-162 | a backslash with nothing behind it is refused with its own, also between double quotes |
| Shell.NormalizeOperators | internal/shell/parser.go:172-203 | the recombining loop computes the recombination function |
| Shell.NormalizeIdempotent | internal/shell/parser.go:172-203 | recombining operators twice is recombining them once |
| Shell.Parse | internal/shell/parser.go:32-100 | the statement builder's loop computes the parser function, errors included |
| Shell.ParseShape | internal/shell/parser.go:32-100 | a successful parse has non-empty pipelines and commands, no operators among the words, descriptors that match their operators, and no connector on the first statement only |
| ShellPrinter.ParsePrint | internal/shell/parser.go:32-203 | for every list of statements that a parse can yield, parsing undoes printing if and only if no printed text recombines with what follows it |
| ShellPrinter.PrintIsNormalForm | internal/shell/parser.go:32-203 | whatever line was accepted: printing what it was parsed to and parsing that again gives the same statements if and only if that holds |
| ShellPrinter.QuotedWordExact | internal/shell/parser.go:64-88 | a quoted word is read back as that word if and only if it is not an operator |
| Quoting.SpelledWordExact | internal/shell/parser.go:64-88 | the same for every spelling of the word |
| Quoting.ParseWritten | internal/shell/parser.go:32-203 | statements whose words are spelled in any way, with any blanks between them, are parsed to these statements if and only if no texts recombine |
| Interpreter.ListSemantics | internal/runtime/session.go:111-128 | the loop over the statements runs the pipelines that are not behind the or-operator, one after the other, up to the first that fails |
| Interpreter.ExportsAfterResetAreLost | internal/runtime/session.go:108 | once a line has reset the machine, the environment at its end is the snapshot's, whatever the line still exports |
| Interpreter.PlainWordStays | internal/runtime/session.go:416-445 | a word without dollar sign expands to itself |
| Interpreter.NameIsReplaced | internal/runtime/session.go:435-443 | `$NAME` becomes the variable's value up to the first character that cannot continue the name |
| Expansion.BracedFills | internal/runtime/session.go:422-434 | the name in braces becomes the value too, whatever stands behind it |
| Expansion.DollarFills | internal/runtime/session.go:416-443 | a dollar sign without a name, or before a brace that is not closed, stays |
| Expansion.TildeIsHome | internal/runtime/session.go:402-415 | a leading tilde, alone or before a slash, is the home directory |
| Expansion.GlobReplaces | internal/runtime/session.go:190-202 | a word with `*`, `?` or `[` becomes its matches where it has any, except the first of a command |
| Expansion.ExportThenExpand | internal/runtime/session.go:435-443 | after an export the name expands to the value, after an unset to nothing, and other names as before |
| Interpreter.ExpandWord | internal/runtime/session.go:402-446 | the expansion loop computes the expansion function |
| Interpreter.CollectWords | internal/runtime/session.go:190-202 | the loop over a command's words expands each, and replaces all but the first by their matches |
| Interpreter.ReadInputs | internal/runtime/session.go:203-212 | the last input redirection wins, and the first unreadable one ends the command |
| Interpreter.WriteOutputs | internal/runtime/session.go:214-231 | output redirections are carried out in order, up to the first refused write |
| Interpreter.RunPipeline | internal/runtime/session.go:183-235 | the loop over the commands computes the pipeline function; that it feeds each command the output of the one before is `Pipes.PipeFeeds` and `Pipes.PipelineBoth` |
| Pipes.PipeFeeds | internal/runtime/session.go:183-235 | of two piped commands the second's handler reads what the first's handler wrote, on the machine that it left, and the pipeline answers what the second answers |
| Pipes.PipelineBoth | internal/runtime/session.go:183-235 | a pipeline is the composition of its parts: the rest runs on the machine and the output that the first part left, unless a redirection ended it |
| Pipes.RedirectHolds | internal/runtime/session.go:214-231 | after `>` the file holds the command's output, after `>>` behind what it held, after `2>` the error text; what went into the file is gone from the reply; a refused write ends the pipeline |
| Pipes.RedirectedPipeIsEmpty | internal/runtime/session.go:214-235 | behind an accepted `>` or `>>` the next command reads the empty text |
| Pipes.MergeJoins | internal/runtime/session.go:225-229 | `2>&1` puts the error text behind the output |
| Pipes.InputReads | internal/runtime/session.go:203-212 | `<` gives the command the file's content in place of what came through the pipe, and ends the pipeline if it cannot be read |
| Pipes.OutputsBoth | internal/runtime/session.go:214-231 | several redirections are carried out one after the other, each on what the ones before have left of the reply |
| Pipes.SudoInvokes | internal/command/command.go:859-881 | sudo runs its first argument's handler as root with the other arguments, where the rules allow it, and never another sudo |
| LabCommands.SubmitRecords | internal/runtime/session.go:319-323 | `lab submit` records the submission at the machine's time and nothing else |
| LabCommands.HintExact | internal/runtime/session.go:273-291 | a hint that is unlocked and new is given, charged and marked; a locked, used or unknown one is not |
| LabCommands.AnswersAreKept | internal/runtime/session.go:297-303 | the first answer is the root cause, each later one the resolution |
| LabCommands.NoteIsKept | internal/runtime/session.go:292-296 | a note goes behind the others, its words with single blanks between them |
| LabCommands.ResetRestores | internal/runtime/session.go:312-318 | `lab reset` brings the snapshot's machine back, forgets hints and their cost, and keeps the rest of the progress |
| LabCommands.ShowingChangesNothing | internal/runtime/session.go:263-325 | the other commands of `lab` change nothing; `lab evidence` accepts exactly a chain that verifies; `lab` alone shows the status |
| LabCommands.LabRuns | internal/command/command.go:51-54 | `lab` goes to these commands, whatever it is given to read |
| Lines.TwoStatements | internal/runtime/session.go:111-128 | of two statements the second runs if and only if the first succeeds, on what it left; their outputs stand one behind the other |
| Lines.StatementLeaves | internal/runtime/session.go:118-124 | a statement reads the empty text and leaves the line behind the history and the machine's directory as its own |
| Progress.ProgressStays | internal/runtime/session.go:258-326 | over all lines, machine resets included, no note is lost, a given root cause does not change and a submission stays one |
| Session.TrimIdempotent | internal/runtime/session.go:97 | the recorded form of a line is its own recorded form |
| Lines.TrimMeaning | internal/runtime/session.go:97 | a line is its recorded form with spaces around it, and that neither begins nor ends with one |
| Lines.SpacesExact | internal/runtime/session.go:97 | the spaces are those of Unicode, by their codes |
| Lines.EventExact | internal/runtime/session.go:237-242 | what the event of a line holds: session, number, time, user, line, exit code and mutations |
| Lines.RanLine | internal/runtime/session.go:94-133 | a line that runs leaves the statements' machine, changed by the rules, one second later |
| Lines.RejectedLine | internal/runtime/session.go:98-110 | a line that is too long or does not parse changes nothing but the log |
| Session.LineVerified | internal/runtime/session.go:237-242 | every line leaves a chain that verifies |
| Session.FirstClock | internal/runtime/session.go:101-107 | on a fresh session the clock is one second on after a line that ran, and unmoved after a rejected one |
| Session.LogDeterminesSession | internal/runtime/session.go:83-87 | running the logged commands again from the same start ends in the same session |
| Session.ReplayExact | internal/runtime/session.go:74-92 | the log of every session verifies, and replaying it gives the same machine, snapshot, clock, history, progress and log if and only if the first recorded line was not rejected |
| Session.RestartsLeaveNoTrace | internal/runtime/session.go:135-156 | with any restarts, a session is what the lines since the last one make of a fresh session |
| Session.Replay | internal/runtime/session.go:74-92 | the replaying loop computes the replay function, and reports exactly whether the events verify |
| Session.RunStatements | internal/runtime/session.go:111-128 | the loop over the statements computes the function whose semantics is above |
| Session.Runtime.RunLine | internal/runtime/session.go:94-133 | the object's new value and its answer are those of the line on values |
| Session.Runtime.Restart | internal/runtime/session.go:135-156 | the object becomes a fresh session with a new chain |
| Hints.TakeHintCharged | internal/runtime/session.go:273-291 | a hint is charged when it is taken and not a second time |
| Hints.HintCostIsTheirSum | internal/runtime/session.go:273-318 | in every session, resets included, the hint cost is the sum of the costs of the hints marked as used, and only hints of the scenario are marked |
| Evidence.Chain.Append | internal/evidence/chain.go:36-56 | the event is numbered, linked to the head, sealed and put behind the others |
| Evidence.Chain.Verify | internal/evidence/chain.go:63-86 | the loop accepts exactly the chains whose every event is numbered, linked and sealed |
| Evidence.Chain.Restore | internal/evidence/chain.go:93-103 | the chain becomes the saved one, and the answer is exactly whether it verifies |
| Evidence.AppendAllVerified | internal/evidence/chain.go:36-103 | any appends to an empty or a restored chain keep it verified and keep what was there |
| Evidence.HeadDetermines | internal/evidence/chain.go:63-86 | two verified chains with one head are equal event for event, or contain an explicit hash collision |
| Evidence.InjectiveHead | internal/evidence/chain.go:63-86 | with an injective hash, heads are equal if and only if chains are |
| Evidence.RedactedEvents | internal/runtime/session.go:365-374 | the loop computes the chain of the redacted events |
| Evidence.RedactedChain | internal/runtime/session.go:365-374 | the exported chain verifies, has the session's length and numbering, differs only in commands and links, shows no secret, and has every command without one as it was |
| Redaction.Redact | internal/evidence/chain.go:150-157 | the loop computes the sequential replacement |
| Redaction.ReplaceOccurrence | internal/evidence/chain.go:153 | what can be read after a replacement could be read before, and is not what was replaced |
| Redaction.RedactsAll | internal/evidence/chain.go:150-157 | whatever the order of the secrets and their overlap with one another, none is left, if none of them can overlap a mark: is part of it, contains it, begins with an end of it or ends with a beginning of it |
| Redaction.RedactsNothing | internal/evidence/chain.go:150-157 | a text without secrets is left as it is |
| Redaction.RedactIdempotent | internal/evidence/chain.go:150-157 | for such secrets redacting twice is redacting once |
| Redaction.RedactExact | internal/evidence/chain.go:150-157 | a bracket-free secret stays readable if and only if there was one and some secret is part of the mark's word |
| Redaction.SingleSecretExact | internal/evidence/chain.go:150-157 | any single secret, bracketed or not, is unreadable in every redacted text if and only if it neither contains the mark nor is part of it, does not begin with an end of it, and does not end with a beginning of it behind a front that can be copied |
| Redaction.BracketSecretSurvives | internal/evidence/chain.go:153 | the secret `a[` can be read after redacting `aa[[` |
| Rules.Apply | internal/rules/engine.go:17-35 | the nested loops compute the application rule by rule, host and messages; what conditions and rules mean is in the rows on `Conditions` |
| Conditions.GroupsExact | internal/rules/engine.go:37-56 | `all` holds if and only if every child does, `any` if and only if one does, `not` if and only if its child does not |
| Conditions.NegationLaws | internal/rules/engine.go:37-56 | De Morgan's laws and double negation |
| Conditions.OneMoreChild | internal/rules/engine.go:37-53 | a false child makes `all` false, a true one makes `any` true, the other kind changes nothing, and a group of one child is its child |
| Conditions.Precedence | internal/rules/engine.go:38-57 | `all` goes before `any`, `any` before `not`, and `not` before the test |
| Conditions.FirewallTest | internal/rules/engine.go:61-62 | allowing a service in a zone makes the test for it hold, and changes no other |
| Conditions.RunningTest | internal/rules/engine.go:58-60 | after an accepted start a unit's test holds, after an accepted stop it does not, and no other unit's changes |
| Conditions.DisabledTest | internal/rules/engine.go:72-74 | enabling and disabling decide the unit's test and no other |
| Conditions.AbsentTest | internal/rules/engine.go:78-80 | after an accepted removal a path is absent, and after an accepted write it is not |
| Conditions.ContainsTest | internal/rules/engine.go:75-77 | after an accepted write the test finds exactly the parts of its text |
| Conditions.FileTests | internal/rules/engine.go:75-80 | on any host the first of them finds what root can read at the path, and the second holds of a path without entry |
| Conditions.GroupTest | internal/rules/engine.go:81-82 | a new user is in the group of its name and in no other |
| Conditions.OtherTests | internal/rules/engine.go:63-82 | the SELinux and group tests read the host as it is, and a test of no known kind holds never |
| Conditions.PublishedPage | internal/rules/engine.go:83-89 | a published page answers with its status and body, and no other page changes |
| Conditions.OpenedPort | internal/rules/engine.go:83-89 | a port that a rule opens answers 404, and one that it closes 503 |
| Conditions.StatusTest | internal/rules/engine.go:83-89 | the test of a published page holds of its status alone; without a page it holds of 404 and 503 at most, and where nothing answers of nothing |
| Conditions.PortExact | internal/system/state.go:871-878 | setPort writes the port under its protocol, and of tcp without it too, and no other key |
| Conditions.ReportExact | internal/rules/engine.go:22-34 | what is reported of each effect |
| Conditions.RuleExact | internal/rules/engine.go:17-35 | a rule that fires carries out its effects and reports them, one that does not changes nothing |
| Conditions.RulesBoth | internal/rules/engine.go:17-35 | rules are applied one after the other: later ones see what earlier ones did |
| Rules.EvaluateStable | internal/rules/engine.go:37-92 | a condition depends on ports and pages only through those that an httpStatus test in it asks for |
| Rules.RulesAreTheirEffects | internal/rules/engine.go:17-35 | if no condition reads a page or port that an effect writes, the rules that fire are decided by the host as it was, and fire again |
| Rules.RulesFixpoint | internal/rules/engine.go:17-35 | then each key holds what the last firing effect wrote, other keys keep their value, nothing else changes, and applying the rules again changes nothing |
| Rules.NoHttpIndependent | internal/rules/engine.go:37-92 | rules without an httpStatus test at any depth are of this kind |
| Rules.HttpRulesKeepMoving | internal/rules/engine.go:83-89 | on a host whose page is not served yet, two rules over that page publish it as 200 at the first application and as 500 at the second |
| StateDiff.CompareMaps | internal/report/diff.go:83-105 | collecting, sorting and comparing the keys computes the change list |
| StateDiff.SortedUnion | internal/report/diff.go:260-271 | the result is strictly increasing and holds exactly the strings of both lists |
| StateDiff.MapKeys | internal/report/diff.go:235-244 | the result is the sorted enabled keys, whatever the order of the map |
| StateDiff.MakeDiff | internal/report/diff.go:76-170 | the diff is the change lists of the five inventories |
| StateDiff.ChangesDetermine | internal/report/diff.go:83-105 | applying a change list to the old summaries gives exactly the new ones |
| StateDiff.ListedExactly | internal/report/diff.go:83-105 | names are strictly increasing, each entry that differs is listed once, and no entry that does not |
| StateDiff.EmptyExact | internal/report/diff.go:172-174 | no change is listed if and only if names and entries are the same |
| StateDiff.SameStringsExact | internal/report/diff.go:221-226 | sorted copies are equal if and only if the lists are equal up to order, repetitions counted |
| StateDiff.ListedZonesExact | internal/report/diff.go:141-151 | a zone of either host is listed if and only if the lists shown for it differ, a missing zone showing none |
| StateDiff.DiffDeterminesInventory | internal/report/diff.go:76-170 | the diff turns the old inventory of files, services, users, zones and packages into the new one |
| StateDiff.UnlistedFilesEqual | internal/report/diff.go:83-105 | a file that is not listed is equal, content included; of a listed one the flag tells whether its content changed |
| StateDiff.ListedFilesShow | internal/report/diff.go:210-212 | an item of a file shows path, owner, group, mode, type, kind and size of the two hosts' entries, where they have one |
| StateDiff.ListedServicesShow | internal/report/diff.go:107-122 | the same of units: name, whether enabled, and state |
| StateDiff.ListedUsersShow | internal/report/diff.go:124-139 | the same of users: name, numbers and shell, and the groups sorted |
| StateDiff.ListedZonesShow | internal/report/diff.go:141-151 | the same of zones: interfaces sorted, allowed services and open ports in order |
| StateDiff.ListedPackagesShow | internal/report/diff.go:153-168 | a package is listed if and only if its version is not the same, and shown by its versions |
| StateDiff.ListedServicesExact | internal/report/diff.go:107-122 | a unit is listed if and only if it is not the same in every field |
| StateDiff.ListedUsersExact | internal/report/diff.go:213-226 | a user counts as changed if and only if name, number, group number, shell or, order aside, the groups differ |
| PackagePaths.SafePathStable | internal/scenario/loader.go:403-413 | an accepted package path is a safe relative name, and is accepted again unchanged |
| PackagePaths.SafePathFixed | internal/scenario/loader.go:403-413 | a package path is accepted unchanged if and only if it is a safe bundle name |
| PackagePaths.SafeNameExact | internal/bundle/bundle.go:273-282 | the safe names are exactly the short relative paths without NUL, colon and backslash |
| PathSteps.PackageNameExact | internal/scenario/loader.go:403-413 | which package names are refused, before and after a backslash has become a slash and the name is cleaned |
| PathSteps.CleanComponent | internal/scenario/loader.go:407 | cleaning one component of a relative name, `..` included |
| PathSteps.CleanLeads | internal/scenario/loader.go:407 | and one component more: `..` takes back what is not `..` itself |
| Bundle.ReadEntries | internal/bundle/bundle.go:143-184 | the loop accepts exactly the entry lists within every limit, with safe and distinct names, and returns their files |
| Bundle.CheckFiles | internal/bundle/bundle.go:196-222 | the loops accept exactly when the files are the manifest's, with its hashes, plus the two manifest entries |
| Bundle.VerifyReader | internal/bundle/bundle.go:132-224 | a bundle is accepted if and only if it is within the limits and some signed manifest covers it, and that manifest is returned |
| Bundle.ManifestDeterminesPayload | internal/bundle/bundle.go:197-217 | accepted bundles with one manifest have one payload, or an explicit hash collision |
| Bundle.Write | internal/bundle/bundle.go:38-111 | the hashing and writing loops emit the signed files in name order |
| Bundle.BundledExact | internal/bundle/bundle.go:38-92 | these hold each of the six renderings under its own name, the manifest and the signature; the manifest has the hash of each, the last hash of the chain, and the other fields as given |
| Bundle.OnlySigned | internal/bundle/bundle.go:186-222 | nothing is accepted without a signature that fits its manifest, nor with other files than that lists |
| Bundle.WrittenIsAccepted | internal/bundle/bundle.go:38-111 | every bundle that is written and within the size limits is accepted, with its manifest |
| Archive.WriteArchive | internal/scenario/archive.go:45-87 | exactly the packages within the limits whose cleaned names are safe and distinct are written, in name order |
| Archive.LoadArchive | internal/scenario/loader.go:144-193 | the loop over the entries computes the loading function, errors included |
| Archive.LoadedFiles | internal/scenario/loader.go:152-189 | each loaded file comes from an entry, and each file entry is loaded, with its content, under a name of its own |
| Archive.LoadExact | internal/scenario/loader.go:152-193 | an archive is loaded if and only if every entry has a safe name that no file before it has, none is a link, the files are readable and within each limit, and the scenario document is one of them |
| Archive.ReaderUndoesWriter | internal/scenario/archive.go:45-87 | a written archive loads, with the same files under cleaned names, if and only if it has the scenario document; the limits of both sides coincide |
| Archive.NormalizedIsIdentity | internal/scenario/archive.go:57-71 | the files come back under their own names if and only if every name is safe |
| Digest.DigestFiles | internal/scenario/loader.go:444-458 | the digest is that of the sorted names and contents, whatever the order of the map |
| Digest.InputExact | internal/scenario/loader.go:444-458 | one more file, behind the others by name, adds its name, a zero byte, its content and a zero byte to what is hashed |
| Digest.InputDeterminesFiles | internal/scenario/loader.go:451-456 | for names and contents without NUL the hashed bytes are equal if and only if the packages are |
| Digest.NulIsAmbiguous | internal/scenario/loader.go:451-456 | with a NUL in a content two different packages with the same scenario document are hashed alike |
| Digest.SharedExact | internal/scenario/loader.go:451-456 | a package without NUL is hashed like some other one, whose names have none, if and only if it has at least two files |
| Digest.SharedWithDocumentExact | internal/scenario/loader.go:451-456 | and like some other one with the same scenario document if and only if two of its other files are neighbours in the order of the names |
| RateLimiter.Limiter.AllowRequest | internal/server/server.go:1269-1301 | the purging loop and the counting do the step on values, and the table stays within its capacity |
| RateLimiter.TableBounded | internal/server/server.go:1284-1299 | over every run the table holds at most 4096 keys |
| RateLimiter.KeyExact | internal/server/server.go:1270-1281 | two requests are counted together if and only if they come from one host and both or neither are for signing in |
| RateLimiter.HostExact | internal/server/server.go:1270-1273 | the host is what stands before the last colon of the address |
| RateLimiter.AnswerExact | internal/server/server.go:1274-1300 | a request for which there is room gets through if and only if its window is over or has fewer than 20 requests, 120 for those that are not for signing in |
| RateLimiter.FullExact | internal/server/server.go:1284-1293 | there is no room if and only if its key is new and 4096 others have windows that are not over |
| RateLimiter.RefinesPlain | internal/server/server.go:1284-1300 | while the capacity test does not fire, the answers are those of a limiter that never forgets |
| RateLimiter.BelowTwiceTheLimit | internal/server/server.go:1294-1300 | on a clock that does not run backwards, a key gets fewer than twice its limit of requests through in any sixty seconds |
| RateLimiter.BoundReached | internal/server/server.go:1294-1300 | for every limit some run on such a clock gets one less than twice the limit through |
| Store.Database.SaveRefreshToken | internal/store/store.go:96-99 | a token hash is inserted once, and refused when it exists |
| Store.Database.RotateRefreshToken | internal/store/store.go:101-129 | the transaction redeems an unused, unexpired token for its owner, marks it, and otherwise changes nothing |
| Store.LoadGivesRows | internal/store/store.go:197-216 | when the rows of a session are its events 1 to n, loading in order gives back that list |
| Recovery.PersistSession | internal/server/server.go:917-945 | the saving loop writes session, events and counters and nothing else |
| Recovery.Handle | internal/server/server.go:761-945 | a request leaves the rows and the session that the step on values says, with a restart's clear before its save |
| Recovery.RequestKeepsRows | internal/server/server.go:761-945 | for requests that follow one another: every request keeps the rows a prefix of the chain; one that persists makes them exactly the chain and the counters current; other sessions' rows never change |
| Recovery.SubmittedStays | internal/server/server.go:882-886 | a submitted session stays one over all requests: it is not restarted, and its chain only grows |
| Recovery.RestartsReached | internal/server/server.go:887-900 | of restart requests in a row exactly as many get through as the limit leaves, and none for a submitted session or in an event without restarts |
| Recovery.GradeStands | internal/server/server.go:601-622 | a grade is taken if and only if it is in range, and stands until the next grade or restart |
| Recovery.RecoverSaved | internal/server/server.go:142-212 | from such rows recovery gives the same chain, restart count and judging, and the same session (up to a submission's time) if and only if there are no events or the first line was not rejected |
| Recovery.PersistAndRecover | internal/server/server.go:142-212 | the same from creation through any such requests, terminal lines in between included |
| Persistence.PrefixExact | internal/server/server.go:882-945 | in every run of single steps, in any interleaving, the rows are a prefix of the chain whenever no clear is outstanding, if and only if no call that took its events before the last clear saves an event after it that the chain does not have there or whose predecessor is not saved |
| Persistence.PrefixWithoutRestarts | internal/server/server.go:917-945 | without restarts the rows are always a prefix of the chain, however the requests overlap |
| Persistence.RequestIsRun | internal/server/server.go:836-945 | a request whose steps are not interrupted does what `Recovery` says of it as a whole |
| Overlaps.StaleRowReturns | internal/server/server.go:900-933 | from creation on: a line, a call that takes it, a restart and its clear, and then the save leave a row of an empty chain, and recovery makes it the first line again |
| Overlaps.ClearLeavesGap | internal/server/server.go:900-933 | from creation on: a call that took its events behind the restart is overtaken by the clear; the second row is without the first, and recovery refuses the session |
| Overlaps.SameLineFits | internal/server/server.go:900-933 | when the same line was run again, the late save leaves a prefix: the condition is not about lateness alone |
| Overlaps.RestartForgotten | internal/server/server.go:934-943 | from creation on: a call that reads the counter before a restart and writes it last leaves the old number, and recovery goes on with it |
| Overlaps.JudgingForgotten | internal/server/server.go:613-617 | from creation on: a judging request that is carried out and persisted between the report of a call and its last statement is gone after recovery, though no call is under way and the rows are the chain |
| Overlaps.SameGradeFits | internal/server/server.go:1025-1029 | grades between report and last statement that end in the reported one leave a current row: the condition is about values, not about steps |
| Overlaps.SubmissionReturns | internal/server/server.go:878-943 | from creation on, for every line that submits: a call that sees the session submitted and writes that after its restart makes recovery bring an open session back as submitted |
| Counters.EveryRowIsWritten | internal/server/server.go:917-945 | in every run of single steps from creation on, the row of the counters is from three readings of one call that took effect, with no other call closing after it, or is the one of the creation |
| Counters.CountersExact | internal/server/server.go:926-943 | for such readings: the stored restart count lags behind by exactly the restarts let through since, so that it is current if and only if there was none; the stored judging is current if and only if the last accepted grade or restart since the report, if any, left it as it was; and so for the submitted flag |
| Counters.RecoversAfterOverlap | internal/server/server.go:142-212 | after any interleaving without a harmful save and with no clear outstanding, recovery succeeds; it brings the chain back if and only if the last event has a row, the restart count and the judging if and only if they are current, and the whole session (up to a submission's time) if and only if all of this holds, a stored submission is one, and the first line was not rejected |
| Server.Registry.SessionForTeam | internal/server/server.go:721-724 | the loop finds a session of the team if and only if there is one |
| Server.Registry.CreateSession | internal/server/server.go:714-760 | it answers with a session of the team; it refuses exactly when the event is not open, or the team has no session and the server is full, no scenario can start or the store refuses; in the last case the session is there all the same |
| Server.Registry.TakeRestart | internal/server/server.go:891-899 | a restart is counted exactly when the limit is not reached |
| Server.RunKeeps | internal/server/server.go:714-760 | over every interleaving there is one session per team at most, and neither limit is exceeded |
| Server.CounterCounts | internal/server/server.go:891-899 | the counter rises by exactly the restarts that were let through |
| Server.RestartsBounded | internal/server/server.go:891-899 | at most the allowed number of restarts of a session get through |
| Server.RestartsExact | internal/server/server.go:891-899 | and no fewer: in every interleaving the first ones up to the limit get through, and no later one |
| Server.SessionsExact | internal/server/server.go:714-760 | new teams get sessions up to the limit, and none beyond it |
| Server.SessionsStay | internal/server/server.go:719-747 | a team keeps its session, as long as new ids are new |
| Server.RedeemedOnce | internal/store/store.go:101-129 | over every run a token is redeemed at most once, also when it is issued again |
| Server.RedeemExact | internal/store/store.go:101-129 | a token is redeemed if and only if it was issued less than thirty days before and is unused, for the owner it was issued to |
| Server.MemoryIgnoresTime | internal/server/server.go:465-472 | without a store, shifting all redemptions in time changes nothing |
| Server.MemoryExact | internal/server/server.go:465-472 | without a store, a token is accepted for an owner if and only if the last step that names it issued it to that owner |

## Left out

* Strings are sequences of characters; `Text.ByteLen` gives byte lengths where the code limits them. Invalid UTF-8 and byte-wise processing of it are not modelled.
* Numbers that cannot overflow in practice (sequence numbers, counts, bytes) are unbounded.
* HTTP routing, TLS, WebSocket, authentication, dashboard, launcher and command line.
* The command handlers of `internal/command/command.go`: a command is a deterministic function of the host, environment, arguments and input that it sees, and cannot move the clock or write the snapshot. `lab` and `sudo` are modelled.
* Globbing, scoring and `sudo` rules are functions of the host; DNS servers, interface names, SELinux booleans, architecture and passwords are constants of it.
* Chmod, Chown, SetSELinux, AddUserToGroup, AddJournal, Walk, List and Stat: each is one check and one field, or a filtered view.
* Transcripts, reports, their renderings, submission rows and marks, and key generation.
* Error messages are kinds, except where a later line can see them.
* Time formats in the database; times are numbers.
- VirtualMachine.NewState: takes the host as a value; its loops and errors are those of `Boot.NewState`.
- Boot.NewState: the base files of `internal/system/basefs.go` are a function of host name, users, scenario and time that is not looked into, except that `FreshExact` and `LifeExact` take it to give a tree. Contents are strings; passwords and the constants of the host are not part of it.
- VirtualMachine.State.CloneUnlocked: slices are values, so that what an append could share with a copy is not captured; maps and maps inside zones are objects.
- VirtualMachine.State.AllowFirewall: the branch for a zone whose map is nil is not modelled, because every zone is built with a map.
- VirtualMachine.State.SyncIdentityFiles: the two renderings are functions of the user table. `renderGroup` lists members in map order, so that this holds of its bytes only for groups of at most one member.
- Session.Runtime.RunLine: the session object holds the machine as a value; that the machine's objects do the same is proved in `VirtualMachine`. The transcript is not part of it.
- Session.Replay: keys, transcript and judge fields are not rebuilt by it and not compared.
- Recovery.PersistAndRecover: a submission's time is not compared, because recovery takes it from the session row. One session record is recovered at a time; a missing scenario ends recovery of the whole server in the code and is not modelled.
- Persistence.PrefixExact: a statement that fails is a call whose later steps do not come; the error that the request then answers is not modelled.
- Recovery.RequestKeepsRows: takes requests that follow one another; overlapping ones are in `Persistence`.
- Redaction.RedactExact: is about secrets without brackets; for several secrets of which some have brackets `RedactsAll` gives a sufficient condition only.
- Server.Registry.CreateSession: idle timeouts are not modelled.
- Archive.LoadArchive: reading the file and decoding and validating the scenario document are not modelled; directories as packages and extraction are not either.
- Bundle.VerifyReader: an entry that cannot be opened, read or closed is an entry without content.
- StateDiff.MakeDiff: missing states, for which the code returns no change, are not modelled.
- Rules.Evaluate: what `url.Parse` makes of a URL is a parameter.
