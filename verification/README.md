# apk-tools

A model, with proofs, of the logic of the package manager apk-tools (`apk-tools/src`): what its dependency
solver, version order, textual database, file ownership, archive format and signature checks guarantee.
`dafny verify dfyconfig.toml` checks all of it.

**The solver** (`Solver*.dfy`). Each name is in a state: untouched, a list of candidates, locked (finally or
pending), locked to "not installed", or in error. Locking a name repairs what depends on it and what it
depends on, recursively, and the repairs can delete names whose locking is still under way further up the
call stack. `Solver.dfy` has these operations as functions from state to state, with the measure that ends
them; the set of names that are on the stack is a ghost argument. `SolverClosure.dfy` carries the invariant
through the recursion; `SolverTheorems.dfy`, `SolverRemoval.dfy`, `SolverInstall.dfy`, `SolverChoice.dfy`, `SolverSelection.dfy`,
`SolverAutoclean.dfy` and `SolverSuccess.dfy` state what whole solves do, `SolverDependants.dfy` how the lists of
dependants come about that they go by. `SolverState.dfy` has the same operations in place, on a mutable state.

**The version order** (`Version*.dfy`) is a context-dependent tokenizer and a comparison of token lists. A
token's key is its class and value, and the comparator is the lexicographic order on keys; `VersionLaws.dfy` says
what that means for the text of versions. Digits of a version are unbounded here.

**Text** (`Codec.dfy`, `CodecBuffer.dfy`, `Splitting.dfy`, `Depend*.dfy`, `InstalledDb*.dfy`,
`LineReader.dfy`, `BufferedWriter.dfy`, `Streams.dfy`): printers and parsers stacked on each other, from
numbers up to the installed-package database, the buffers they go through, and the line readers.

**Ownership** (`Ownership*.dfy`, `Directories.dfy`, `DirectoryState.dfy`, `HashTable.dfy`): the file index and
the packages' own lists through unpacking, upgrade and removal; what that does to the disk, local changes in
protected directories included; directory reference counts; the bucketed hash table on sentinel-ended lists.

**Archives and signatures** (`Tar*.dfy`, `Signature*.dfy`): the tar writer and parser, and the signature
context that is driven by files, metadata lines and compressed parts in any order. Digests, signature
verification and the trusted keys are parameters.

Most components come in the same three parts: functions that say what an operation does, theorems about
those functions, and the operation as the program performs it (a class with mutable fields, arrays, linked
nodes, loops), proved to do what the function says.

What the code does not do, found on the way, is stated with a failing case, beside the exact condition under
which it does:

- a conflict of an untouched installed package is not looked at when the other package is installed afresh
  (`SolverTheorems.ConflictIsNotRechecked`, exact condition in `ConflictsHoldExactly` and
  `NewSetHoldsExactly`, and one that a caller can see to beforehand in `GuardedSetHolds`);
- a package can be missing from a list of dependants, and is then broken by a successful solve
  (`SolverDependants.MissedDependantIsBroken`, exact condition on the lists in `AddListsExactly` and
  `CompleteExactly`, on the solve in `SolverTheorems.NewSetHoldsExactly`);
- `1.0_alpha` is not older than `1.0` (`VersionOrder.PreReleaseAfterZero`, exact condition in
  `PreReleaseSortsFirst`);
- a line of 8192 bytes or more is split up (`LineReader.FullLineIsSplit`, exact condition in
  `BufferedReaderSplits`);
- a file writer whose last flush fails reports success and replaces the target by a truncated file
  (`BufferedWriter.FullDiskGoesUnnoticed`, exact condition in `CloseReplaces`);
- the newline behind a package is written without a check, so that the writer reports success for a
  database without its last byte, and only closing the stream can tell (`InstalledDbFile.LastNewlineGoesUnnoticed`, exact condition in `WriteFdb`);
- an archive that returns to a directory after a file of another one gets that file into the wrong list
  (`OwnershipInstall.ReturningStrays`, exact condition in `Unpack`);
- a directory whose count fell to 0 and is acquired again is missing from the statistics
  (`Directories.ReacquiredIsNotCounted`, exact condition in `AcquireKeeps`);
- a size of 2^31 or more does not survive its octal field (`TarRoundTrip.LargeSizeIsLost`, exact condition in
  `OctalRoundTrip`).

## Model

| member | source | states |
|---|---|---|
| SolverTheorems.SolveIsClosed | apk-tools/src/state.c:258-593 | If every request succeeded, every request is met by the final selection and so is every dependency of every selected package (a conflict: the name is locked to "not installed"), with dependency cycles and cascaded deletions allowed |
| SolverTheorems.LockAllSolved | apk-tools/src/state.c:338-413 | The closure invariant is kept by any number of requests in turn, later ones never change an earlier choice, and all of them stay met |
| SolverTheorems.ChoicesAreFinal | apk-tools/src/state.c:540-593 | A name that was locked by a successful solve is not locked again: not by later requests, not by autoclean |
| SolverTheorems.CommitCleanSolved | apk-tools/src/state.c:886-900 | The commit loop, which walks the list that autoclean extends, keeps closure and all locked choices |
| SolverAutoclean.AutocleanIsExact | apk-tools/src/state.c:774-900 | What the commit of a successful solve takes away: a name only if it is not in world, a replaced package depended on it, and no listed dependant that stays needs it; it is locked to "not installed"; nothing else changes; and at the end no such name is left |
| SolverAutoclean.AutocleanTakes | apk-tools/src/state.c:774-802 | One walk over the dependencies of a replaced package takes away only such names, and leaves every name of the walk locked, in world, needed, or still to be visited through a change listed later |
| SolverTheorems.InstalledSetStaysConsistent | apk-tools/src/state.c:433-593 | From a consistent installed set, solve and autoclean give a set (installed overlaid with the choices) whose requirements hold, also those of packages that the solve never touched, unless the untouched package is missing from the list of dependants of a name that was locked; with complete lists all of them hold |
| SolverTheorems.ConflictsHoldExactly | apk-tools/src/state.c:561-569 | On any lists of dependants: a conflict of a package in the new set fails exactly if the package was not touched and what it conflicts with is there all the same: installed afresh, not touched either, or chosen while the package was missing from the list of dependants; a listed dependant of a name that had an installed package is rechecked, conflicts included |
| SolverTheorems.NewSetHoldsExactly | apk-tools/src/state.c:561-569 | So the new set satisfies all its dependencies, conflicts included, if and only if no conflict of an untouched package is of that kind and no requirement of a package missing from a list is broken; with complete lists there is none of the latter |
| SolverTheorems.GuardedSetHolds | apk-tools/src/state.c:561-569 | What a caller can see to beforehand: if every name that an installed package conflicts with has no package, or is itself requested as a conflict, the new set satisfies all dependencies exactly if no package missing from a list is broken, and always with complete lists |
| SolverTheorems.ConflictIsNotRechecked | apk-tools/src/state.c:561-569 | The failing case arises: a concrete database with complete lists of dependants, on which an installed package conflicts with a name that is installed afresh, and the solve succeeds without looking at it |
| SolverTheorems.ChangeListIsFaithful | apk-tools/src/state.c:235-251 | The change list has at most one change per name, each goes from the installed package to the selected one, and replaying the list over the installed packages gives exactly the new set |
| SolverTheorems.ReplayAt | apk-tools/src/state.c:941-963 | Replaying a list of changes shows, at every name, what its one change installs, wherever it is in the list |
| SolverDependants.DependantTable.AddPackage | apk-tools/src/database.c:400-413 | The nested loops that enter a package with the names it depends on, stopping at the first list that has it, do what the function says |
| SolverDependants.AddsExactly | apk-tools/src/database.c:400-413 | Exactly the dependencies before the first that is not new (the list has the name already, or an earlier dependency is on it) are entered; no other entry changes |
| SolverDependants.AddListsExactly | apk-tools/src/database.c:400-413 | Everything that the package depends on has it in its list afterwards if and only if no dependency that is new to its list comes behind one that is not |
| SolverDependants.CompleteExactly | apk-tools/src/database.c:400-438 | Adding packages one by one, the lists are complete all the way if and only if each package meets that condition when it is its turn |
| SolverDependants.BuiltListsDependants | apk-tools/src/database.c:400-438 | A database built in this way has all installed dependants, by requirement and by conflict, in the lists that the solver theorems ask about |
| SolverDependants.TwiceCutsShort | apk-tools/src/database.c:400-413 | A concrete failing case: a name that is depended on twice cuts off the dependencies behind it |
| SolverDependants.MissedDependantIsBroken | apk-tools/src/database.c:400-413 | Another one, up to its consequence: a second version that adds a dependency behind a shared one is missing from a list, and a solve removes, successfully, what the installed package needs |
| SolverClosure.LockDependencyHealthy | apk-tools/src/state.c:338-413 | Locking a dependency keeps the invariant of the repair machinery: either no name of the call stack was overwritten, or a frame on the stack still has to visit a name locked to NULL and will fail |
| SolverClosure.FixPackageHealthy | apk-tools/src/state.c:415-431 | Forward repair keeps that invariant over all dependencies, and success means that all of them are met |
| SolverClosure.RepairDependantsHealthy | apk-tools/src/state.c:463-538 | Reverse repair, deleting or reinstalling dependants, keeps the invariant and leaves no broken dependant among those it visited |
| SolverClosure.LockNameHealthy | apk-tools/src/state.c:540-593 | Locking a name, with both repairs and the change it records, keeps the invariant |
| Solver.LockDependency | apk-tools/src/state.c:338-413 | The function terminates on every package graph, failing or not, by a measure in which each name only moves down (unlocked, locked, deleted while on the stack, error, NULL); no name moves up, and the change list only grows |
| Solver.LockName | apk-tools/src/state.c:540-593 | The same for locking a name; locking to NULL never fails, so the conflict record after it never meets a NULL package |
| Solver.RepairDependants | apk-tools/src/state.c:463-538 | The same for reverse repair; deleting never fails |
| Solver.FixPackage | apk-tools/src/state.c:415-431 | The same for forward repair |
| Solver.Autoclean | apk-tools/src/state.c:774-802 | It terminates, each removal strictly lowering the measure, which is why the commit loop over the growing list ends |
| Solver.Prune | apk-tools/src/state.c:258-336 | One pruning step per name state; 0 means that the locked entry meets the dependency, and what is left unlocked holds only candidates that meet it |
| SolverRemoval.RemovalIsReverseClosure | apk-tools/src/state.c:540-593 | Locking an installed name to NULL removes exactly the installed packages that reach it through non-conflict dependencies in the lists of dependants, and succeeds, given one installed version per name; with complete lists nothing that is left needs what has gone |
| SolverRemoval.RepairDependantsRemoves | apk-tools/src/state.c:463-525 | The deletions below one name, from any position in its list of dependants, remove exactly the rest of its listed reverse closure |
| SolverRemoval.RemovalListsDependantsFirst | apk-tools/src/state.c:550-592 | On acyclic dependencies each listed dependant is removed before what it depends on |
| SolverInstall.InstallListsDependenciesFirst | apk-tools/src/state.c:338-431 | Installing into an empty system lists dependencies before their dependants, on acyclic graphs |
| SolverInstall.FixPackageOrdered | apk-tools/src/state.c:415-431 | The order is kept by the repair of a package whose own change is still to be recorded |
| SolverChoice.SwapPruneIsExact | apk-tools/src/state.c:117-153 | The swap-with-last loops drop exactly the candidates that fail, with multiplicity, in whatever order they leave the rest |
| SolverChoice.WorldPruneKeeps | apk-tools/src/state.c:130-150 | Exactly the candidates that meet every world constraint on the name survive |
| SolverChoice.PickIsBest | apk-tools/src/state.c:372-391 | The loop over the candidates ends with an available one that no other available one is to be preferred to: being in a repository counts first with PREFER_AVAILABLE or REINSTALL, and then the version |
| SolverChoice.LocksTheRightOne | apk-tools/src/state.c:356-402 | A request for a name seen for the first time locks the right package, and fails exactly when none is eligible. Right means: eligible (to be had, installable, fitting the request and the world); the one installed package if that is eligible and APK_UPGRADE is not set (unless it is to be reinstalled and no repository has it); otherwise one that no eligible package is to be preferred to |
| SolverChoice.PickFindsInstalled | apk-tools/src/state.c:357-366 | The one installed candidate is found wherever it is in the list |
| SolverSelection.SelectionIsRight | apk-tools/src/state.c:307-402 | After any successful solve, upgrade or not, the selection has a derivation, an order of all locked names: each selected package is right, in the above sense, for a demand, where a demand is a request, a dependency of a package selected earlier in the order, or the reinstallation of a name whose installed package an earlier choice broke |
| SolverSelection.FittingInstalledStays | apk-tools/src/state.c:393-402 | Without APK_UPGRADE an installed package that fits all that the requests and the selection ask of its name is what is selected for the name, and no change is listed for it: no upgrade that nobody asked for |
| SolverSelection.UnrestrictedGetsNewest | apk-tools/src/state.c:307-402 | In an upgrade, or where no installed package may stay, a name whose version neither a request nor a selected package restricts gets the newest package that can be installed |
| SolverSelection.FirstSeenIsRight | apk-tools/src/state.c:307-402 | A name that is first seen by a request, after any earlier ones, gets what is right for that very request, and keeps it through all later ones |
| SolverSelection.LockDependencyRight | apk-tools/src/state.c:338-413 | Every successful call of the recursion extends such a derivation, unless a frame on the call stack is bound to fail, with deletions of names that are being locked allowed |
| SolverSuccess.EasySolveSucceeds | apk-tools/src/state.c:338-593 | If every name that a request or any package depends on has an eligible package, and all its packages fit, then every request succeeds, whatever is installed and however the dependencies run in circles |
| SolverFailure.FailedPackageIsReported | apk-tools/src/state.c:575-592 | A package that cannot be locked is put on the list of conflicts, its name is in error, and every later request for the name fails |
| SolverFailure.MissingNameIsReported | apk-tools/src/state.c:307-336 | A name with no eligible package makes its request fail and is put on the list of missing names, unless there are several candidates that fit of which none can be had: then nothing is reported |
| DependencyMeaning.ComparisonMeans | apk-tools/src/package.c:204-258 | The text of a dependency with an operator is taken by the solver to accept exactly the versions that compare so with the given one, for every spelling of the operator |
| DependencyMeaning.NamesMean | apk-tools/src/package.c:204-258 | A bare name accepts every version and needs one; one with an exclamation mark accepts none and is met by none |
| SolverState.ApkState.PruneDependency | apk-tools/src/state.c:258-336 | The in-place pruning of the candidate array does what the function says |
| SolverState.ApkState.LockDependency | apk-tools/src/state.c:338-413 | The recursive procedure on the mutable state does what the function says |
| SolverState.ApkState.FixPackage | apk-tools/src/state.c:415-431 | Likewise |
| SolverState.ApkState.RepairDependants | apk-tools/src/state.c:463-538 | Likewise, for both callbacks |
| SolverState.ApkState.IsBroken | apk-tools/src/state.c:433-461 | The callback test does what the predicate says |
| SolverState.ApkState.LockName | apk-tools/src/state.c:540-593 | Likewise, with the change and conflict lists |
| SolverState.ApkState.Autoclean | apk-tools/src/state.c:774-802 | Likewise |
| SolverState.ApkState.TryWithout | apk-tools/src/state.c:780-798 | The tentative entry of autoclean is put in place, tried and taken back |
| SolverState.ApkState.CommitClean | apk-tools/src/state.c:886-900 | The loop over the growing list does what the function says |
| VersionOrder.CompareIsTransitive | apk-tools/src/version.c:187-234 | "Not newer than" is transitive on all non-NULL version strings, and equality at the ends forces it in between |
| VersionOrder.CompareIsAntisymmetric | apk-tools/src/version.c:187-234 | Comparing is reflexive, flips when the arguments are swapped, and says "equal" exactly when the token keys are the same |
| VersionOrder.LexicographicTransitive | apk-tools/src/version.c:187-234 | The order on key lists, by which tokens compare by class and then by value, is transitive |
| VersionOrder.LexicographicFlips | apk-tools/src/version.c:187-234 | That order flips under swap |
| VersionOrder.PreReleaseSortsFirst | apk-tools/src/version.c:30-71 | A version with a pre-release suffix appended is older than the version itself exactly when the version ends in a token that takes a suffix |
| VersionOrder.PreReleaseAfterZero | apk-tools/src/version.c:87-92 | A concrete pair for which "pre-release sorts first" fails: after a zero component the next token is forced to be a digit |
| VersionLaws.NumbersCompare | apk-tools/src/version.c:94-101 | Where two versions first differ in a number, behind any common beginning of numbers and letters and whatever follows, the shorter number is less, and of two of the same length the one with the lesser first different digit |
| VersionLaws.TenIsAfterNine | apk-tools/src/version.c:187-234 | So 1.10 is greater than 1.9 |
| VersionLaws.ZerosCompare | apk-tools/src/version.c:85-93 | A component with more leading zeros is less |
| VersionLaws.LettersCompare | apk-tools/src/version.c:102-104 | Letters behind a number compare as letters |
| VersionLaws.SuffixesCompare | apk-tools/src/version.c:75-133 | Suffixes compare in the order alpha, beta, pre, rc, cvs, svn, git, hg, p, behind any common beginning and whatever follows them |
| VersionLaws.SuffixNumbersCompare | apk-tools/src/version.c:94-101 | The numbers behind the same suffix compare as numbers |
| VersionLaws.RevisionsCompare | apk-tools/src/version.c:94-101 | So do revisions |
| VersionLaws.KindsCompare | apk-tools/src/version.c:213-234 | Behind a number: its pre-releases are less than the version, then come a revision, another suffix, a letter and a further component, each greater than the ones before |
| VersionLaws.NulEnds | apk-tools/src/version.c:30-35 | A NUL ends a version: what is behind it does not count |
| VersionLaws.ValidForms | apk-tools/src/version.c:177-185 | Components of digits and letters are valid versions, and so they are with a letter, a suffix with or without a number, or a revision |
| VersionLaws.InvalidForms | apk-tools/src/version.c:177-185 | A suffix that is none, and two letters in a row, make a version invalid |
| Version.CompareBlob | apk-tools/src/version.c:187-234 | The two-cursor loop returns the outcome of the lexicographic order; it terminates although some steps consume nothing |
| Version.GetToken | apk-tools/src/version.c:73-139 | The tokenizer moves its cursor and type as the step function says |
| Version.Validate | apk-tools/src/version.c:177-185 | A version is valid exactly when its tokens end well |
| VersionText.ValidIsPlain | apk-tools/src/version.c:177-185 | A valid version has only digits, lower case letters, points, underscores and dashes, up to a NUL, at which the tokenizer ends |
| Codec.UintRoundTrip | apk-tools/src/blob.c:179-300 | A number comes back modulo 2^32 from its digits, in base 8 or 10, so one below that as it was, and the reader stops right behind it |
| Codec.HexRoundTrip | apk-tools/src/blob.c:213-385 | Hex pull undoes hex push and consumes just the pushed text |
| Codec.Base64RoundTrip | apk-tools/src/blob.c:237-434 | Base64 pull undoes push for byte strings of every length, whatever the encoder reads behind the last byte |
| Codec.CsumRoundTrip | apk-tools/src/blob.c:197-344 | A checksum comes back as the kind it was, only its own text is consumed, and the two spellings are never confused |
| Codec.PullCsum | apk-tools/src/blob.c:302-344 | Reading a checksum leaves a well-formed one, whatever the text |
| CodecLaws.HexReadExactly | apk-tools/src/blob.c:346-385 | A hex dump is read exactly if all its characters are hex digits, of either case |
| CodecLaws.ThreeBytes | apk-tools/src/blob.c:237-268 | Three bytes are written as the four letters of the base64 alphabet that their bits spell, most significant first, and shorter tails are filled up with equals signs |
| CodecLaws.Alphabets | apk-tools/src/blob.c:213-245 | The hex digits and the base64 letters are the usual ones |
| CodecLaws.HexSha1Read | apk-tools/src/blob.c:330-340 | The other spelling of a SHA-1 checksum, X1 and hex digits of either case, is read as what it spells |
| CodecLaws.OtherCsumsRefused | apk-tools/src/blob.c:302-344 | A text that begins with neither a hex digit nor one of the two marks is malformed |
| CodecBuffer.PushBuffer.PushBlob | apk-tools/src/blob.c:162-177 | A push appends its whole text, or fails and makes every later push fail |
| CodecBuffer.PushBuffer.PushUint | apk-tools/src/blob.c:179-195 | The digits, written backwards into a small buffer, are those of the number |
| CodecBuffer.PushBuffer.PushHexdump | apk-tools/src/blob.c:213-235 | The in-place loop pushes the hex text |
| CodecBuffer.PushBuffer.PushBase64 | apk-tools/src/blob.c:246-268 | The chunk loop pushes the base64 text |
| CodecBuffer.PushBuffer.PushCsum | apk-tools/src/blob.c:197-211 | Either spelling is pushed; a checksum of no kind makes the buffer fail |
| CodecBuffer.ReadUint | apk-tools/src/blob.c:282-300 | The loop returns the value, in 32-bit arithmetic, and the rest |
| CodecBuffer.ReadHexdump | apk-tools/src/blob.c:346-385 | The destination holds the bytes decoded before the first bad digit, and the rest as it was |
| CodecBuffer.ReadBase64 | apk-tools/src/blob.c:412-434 | The destination holds the decoded bytes; bad characters are not reported |
| CodecBuffer.ReadCsum | apk-tools/src/blob.c:302-344 | The dispatch on the first characters does what the function says |
| Splitting.Split | apk-tools/src/blob.c:78-99 | A text is cut at its first separator, and not at all exactly when there is none |
| Splitting.SegmentsOfJoined | apk-tools/src/blob.c:134-149 | The segments of texts that are each ended by the separator are those texts |
| Dependencies.DepsRoundTrip | apk-tools/src/package.c:270-339 | A written list of legal dependencies parses back as the same list, with or without a final newline |
| Dependencies.DepRoundTrip | apk-tools/src/package.c:204-258 | One printed dependency parses back as itself |
| Dependencies.ParsedIsWellFormed | apk-tools/src/package.c:204-258 | Whatever text is accepted, the result is well formed, and printing it is a normal form for all its spellings |
| Dependencies.ParsedListIsNormal | apk-tools/src/package.c:270-339 | Printing what was parsed from a line, in whatever spelling, and parsing it again changes nothing; a final newline does not matter |
| Dependencies.ReadDep | apk-tools/src/package.c:204-258 | The parser with its mask loop accepts what the function accepts and returns the same dependency |
| Dependencies.ReadDeps | apk-tools/src/package.c:270-299 | The walk over the segments stops at the first error and keeps what came before |
| Dependencies.WriteDeps | apk-tools/src/package.c:315-339 | Written are the pieces before the first one that its line buffer cannot hold, as far as the stream takes them; it succeeds exactly when that is all of them |
| Dependencies.PushDep | apk-tools/src/package.c:301-313 | One dependency is pushed as its text, or the buffer fails |
| InstalledDbRoundTrip.DatabaseRoundTrip | apk-tools/src/database.c:567-726 | Reading what was written gives the same packages in the same order with equal metadata, dependencies, directories (owner, group, mode), files and checksums; absent strings come back empty; for lines as the buffered and as the mapped stream deliver them |
| InstalledDbRoundTrip.LinesOfText | apk-tools/src/database.c:677-726 | The lines that a reader gets from the written file are the lines that were written: no legal field breaks its line |
| InstalledDbRoundTrip.PackagesRead | apk-tools/src/database.c:567-664 | Reading the packages from any state between two packages adds them, and their files, behind what is there |
| InstalledDbRoundTrip.InfoRead | apk-tools/src/package.c:638-687 | The index lines of a package, read in order, rebuild its metadata |
| InstalledDbRoundTrip.IndexRoundTrip | apk-tools/src/database.c:567-607 | Reading a written index of a repository, from any state between two packages, gives exactly its packages in order, each marked with the repository that offers it, and changes nothing else |
| InstalledDbRoundTrip.FilesRead | apk-tools/src/database.c:637-655 | The file lines of a directory append its files, each with the checksum that follows it |
| InstalledDbLaws.UnknownFieldInIndex | apk-tools/src/package.c:640-687 | In an index a field that is not known makes its package uninstallable, unless it is a lower case letter or a field of the installed database; the rest of the package is read as without it |
| InstalledDbLaws.FatalLines | apk-tools/src/database.c:612-661 | An owner or a file without a directory, a checksum without a file, and an unknown field end the reading of the installed database with an error; an unknown field does not by force |
| InstalledDbLaws.DirectoryBegins | apk-tools/src/database.c:625-632 | A directory line, with or without a slash at its end, begins that directory of the package |
| InstalledDbLaws.EachPathOnce | apk-tools/src/database.c:372-398 | Whatever lines are read, a path is entered once, for its first owner |
| InstalledDbLaws.EntryFormat | apk-tools/src/package.c:989-1036 | The text of an index entry, letter by letter |
| InstalledDbLaws.DirectoryFormat | apk-tools/src/database.c:690-719 | The text of a directory and a file of it in the installed database, letter by letter |
| InstalledDbFile.WriteFdb | apk-tools/src/database.c:677-726 | If every flush fits the 1024-byte buffer, the text of the database is written as far as the stream takes it; it succeeds exactly when they fit and the stream takes everything but, perhaps, the last newline, the only write that is not checked |
| InstalledDbFile.LastNewlineGoesUnnoticed | apk-tools/src/database.c:721-724 | For every database that fits, a stream that takes all but the last byte: the writer reports success, and only closing the stream can tell |
| InstalledDbFile.WriteDir | apk-tools/src/database.c:690-719 | A directory, its header flushed together with its first file, is written as far as the stream takes it if the pieces fit, and successfully exactly if all is taken |
| InstalledDbFile.WriteEntry | apk-tools/src/package.c:989-1036 | The index entry is written, as far as the stream takes it, if it fits 512 bytes and has a checksum and its dependencies fit, and successfully exactly if all is taken |
| InstalledDbFile.Loader.Load | apk-tools/src/database.c:567-664 | The reading loop over a buffered stream, for the installed database, a repository or another index, ends in the state that the lines lead to, or fails at the first malformed one |
| InstalledDbFile.Loader.Enter | apk-tools/src/database.c:579-661 | One line does to the cursors and lists what the function says, in each mode |
| InstalledDbFile.Loader.FileGet | apk-tools/src/database.c:372-398 | A path that is known stays with its owner; an unknown one is appended to the current directory |
| InstalledDbFile.ReadInfo | apk-tools/src/package.c:638-687 | One index field sets its one member of the package; only a checksum can be malformed, and an unknown upper-case field makes the package uninstallable |
| InstalledDbFile.LoadedIsWritten | apk-tools/src/database.c:567-726 | Whatever the writer accepts is loaded again through the chunked reader, provided the dependency lines, the only ones that no buffer of the writer bounds, fit its 8192 bytes |
| LineReader.BufferedReaderSplits | apk-tools/src/io.c:196-249 | The buffered reader delivers exactly the segments of the input if and only if its lines fit the 8192-byte buffer |
| LineReader.NoFewerChunks | apk-tools/src/io.c:230-248 | A line that does not fit is delivered in more pieces, never merged with another |
| LineReader.FullLineIsSplit | apk-tools/src/io.c:230-248 | The failing case: a line that fills the buffer is delivered without its end, which then makes an empty line of its own |
| LineReader.MappedReaderSplits | apk-tools/src/io.c:290-306 | The mapped reader delivers the same segments, and one final empty blob when the input is empty or ends in the separator |
| LineReader.BufferedReader.Read | apk-tools/src/io.c:196-249 | One read delivers the next line or a full buffer of what is still to come, NULL exactly at the end, and without a separator whatever is at hand |
| LineReader.ReadAll | apk-tools/src/io.c:196-249 | Reading to the end gives those deliveries |
| LineReader.MappedReader.Read | apk-tools/src/io.c:290-306 | One read of the mapped file, with the end-of-file mark |
| LineReader.ReadAllMapped | apk-tools/src/io.c:290-306 | Reading the mapped file to its end gives those blobs |
| BufferedWriter.CloseReplaces | apk-tools/src/io.c:561-640 | The target is replaced by the whole text exactly when the disk has room for it and closing succeeds; if not, either the error is reported and the target left alone, or, when only the last flush failed, a truncated target is reported as success |
| BufferedWriter.FullDiskGoesUnnoticed | apk-tools/src/io.c:617-640 | A concrete case: the result of the last flush comes too late for the return code |
| BufferedWriter.WriteHolds | apk-tools/src/io.c:577-615 | A write leaves file and buffer with the old text and the new one, or is remembered as failed; the buffer is never overrun |
| BufferedWriter.FileWriter.Put | apk-tools/src/io.c:593-615 | The buffered write does what the function says |
| BufferedWriter.FileWriter.Finish | apk-tools/src/io.c:617-640 | Closing, with or without an error of the system, publishes what the function says |
| OwnershipTheorems.UpgradeOwnership | apk-tools/src/database.c:1892-2022 | After migrate and purge the index holds the old paths minus those of the old package plus those of the new one; the new package owns all its paths; third packages lose exactly the paths it claimed; index and lists agree one to one and their size is the number of files |
| OwnershipTheorems.RemovalOwnership | apk-tools/src/database.c:1892-1934 | A removal takes exactly the paths of the package out of the index and touches no other list |
| OwnershipTheorems.MigratePackageKeeps | apk-tools/src/database.c:1937-2022 | Migrating alone: every path of the package is its own afterwards, and every other list is what others did not lose |
| OwnershipKept.MigrateKeeps | apk-tools/src/database.c:2003-2018 | One-to-one agreement is kept by each claim in a series, also when the archive holds a path twice |
| OwnershipKept.ClaimKeeps | apk-tools/src/database.c:2003-2018 | A claim enters one pending file into the index and takes the previous owner off its list |
| OwnershipKept.PurgeKeeps | apk-tools/src/database.c:1903-1931 | A series of purges keeps the agreement and removes exactly its files |
| OwnershipDisk.UpgradeInstalls | apk-tools/src/database.c:1957-2002 | A path of the new package gets the contents unpacked last, also if the archive holds it twice, unless it is the overlay's or protected and locally changed: then it is left as it was; the purge never removes it |
| OwnershipDisk.UpgradeRemoves | apk-tools/src/database.c:1903-1922 | A path that only the old package had is removed from disk, unless it is protected and locally changed |
| OwnershipDisk.UpgradeSpares | apk-tools/src/database.c:1892-2022 | No other path on disk changes |
| OwnershipOutcome.UpgradeOnDisk | apk-tools/src/database.c:1892-2022 | All of it together, for an upgrade, in terms of the state before: what is on disk at every path, and where a new version NAME.apk-new is left: exactly beside a local change in a protected directory that none of the files brought for the path matches, and not with --clean-protected |
| OwnershipOutcome.FreshOnDisk | apk-tools/src/database.c:1937-2022 | The same for an installation that replaces nothing |
| OwnershipOutcome.StagedAfter | apk-tools/src/database.c:1968-2001 | What becomes of the staged version of one path, also if the package brings the path more than once |
| OwnershipRules.OneFileAccepted | apk-tools/src/database.c:1800-1830 | A file in its directory is accepted exactly if the path is nobody's, the overlay's, another version of the package's, that of a package it replaces, or by force |
| OwnershipRules.FileNeedsDirectory | apk-tools/src/database.c:1787-1797 | A file without a directory entry before it is refused |
| OwnershipRules.NotInstalled | apk-tools/src/database.c:1734-1788 | Package information, scripts, placeholders and files at the root are not installed |
| OwnershipRules.PurgedExactly | apk-tools/src/database.c:1903-1922 | A purge leaves a file on disk exactly if it is a local change in a protected directory, and not with --purge |
| OwnershipState.Database.Migrate | apk-tools/src/database.c:1937-2022 | The nested loops, which take each directory's list as it is when they get to it, after claims have removed files from lists, visit every file of the package once and give the function's state |
| OwnershipState.Database.Purge | apk-tools/src/database.c:1892-1934 | The loops that free files and directories as they go give the function's state |
| OwnershipState.Database.SettleFile | apk-tools/src/database.c:1968-2001 | The decision about the file on disk, the overlay's files included |
| OwnershipInstall.Unpack | apk-tools/src/database.c:1717-1890 | An archive is accepted exactly if every file has a directory entry before it and takes only paths that it may; the index and other lists do not change; the lists come out well formed if and only if no directory is returned to after a file of another one |
| OwnershipInstall.ReturningStrays | apk-tools/src/database.c:504-527 | A concrete archive, accepted under any flags, for which they do not: the cursor is moved by a file elsewhere and not moved back |
| OwnershipInstall.FindDir | apk-tools/src/database.c:504-527 | The lookup returns the current directory, or the first of that name, and says which list the file will get into; it fails exactly if there is none |
| OwnershipInstall.Discard | apk-tools/src/database.c:2105-2120 | A failed installation leaves index, lists, count and disk as they were, and of the staged files those that a purge would keep |
| OwnershipInstall.Install | apk-tools/src/database.c:2122-2193 | The whole operation, as a fresh installation or an upgrade, is accepted exactly if the archive is; it changes ownership as stated for the upgrade, leaves on disk, and as NAME.apk-new, what the disk theorem says for every path, and on an error changes nothing but staged files |
| SignatureSafety.VerifiedIsCovered | apk-tools/src/package.c:533-629 | For every interleaving of files, metadata lines and stream parts that ends with the stream, meets no error in its parts (whatever the file callback answers, such as a missing key: the callers go on) and does not allow untrusted packages: verified data imply a verified control block; with an announced digest the signature or identity was checked over exactly the bytes from the last boundary before the control block to its own boundary, and the digest over exactly all bytes from there on; without one, the check covered everything from that first boundary; the key is one of the key directory and the signature the contents of a signature file, the identity is the one asked for, and the data digest is the one that the metadata lines before the data have left |
| SignatureSafety.RunSourced | apk-tools/src/package.c:446-512 | Whatever the order of events, a context has a signature only from a signature file whose key is in the key directory, and its data digest is what the metadata lines before the data have written over it |
| SignatureSafety.LastLineCounts | apk-tools/src/package.c:491-512 | The last of these lines, if its 64 digits are good, decides |
| SignatureSafety.InitIsFresh | apk-tools/src/package.c:363-402 | Every initial context is one that the theorems speak of, whatever the action |
| SignatureSafety.RunTracks | apk-tools/src/package.c:427-629 | The flags of the context are those that the events alone determine, and the digest always holds everything since the last boundary that reset it |
| SignatureSafety.DataIsSha256 | apk-tools/src/package.c:491-531 | When metadata lines come from files of the control block, the data are checked with SHA-256 |
| SignatureSafety.EndChecks | apk-tools/src/package.c:560-610 | What the end of the stream verifies, case by case |
| SignatureAcceptance.SignedPackageIsAccepted | apk-tools/src/package.c:427-629 | A package whose control block is signed with a trusted RSA or DSA key, the signature being over the digest for that kind of key, and whose data have the SHA-256 digest that it announces, is read without an error and is verified |
| SignatureAcceptance.WhollySignedIsAccepted | apk-tools/src/package.c:427-629 | So is one without such a digest that is signed as a whole |
| SignatureAcceptance.KnownPackageIsAccepted | apk-tools/src/package.c:427-629 | And one whose control block has the SHA-1 identity that is asked for |
| SignatureAcceptance.IdentityIsFound | apk-tools/src/package.c:596-603 | When the identity is to be found out, it is the SHA-1 digest of the control block, and reading ends there |
| SignatureAcceptance.SignedIdentityIsFound | apk-tools/src/package.c:574-610 | Verifying a signed control block finds out its identity as well, when that is asked for |
| SignatureAcceptance.OldPackageIsAccepted | apk-tools/src/package.c:586-595 | With an MD5 identity the whole stream is accepted exactly if it has that digest |
| SignatureAcceptance.OldPackageIsRead | apk-tools/src/package.c:596-603 | The identity of a package of the old format is the MD5 digest of the whole stream; without any action nothing is verified |
| SignatureAcceptance.SignatureFileRead | apk-tools/src/package.c:446-489 | The first signature file with a trusted key sets key, signature and digest: SHA-1 for an RSA key, DSS1 for a DSA key; one without a trusted key is only counted |
| SignatureState.SignContext.constructor | apk-tools/src/package.c:363-402 | The initial context for each action |
| SignatureState.SignContext.ReadFile | apk-tools/src/package.c:427-489 | The file callback, with the choice of the key |
| SignatureState.SignContext.ReadLine | apk-tools/src/package.c:491-512 | The metadata callback |
| SignatureState.SignContext.ReadPart | apk-tools/src/package.c:533-629 | The stream callback, with its shared exits |
| TarRoundTrip.TarRoundTrip | apk-tools/src/archive.c:119-331 | Parsing a written archive returns 0 and delivers the same names, sizes, modes, times and data in order, every header being read at a multiple of 512 |
| TarRoundTrip.HeadersAligned | apk-tools/src/archive.c:145-240 | For any stream and any callback, every header is read at a multiple of 512 inside the stream |
| TarRoundTrip.ReadingLessIsTheSame | apk-tools/src/archive.c:88-113 | However few bytes the callback reads of an entry, the same entries, headers and result follow |
| TarRoundTrip.OctalRoundTrip | apk-tools/src/archive.c:61-79 | A number comes back from an octal field if and only if its digits fit the field and it fits an int |
| TarRoundTrip.LargeSizeIsLost | apk-tools/src/archive.c:61-79 | The failing case: the digits of 2^31 fit the size field, but come back as a negative number |
| TarRoundTrip.HeaderReads | apk-tools/src/archive.c:267-303 | A written header is read as what was written |
| TarKinds.KindsRoundTrip | apk-tools/src/archive.c:119-260 | Archives of regular files, hard and symbolic links, devices, directories, long names and unknown entries, as other programs write them, are delivered as what they are: the type bits of each kind, link targets, device numbers, the long name for just the next delivered entry, unknown entries not at all; they end well exactly if only empty blocks follow the end |
| TarKinds.UstarReads | apk-tools/src/archive.c:145-165 | Every field of a ustar header is read back |
| TarKinds.AnswerEnds | apk-tools/src/archive.c:222-235 | An answer of the callback other than 0 ends the parse and is its result |
| TarKinds.ChecksumIsWritten | apk-tools/src/archive.c:286-295 | A written header carries the sum of its bytes, with blanks in the place of the sum |
| TarState.PutOctal | apk-tools/src/archive.c:67-79 | The two loops fill the field from the last digit on |
| TarState.WriteHeader | apk-tools/src/archive.c:267-303 | The header fields, written in the program's order, and the checksum over them give the header |
| TarState.WriteEntry | apk-tools/src/archive.c:267-318 | Only regular files are written, and the end of an archive is two empty headers; each as far as the stream takes it, and successfully exactly if it takes all |
| TarState.EntryStream.Read | apk-tools/src/archive.c:88-113 | A callback never reads past its entry |
| TarState.ParseTar | apk-tools/src/archive.c:119-260 | The parse loop with its offset returns the result, and makes the calls, that the function says |
| Directories.RunsCount | apk-tools/src/database.c:205-291 | In every run of get and unref that releases only what it holds and never acquires a dead directory again, each count is that of the instances plus the live children, and the statistics give the number of live directories |
| Directories.AcquireKeeps | apk-tools/src/database.c:232-291 | Acquiring keeps the counts right if and only if the first directory on the way up that is in the table is live |
| Directories.ReacquiredIsNotCounted | apk-tools/src/database.c:232-291 | The failing case, a run of three operations: a directory that is put back and acquired again is live, and the statistics count none |
| Directories.ReleaseKeeps | apk-tools/src/database.c:205-218 | Releasing keeps the counts right, up to the root |
| Directories.ReleaseRemoves | apk-tools/src/database.c:205-218 | The directories that are tried to be removed are exactly those that are not live any more, each before its parent |
| Directories.ParentIs | apk-tools/src/database.c:258-263 | The parent of a name is what stands before its last slash, and the root for a name without one |
| Directories.LiveIsClosed | apk-tools/src/database.c:263-268 | A live directory has a live parent |
| DirectoryState.DirTable.Get | apk-tools/src/database.c:232-291 | The recursive procedure on the table does what the function says |
| DirectoryState.DirTable.Unref | apk-tools/src/database.c:205-218 | Likewise, with the removals from disk |
| HashTable.Table.Get | apk-tools/src/hash.c:47-71 | The walk over one bucket returns the newest live item with the key |
| HashTable.Table.Insert | apk-tools/src/hash.c:73-81 | The item becomes the newest with its key; no other key is affected |
| HashTable.Table.Delete | apk-tools/src/hash.c:83-111 | The newest item with the key leaves the table and its node the list, the next older one shows, other keys are not affected, and the item count is not lowered |
| HashTable.Table.ForEach | apk-tools/src/hash.c:30-45 | The items are visited bucket by bucket up to one that is answered by an error while there is a context |
| HashTable.VisitsEachOnce | apk-tools/src/hash.c:30-45 | A visit that no error ends reaches every live item exactly once |
| HashTable.Unlink | apk-tools/src/apk_defines.h:142-153 | Deleting from a list whose last node points to the sentinel relinks just the one node before |
| HashTable.Push | apk-tools/src/apk_defines.h:155-161 | Adding at the head of an empty, emptied or filled list |
| HashTable.CutFirst | apk-tools/src/hash.c:83-111 | Taking out the newest item with a key shows the next older one and keeps all other stacks |

## Left out

- Memory: reference counts and copy-on-write of candidate lists, allocation failure, dangling lists and 16-bit
  counters are not modelled; bytes are characters, and names have no NUL inside.
- Solver output and plumbing: printing of errors and changes, progress, the questions asked of the user, the
  second loop of a commit (which carries out the changes), and the reading of command lines.
- SolverTheorems.InstalledSetStaysConsistent: says nothing about conflicts, because they can fail; when they hold
  is the matter of SolverTheorems.ConflictsHoldExactly.
- Solver.LockAll: the world constraints are fixed, where an upgrade with APK_PREFER_AVAILABLE relaxes them one
  by one while it locks them (apk-tools/src/upgrade.c:47-54).
- SolverDependants.DependantTable.AddPackage: packages with equal checksums, which are merged and not added again.
- Dependencies.ParsedListIsNormal: lines with a newline or a NUL inside; C strings are cut off at a NUL.
- Codec.PullCsum: a hex text shorter than its checksum, which the source reads on from behind the line, counts
  as malformed (apk-tools/src/blob.c:354).
- CodecBuffer.ReadHexdump: texts that pass the source's guard although they are shorter than two digits a byte.
- CodecBuffer.ReadCsum: such texts, as for PullCsum.
- CodecBuffer.PushBuffer.PushBlob: what a failed buffer holds is not stated; no caller uses it.
- Splitting.Split: separators of more than one character.
- InstalledDbRoundTrip.DatabaseRoundTrip: two packages with the same checksum, which the source merges; directory
  names with a trailing slash; script and trigger files, and the world file.
- InstalledDbFile.WriteFdb: a buffer that overflows makes the write fail, where the source passes on a length
  computed from a NULL pointer.
- InstalledDbFile.Loader.Load: the list of available packages, into which a read package goes and where packages
  with equal checksums are merged; the order of its hash table.
- InstalledDbFile.ReadInfo: the database-wide notes that some field was unknown, which only lead to a warning.
- LineReader.BufferedReader.Read: read errors, streams that read short before their end, and the overlap of
  the copy to the front of the buffer, which is taken as a move; a delivery is a copy here and a pointer into
  the buffer there.
- BufferedWriter.FileWriter.Put: writes that return 0 without an error.
- Ownership: reinstallation of the same package, hard links' checksums, and a staged file NAME.apk-new that is
  also a file of that very name.
- OwnershipInstall.Unpack: what is done with scripts and with the package information, which are skipped here, and
  errors of the extraction.
- OwnershipInstall.Install: archives that return to a directory (see Unpack) are excluded, because the agreement
  of index and lists is lost for them; scripts and triggers.
- Signature: the inflation that produces the stream parts, and OpenSSL's own failures.
- SignatureState.SignContext.ReadLine: a datahash with less than 64 digits that the source reads past is ignored.
- TarRoundTrip.TarRoundTrip: names of 100 bytes, which are written without an end; times of 0, for which the
  clock is asked; checksums embedded in or computed over entries; mapping of user and group names to numbers.
- TarState.EntryStream.Read: read errors, and the checksum that is computed along the way.
- TarState.ParseTar: checksums embedded in headers, and the mapping of user and group names to numbers; sizes
  that the int of the source turns negative end the model's parse without a result.
- Directories: protected-path flags, and names with a trailing slash, which are looked up by another hash.
- HashTable.Table.Delete: the callback that frees an item.
- Network, URL and cache handling, locking, and the applets.
