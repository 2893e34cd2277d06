# distcc client decisions, modelled in Dafny

This project models the client side of distcc, the compiler wrapper that
sends C/C++ compilations to other machines. The model covers how the
client:

- reads a compiler command line and decides whether it can be
  distributed, editing argument vectors along the way (`src/arg.c`,
  `src/filename.c`);
- chooses and locks a host slot (`src/where.c`);
- backs off from hosts that failed (`src/backoff.c`);
- records its progress for monitors (`src/state.c`);
- guards against calling itself (`src/safeguard.c`);
- trims PATH when it masquerades as the compiler (`src/climasq.c`);
- decides where preprocessing runs and finds fresh dependencies
  (`src/compile.c`);
- drives the whole attempt through `dcc_build_somewhere`: remote
  compile, fallback, local compile and lock release.

Everything the client asks of the operating system is a parameter or an
oracle value. This covers the environment (a `map<string, string>`), file
sizes and times, lock attempts, the state directory, `access`, the
include server, and the remote and local compilers. Argument vectors are
`seq<string>`; where the source overwrites array slots in place, they are
`array<string>`.

Modules, one per source file, in dependency order:

- `Common` (common.dfy) holds `Option`/`Result`, the exit codes, and C
  string and `atoi` helpers.
- `Filename` (filename.dfy), `Args` (args.dfy) and `Hosts` (hosts.dfy).
  `Hosts.HostDef` is the host definition record, with fields that can
  change in place.
- `Backoff` (backoff.dfy), `State` (state.dfy), `Where` (where.dfy),
  `Safeguard` (safeguard.dfy), `Climasq` (climasq.dfy) and
  `Compile` (compile.dfy).
- `Build` (build.dfy) holds `dcc_build_somewhere`.

The exit code values come from distcc's `exitcode.h`, which is not part
of this model:

| code | value |
|---|---|
| EXIT_DISTCC_FAILED | 100 |
| EXIT_BAD_ARGUMENTS | 101 |
| EXIT_OUT_OF_MEMORY | 105 |
| EXIT_IO_ERROR | 107 |
| EXIT_BUSY | 114 |
| EXIT_NO_HOSTS | 116 |

## Model

| member | source | states |
|---|---|---|
| Filename.FindExtension | src/filename.c:60-71 | the extension is a proper suffix of the name that starts with '.' and has at least one more character |
| Filename.FindExtensionSpec | src/filename.c:60-71 | there is no extension exactly when the name has no '.' or ends in one; the extension holds no further '.' |
| Filename.FindBasename | src/filename.c:100-113 | the basename is a suffix of the name |
| Filename.FindBasenameSpec | src/filename.c:100-113 | a name without '/', or ending in '/', is its own basename; otherwise the basename is the non-empty '/'-free text after the last '/' |
| Filename.TruncateToDirname | src/filename.c:120-131 | the C string in the buffer becomes the text before its last '/', or empty when it has none |
| Filename.SetFileExtension | src/filename.c:134-158 | fails with EXIT_DISTCC_FAILED exactly when there is no extension or the old one is shorter than the new one; otherwise the stem followed by the new extension |
| Filename.IsPreprocessedTable | src/filename.c:219-242 | the switch accepts exactly the preprocessed suffixes i, ii, mi, mii (and s when assembly is remote) |
| Filename.IsSourceTable | src/filename.c:249-290 | the switch accepts exactly the source suffixes c, cc, cpp, cxx, cp, c++, C, m, mm, M and the preprocessed ones (and s, S when assembly is remote) |
| Filename.PreprocessedIsSource | src/filename.c:219-290 | every preprocessed name is a source name |
| Filename.PreprocExtenTable | src/filename.c:183-210 | each source suffix maps to its preprocessed suffix (.i, .ii, .mi, .mii, .s), anything else to none; the result maps to itself |
| Filename.PreprocExtenNeedsDot | src/filename.c:183-210 | a string not starting with '.' has no preprocessed extension |
| Filename.SourcePreprocessesToPreprocessed | src/filename.c:183-290 | the preprocessed name of a recognised source file is recognised as preprocessed |
| Filename.IsObject | src/filename.c:299-307 | a name is an object file exactly when its extension is "o" |
| Filename.IsObjectSuffix | src/filename.c:299-307 | every NAME.o is an object file |
| Filename.SourceNeedsLocal | src/filename.c:314-326 | the answer is 0 or EXIT_DISTCC_FAILED |
| Filename.NeedsLocalExactly | src/filename.c:314-326 | the answer is a failure exactly when the basename starts with "conftest." or "tmp.conftest." |
| Filename.OutputFromSource | src/filename.c:344-358 | an error is EXIT_DISTCC_FAILED |
| Filename.StrippedNameSpec | src/filename.c:344-350 | the name the output is derived from has no '/', and is the whole name when that has none |
| Filename.OutputFromSourceOfSource | src/filename.c:344-358 | for a source file: failure exactly when the stripped name is shorter than three characters, else the stripped stem followed by the new extension |
| Filename.OutputFromSourceSlashFree | src/filename.c:344-358 | the same for any name whose extension holds no '/' |
| Filename.OutputFromPlainName | src/filename.c:344-358 | a directory-free name gets the text before its last '.' followed by the new extension |
| Filename.ObjectOfPlainSource | src/filename.c:314-358 | NAME.c that is no autoconf probe stays remote and yields NAME.o |
| Filename.SourceExtensionHasNoSlash | src/filename.c:249-290 | a source name has an extension without '/' |
| Args.GroupsFixSecondChar | src/arg.c:168-256 | every rule filed under a character accepts only options with that second character |
| Args.GroupedBySecondChar | src/arg.c:168-256 | dispatching on the option's second character keeps the meaning of the if-chain |
| Args.TableBookkeeping | src/arg.c:168-256 | the rules that set -S, -c, an output or skip an operand carry the tests of the source |
| Args.ClassifyActions | src/arg.c:168-256 | -S, -c, skip-operand and output classifications come only from "-S", "-c", "-MF"/"-MT"/"-MQ", "-o" and "-o..." |
| Args.ClassifyDashO | src/arg.c:249-256 | "-o" takes the next token as the output; any longer "-o..." names the output itself |
| Args.ClassifySkipOperand | src/arg.c:184-190 | a bare -MF, -MT or -MQ skips its operand |
| Args.ClassifyOperandTakers | src/arg.c:184-256 | the tokens after which the loop bumps its index once more |
| Args.ClassifyExact | src/arg.c:168-175 | "-S" and "-c" are noted; "-E" forces local compilation |
| Args.ClassifyLocalNative | src/arg.c:205-210 | -march=native and -mtune=native force local compilation |
| Args.ClassifyLocalM | src/arg.c:176-203 | any -M option other than -MD, -MMD, -MG, -MP and the -MF/-MT/-MQ forms forces local compilation |
| Args.ClassifyLocalWa | src/arg.c:212-222 | a -Wa, option holding ",-a" or "--MD" forces local compilation |
| Args.ClassifyLocalSpecs | src/arg.c:224-227 | -specs= forces local compilation |
| Args.ClassifyLocalProfiling | src/arg.c:231-238 | -fprofile-arcs, -ftest-coverage, --coverage and -frepo force local compilation |
| Args.ClassifyLocalLanguage | src/arg.c:239-241 | -x forces local compilation |
| Args.ClassifyLocalDump | src/arg.c:242-245 | -dr forces local compilation |
| Args.StepNext | src/arg.c:158-256 | an iteration that goes on moves one index, or two after an operand taker |
| Args.ArgvAppend | src/arg.c:94-100 | the vector grows by one, keeps its old elements and ends in the new one |
| Args.ScanArgs | src/arg.c:139-347 | the index loop computes the scan specification: exit with EXIT_BAD_ARGUMENTS when argv[0] is an option, else the loop's verdict and the checks after it |
| Args.ScanLoopUnfold | src/arg.c:158-280 | one iteration of the loop, which never finishes it by itself |
| Args.OperandNeverClassified | src/arg.c:184-252 | the token after a bare -MF/-MT/-MQ/-o is never classified |
| Args.LocalOptionBails | src/arg.c:176-245 | an option that forces local compilation, once reached, ends the scan with a bail-out whatever came before |
| Args.StopBeforeEnd | src/arg.c:158-280 | before the last index the loop stops only by bailing out |
| Args.ForcesLocalClassified | src/arg.c:176-245 | every option of the local-only list is classified as local |
| Args.LocalOptionsForceLocal | src/arg.c:176-245 | a reached local-only option makes the scan answer local (or the argv[0] exit) |
| Args.StepEffect | src/arg.c:168-280 | what one iteration does to the -S/-c flags, the input and the output, and that a second input or output bails |
| Args.StepKeeps | src/arg.c:168-280 | an input or output once set is never replaced; the flags are never cleared |
| Args.SecondInputBails | src/arg.c:259-265 | a source token reached once an input is known bails |
| Args.TwoInputsBail | src/arg.c:259-265 | two reached source files make the scan bail |
| Args.SecondOutputBails | src/arg.c:267-274 | an output-naming token reached once an output is known bails |
| Args.TwoOutputsBail | src/arg.c:249-274 | two reached output names (-o NAME, -oNAME or a bare .o token) make the scan bail |
| Args.FinishedFacts | src/arg.c:158-280 | what a finished loop holds was set by tokens it reached; no output means no reached token named one |
| Args.DistributableRequires | src/arg.c:285-298 | success needs a reached -c or -S, a reached source input that is no autoconf probe, and an output other than "-" |
| Args.NewArgvShape | src/arg.c:300-331 | with no output named, the new argv is the old one followed by "-o" and the implied name; otherwise it is the old one |
| Args.FinishImplied | src/arg.c:300-331 | the implied output is appended as "-o NAME" |
| Args.FinishShape | src/arg.c:285-346 | the vector handed back is the old one, plus "-o" and the implied name when no output was seen |
| Args.SeenSExact | src/arg.c:168-175 | -S is recorded exactly when a reached token is "-S" |
| Args.OutputSeen | src/arg.c:249-274 | a known output was set by a reached token |
| Args.ScenarioImpliedObject | src/arg.c:139-347 | "gcc -c NAME.c" is distributable with "-o NAME.o" appended |
| Args.ScanImpliedObject | src/arg.c:158-280 | the loop over "gcc -c NAME.c" sees -c and the input |
| Args.ScenarioPreprocessOnly | src/arg.c:168-175 | "gcc -E -c hello.c" runs locally |
| Args.ScenarioStdout | src/arg.c:336-344 | "gcc -o - -c NAME.c" runs locally |
| Args.ScanStdout | src/arg.c:249-280 | the loop over "gcc -o - -c NAME.c" records the output "-", -c and the input |
| Args.Strchr | src/arg.c:457-534 | strchr: none exactly when the character is absent, else the suffix starting at its first occurrence |
| Args.SplitCommas | src/arg.c:457-534 | a string splits into at least one piece |
| Args.MDPrefix | src/arg.c:500-510 | the "-MD,"/"-MMD," prefix test holds exactly when the first piece is -MD/-MMD and another piece follows |
| Args.WalkLength | src/arg.c:457-476 | each round of the counting walk accounts for three tokens after -MD/-MMD and one otherwise |
| Args.CountExtraArgs | src/arg.c:457-476 | count_extra_args returns the length of the expansion |
| Args.CopyExtraArgs | src/arg.c:487-534 | copy_extra_args produces the expansion: each piece, and -MF before the piece after -MD/-MMD |
| Args.ExpandPreprocessorOptions | src/arg.c:553-592 | every "-Wp," argument is replaced in place by its expansion, argument by argument |
| Args.ExpansionNonEmpty | src/arg.c:571-572 | an expansion is never empty |
| Args.ExpandAllSnoc | src/arg.c:553-592 | expanding one more argument appends its expansion |
| Args.ExpandAllAppend | src/arg.c:553-592 | expansion distributes over concatenation: arguments around a -Wp option keep their order |
| Args.ExpandAllIdentity | src/arg.c:553-592 | without -Wp options the vector is unchanged |
| Args.ExpandPiecesCommaFree | src/arg.c:487-534 | comma-free pieces give comma-free tokens |
| Args.SplitCommasCommaFree | src/arg.c:487-534 | no piece holds a comma |
| Args.WpHasComma | src/arg.c:553-592 | a -Wp, option has a comma |
| Args.ExpandAllNoWp | src/arg.c:553-592 | no token of an expansion is a -Wp, option |
| Args.ExpandAllIdempotent | src/arg.c:553-592 | expanding twice is expanding once |
| Args.SplitAtComma | src/arg.c:487-534 | splitting at the first comma |
| Args.WpDependencyFile | src/arg.c:500-510 | "-Wp,-MD,FILE" (or -MMD) becomes -MD -MF FILE |
| Args.ExpandDependencyPieces | src/arg.c:500-510 | the pieces "-MD,FILE" expand to -MD, -MF, FILE |
| Args.SetActionOpt | src/arg.c:355-377 | every "-c" and "-S" becomes the new option and nothing else changes; success exactly when there was one |
| Args.FirstOutputOption | src/arg.c:389-419 | none exactly when no argument starts with "-o", else the first such index |
| Args.FirstOutputOptionAt | src/arg.c:389-419 | the first -o argument is found at its index |
| Args.OutputEditNames | src/arg.c:389-419 | after the edit the first -o option is still at its index and names the new file |
| Args.SetOutput | src/arg.c:389-419 | only the first -o/-oNAME is rewritten; failure with EXIT_DISTCC_FAILED and no change when there is none |
| Args.FirstSource | src/arg.c:430-449 | none exactly when no argument is a source file, else the first such index |
| Args.SetInput | src/arg.c:430-449 | the first source file argument becomes the new name; failure with no change when there is none |
| Hosts.HostDef.constructor | src/hosts.h:33-70 | a host definition holds mode, name, slot count, definition string, compression, protocol version and preprocessing place |
| Backoff.CheckBackoffCases | src/backoff.c:88-102 | a read error passes through; otherwise EXIT_BUSY exactly within the period after the mark, 0 after it |
| Backoff.Keep | src/backoff.c:109-135 | filtering never lengthens the list |
| Backoff.BackoffState.constructor | src/backoff.c:53 | the period starts at its default |
| Backoff.BackoffState.EnjoyedHost | src/backoff.c:62-72 | with backoff off: 0 and no change; otherwise the timefile removal's result, the file gone when it succeeded and untouched when it failed |
| Backoff.BackoffState.DislikedHost | src/backoff.c:74-85 | with backoff off: 0 and no change; otherwise the timefile marking's result, the file stamped with the current time when it succeeded and untouched when it failed |
| Backoff.BackoffState.RemoveDisliked | src/backoff.c:109-135 | the period comes from the environment when set; period 0 keeps the list, otherwise the hosts whose check passes stay |
| Backoff.KeepSelect | src/backoff.c:109-135 | the kept hosts are exactly those that pass, in list order, none added or duplicated |
| Backoff.DislikedHostIsSkipped | src/backoff.c:74-102 | a host just disliked stays out for a whole period |
| Backoff.EnjoyedHostIsKept | src/backoff.c:62-102 | a host just enjoyed passes once a period has elapsed since the epoch |
| State.PhaseName | src/state.c:121-143 | "Unknown" exactly for a value that is none of the eight phases |
| State.PhaseNamesDistinct | src/state.c:121-143 | the eight phase names are pairwise different |
| State.Strlcpy | src/state.c:237-243 | strlcpy keeps a prefix shorter than the buffer: the whole string when it fits, size - 1 characters otherwise |
| State.StateFilename | src/state.c:101-118 | the name is "<dir>/binstate_" followed by the pid |
| State.StateFilenamePid | src/state.c:101-118 | the pid can be read back from the name |
| State.StateFilenameInjective | src/state.c:101-118 | two pids never share a state file |
| State.Directed | src/state.c:287-307 | local selects the local record, remote the remote one, unknown keeps the previous choice |
| State.StateRecords.constructor | src/state.c:46-47 | both records empty, none selected, nothing published |
| State.StateRecords.NotedFields | src/state.c:230-250 | size, magic and pid are set; file and host only when given, cut to their buffers; the phase once the clock was read; the slot is kept |
| State.StateRecords.DirectMyState | src/state.c:287-307 | the selection follows the target and no record changes |
| State.StateRecords.SetSelected | src/state.c:230-250 | writing through the selection touches only the selected record |
| State.StateRecords.NoteStateSlot | src/state.c:275-279 | only the slot of the selected record changes; the other record is never touched |
| State.StateRecords.NoteState | src/state.c:217-272 | -1 and no change without a selected record; otherwise the record is updated field by field up to the first failure, and on success the state file holds it |
| State.StateRecords.WriteNote | src/state.c:230-272 | the error code of each failing step, and the published state file on success |
| State.StateRecords.RemoveStateFile | src/state.c:172-191 | this process's state file is gone afterwards; a missing one is not an error; the records are untouched |
| Where.SlotRowShape | src/where.c:178-184 | a row holds, in list order, the hosts with more slots than the slot index |
| Where.CandidatesOrder | src/where.c:177-184 | a pass tries every host at slot i before any host at slot i + 1, hosts in list order |
| Where.SlotRowCovers | src/where.c:178-184 | every host with enough slots is in the row |
| Where.RowMembers | src/where.c:178-184 | a pair is in a row exactly when its host is in the list and has enough slots |
| Where.CandidatesCover | src/where.c:177-184 | a pair is tried exactly when its slot is below both the host's slot count and 50 |
| Where.CandidatesCoverAll | src/where.c:177 | a pass from slot i tries no lower slot |
| Where.FirstDecisiveSpec | src/where.c:185-198 | a pass is all busy exactly when every pair answered busy; otherwise it ends at the first pair that did not, every earlier one busy |
| Where.TrySlot | src/where.c:178-198 | the inner loop over the hosts for one slot index ends as the pass over its pairs does |
| Where.LockOnePass | src/where.c:177-199 | the nested loops end as the pass specification does |
| Where.PauseMillis | src/where.c:119-152 | DISTCC_PAUSE_TIME_MSEC as a C unsigned, 1000 when unset |
| Where.PauseMicros | src/where.c:119-152 | no sleep exactly for a zero pause; otherwise the millisecond count times 1000, as an unsigned int |
| Where.RetryPasses | src/where.c:176-203 | every pass before the last found all pairs busy and was followed by the configured pause; the last pass's outcome is the result |
| Where.LockOne | src/where.c:168-204 | as RetryPasses; after a lock only the slot of the record chosen for the host (local for "localhost") changes and that record becomes the selected one; without a lock the records are untouched |
| Where.LockedIsCandidate | src/where.c:185-190 | a locked pair is one the pass tried, on the host at its position |
| Where.LockedPair | src/where.c:177-190 | a locked slot is below both 50 and the host's slot count |
| Where.PickHostFromListAndLockIt | src/where.c:95-116 | EXIT_NO_HOSTS without a list or when backoff leaves none; otherwise the choice of the lock loop over the surviving hosts, from that list; the chosen slot is noted in the host's record and nothing else in the records changes |
| Where.DecisiveError | src/where.c:195-198 | a lock error handed back is neither 0 nor EXIT_BUSY |
| Where.LockLocal | src/where.c:212-217 | the lock loop over the single local host, with the slot it takes noted as dcc_lock_one notes it and no change without a lock |
| Where.LockLocalCpp | src/where.c:219-231 | the lock loop over the local host; after a lock the slot is noted in the record chosen by host name, then the local record is selected and gets the preprocessing note (published when the write succeeds); without a lock nothing changes |
| Safeguard.LevelOf | src/safeguard.c:54-68 | level 0 exactly when the variable is unset; its atoi value otherwise, with 0 read as 1 |
| Safeguard.LevelChar | src/safeguard.c:73-74 | the character written is the digit for level + 1, for levels 0 to 8 |
| Safeguard.Guard.constructor | src/safeguard.c:50-52 | level 0 and the setting "_DISTCC_SAFEGUARD=1" |
| Safeguard.Guard.RecursionSafeguard | src/safeguard.c:54-68 | the level becomes LevelOf the environment and is returned |
| Safeguard.Guard.IncrementSafeguard | src/safeguard.c:71-82 | a positive level overwrites the setting's last character; the setting is exported unless putenv fails; the result is always 0 |
| Safeguard.AtoiOneChar | src/safeguard.c:58-60 | atoi of one character is its digit value, or 0 |
| Safeguard.ChildIsGuarded | src/safeguard.c:54-82 | whatever one character is exported, a child process sees a level of at least 1 |
| Safeguard.ChildLevelIncrements | src/safeguard.c:54-82 | up to level 8 a child sees one more than its parent |
| Safeguard.ExportedIsLastChar | src/safeguard.c:73-76 | the exported value is the setting's last character |
| Climasq.SupportMasquerade | src/climasq.c:60-140 | no PATH: 0 and nothing written; otherwise PATH becomes the text after the first matching component, with the flag set, or stays with the flag cleared; a set_path error is returned |
| Climasq.AfterMatchFound | src/climasq.c:90-136 | a non-empty result is what follows a ':' whose component matches, and no component ending at an earlier ':' matches |
| Climasq.AfterMatchNone | src/climasq.c:90-136 | an empty result means no component ended by a ':' matches |
| Climasq.MasqueradeKeepsSuffix | src/climasq.c:121-136 | PATH only becomes a proper suffix of itself, starting after a ':' |
| Climasq.NoMatchShift | src/climasq.c:90-120 | a first component that does not match is skipped |
| Climasq.FirstComponent | src/climasq.c:90-108 | before the first ':' the component is the whole prefix |
| Climasq.FoundLater | src/climasq.c:90-120 | a match past a first component that does not match |
| Climasq.LastSegmentAfterColon | src/climasq.c:90-98 | a component does not reach past a ':' |
| Climasq.LastSegmentNoColon | src/climasq.c:90-98 | a ':'-free prefix is one component |
| Compile.LimitFromEnv | src/compile.c:78-101 | a positive value is the limit, unset is 1, anything else exits with EXIT_BAD_ARGUMENTS |
| Compile.DiscrepancyFilenameSpec | src/compile.c:112-146 | a counter name exists exactly when INCLUDE_SERVER_PORT ends in "/socket", and it is that path with "/discrepancy_counter" in place of "/socket" |
| Compile.ReadNumberDiscrepancies | src/compile.c:155-169 | 0 exactly without a name or a file; the file size when it fits an int and is positive; INT_MAX otherwise |
| Compile.Discrepancies.constructor | src/compile.c:83-84 | nothing cached yet |
| Compile.Discrepancies.MaxDiscrepancies | src/compile.c:78-101 | a cached limit is returned as is; otherwise the limit is read and cached, or the process exits |
| Compile.Discrepancies.NoteDiscrepancy | src/compile.c:176-202 | nothing without a name; an open or write failure is EXIT_IO_ERROR; success appends one byte |
| Compile.Discrepancies.PerhapsAdjust | src/compile.c:209-260 | preprocessing moves to the client, with the protocol recomputed, exactly when the counter reached the limit, the input is preprocessed, or an include path variable is set |
| Compile.NoteThenRead | src/compile.c:155-202 | a note raises the count by one up to INT_MAX; a new file reads as one |
| Compile.OneNoteDemotes | src/compile.c:225-259 | with the default limit, one discrepancy demotes every later compile sharing the counter |
| Compile.SkipFrom | src/compile.c:316-321 | skipping stops at a character that is neither white space nor backslash |
| Compile.ReadName | src/compile.c:322-350 | reading a name moves forward, and ends at the end of file only there |
| Compile.ReadNamePlain | src/compile.c:322-350 | a name read holds no white space and no backslash |
| Compile.ScanFromFound | src/compile.c:313-371 | a reported dependency is a non-empty plain name, not excluded, changed at or after the reference time |
| Compile.FreshDependencyFound | src/compile.c:277-376 | a fresh dependency is only reported from a readable .d file no older than the reference time |
| Compile.FindColon | src/compile.c:305-310 | the getc loop finds the first ':' |
| Compile.SkipBlanks | src/compile.c:316-321 | the getc loop skips as SkipFrom does |
| Compile.ReadDependencyName | src/compile.c:322-350 | the getc loop reads the name ReadName does |
| Compile.FreshDependencyExists | src/compile.c:277-376 | the character loop computes the dependency scan |
| Compile.ScanFromFirst | src/compile.c:313-371 | the character scan returns the first dependency name that is not excluded and is either missing (stopping with no result) or changed at or after the reference time, every earlier name being excluded or older |
| Compile.FreshDependencyFirst | src/compile.c:262-376 | with no .d file, an older one or one that cannot be opened there is no result; otherwise the result is the scan of the names after the first colon stopping at the first name that is fresh or cannot be stat'd |
| Build.ReplayBalanced | src/compile.c:546-868 | in a trace that keeps the lock discipline, each handle's locks are its releases plus one while it is held |
| Build.AllReleased | src/compile.c:846-855 | a trace ending with nothing held releases each handle as often as it locks it |
| Build.LocalLockUnderCpu | src/compile.c:617-636 | the local preprocessing lock is only taken while the host lock is held |
| Build.ServerSideArgv | src/compile.c:688-702 | the old argv, with "-MT" and the .d target (or the output name) appended exactly when a .d file is wanted without a target |
| Build.Verdict | src/compile.c:827-844 | after the local rerun, a result different from the remote failure is investigated and an equal one marks the host enjoyed |
| Build.Prepare | src/compile.c:634-703 | a lock_local_cpp failure falls back with its code and nothing traced; otherwise the local lock is taken and given back exactly when preprocessing stays on the server; a counter-limit demotion or an include-server failure moves preprocessing to the client with the protocol recomputed, and an include-server failure while testing exits; include scanning ends the attempt with the approximation's result; on the server the remote compile is reached iff the argv copy succeeds, on the client iff cpp and argument stripping succeed, each failure falling back with its code (1 for cpp) |
| Build.RunRemote | src/compile.c:704-779 | one remote compile, the local lock released whatever it returns; an error falls back with its code holding the host lock; otherwise the host is enjoyed and released and the status is classified: 0 or a failure with retries off ends iff the server's messages could be shown, a failure below 128 retries locally with remote_ret set, 128 and above falls back |
| Build.RemoteEvents | src/compile.c:704-727 | the remote compile, the local lock released, and when the compile ran the host enjoyed and its lock released |
| Build.Classify | src/compile.c:704-779 | the classification of the remote answer and the status, as in RemoteOutcome |
| Build.TryRemote | src/compile.c:634-779 | preparation and then at most one remote compile; without one nothing is counted and the host lock is held; with one, both locks are settled by it and its outcome is RemoteOutcome; it is reached on a client-preprocessing host once cpp and stripping succeed and on a server-preprocessing host once the argv copy succeeds |
| Build.FallBack | src/compile.c:782-806 | the host is disliked exactly when one was chosen, both locks released, then local compilation or, with fallbacks disabled, the end |
| Build.RunLocally | src/compile.c:823-844 | one local compile whose result is returned, followed by an investigation when a remote failure differs from it and a forgiven host when it matches |
| Build.Start | src/compile.c:563-629 | expansion or counter-name failure ends at once; a safeguard level compiles locally without locks; a scan failure goes to lock_local with its code; a tmpnam or host-choice failure falls back with its code and no host; a local host compiles under its lock; the remote attempt comes next exactly when every step succeeded and the chosen host is remote, with its lock held |
| Build.LockLocalSlot | src/compile.c:820-821 | a local slot is locked exactly when the lock succeeds |
| Build.Release | src/compile.c:846-855 | whatever is held is released once, the host lock first |
| Build.LocalTail | src/compile.c:823-855 | run_local then unlock_and_clean_up: one local compile, its verdict, the releases |
| Build.LockedLocalTail | src/compile.c:820-855 | lock_local then the local tail: the events of LocalRun |
| Build.Finish | src/compile.c:782-867 | each label's path to the end with nothing held: a fallback dislikes the host, releases, and with fallbacks enabled locks a local slot, compiles locally and weighs the result against remote_ret, returning the local result (ret otherwise); the counts of local compiles, investigations, enjoyed and disliked hosts per label |
| Build.BuildSomewhere | src/compile.c:544-868 | every return leaves both handles released; exits carry EXIT_BAD_ARGUMENTS or the include server's code; the traces and results of the safeguard, scan-failure, tmpnam/host-choice failure, local-host, lock_local_cpp failure and include-scanning paths; at most one remote compile, reached on a remote host once preparation succeeds, and its answer's outcome as in WeighedAnswer; no investigation or enjoyed host without one |
| Build.RemotePath | src/compile.c:634-868 | after the remote host is locked: the lock_local_cpp-failure and include-scanning traces, at most one remote compile and the outcome of its answer |
| Build.Unanswered | src/compile.c:782-868 | the end of a remote attempt that stopped before dcc_compile_remote: the fallback or release traces, no investigation and no enjoyed host |
| Build.Answered | src/compile.c:729-868 | after the remote compile: a connection failure falls back and dislikes the host; a shown success returns the server's status without a local compile; a message-copy failure, a failure with retries on and a status of 128 or more fall back, with the retry weighed against the local result |

## Left out

- I/O is not performed; it becomes parameters. This covers getenv, stat,
  fopen/fputc, lock files, gettimeofday, putenv, access, and the
  state-file write. Each model method takes the outcome of the call as an
  argument.
- `src/hosts.c`, `src/lock.c`, `src/util.c`, `src/timefile.c`,
  `exitcode.h`, the include-server interface, the remote and local
  compilers, `dcc_cpp_maybe`, `dcc_strip_local_args` and
  `dcc_get_dotd_info` are not part of this model. Their answers are
  fields of `Build.Collaborators` or oracle functions.
  `dcc_get_protover_from_features` is the uninterpreted `ProtoverOf`.
- `src/distcc.c` and `src/traceenv.c` are not part of this model. They
  hold the entry point, signal and logging set-up, and the one-line
  recursion check of the entry point.
- Memory allocation failures (malloc, strdup, asprintf) are not
  modelled. Neither is freeing.
- Logging and tracing are not modelled.
- Where.RetryPasses: the endless `while (1)` of `dcc_lock_one` runs over
  a finite sequence of lock oracles, one per pass. AllBusy then means that
  sequence ran out while still waiting. The usleep itself is not
  performed; only its argument is computed.
- Where.PickHostFromListAndLockIt: the host list that `dcc_get_hostlist`
  produces (or its failure) is an input.
- Backoff.BackoffState: times are integer seconds rather than `time_t`
  and `difftime`.
- Common.Atoi: ignores overflow of the C `int`, because atoi's result on
  overflow is undefined in C.
- Safeguard.LevelOf: a value whose atoi is negative gives a negative
  level, as the code does. Only values that read as 0 become 1.
- Compile.FreshDependencyExists: fnmatch against DISTCC_EXCLUDE_FRESH_FILES
  is an abstract predicate.
  - The check that the .d file's size fits the buffer is not modelled.
  - The "not enough room" branch cannot be taken once the buffer is as
    large as the file.
- Compile.Discrepancies.NoteDiscrepancy: the ftell comparison that decides
  which process sends email concerns other processes appending to the same
  file. It is not modelled, and neither is the email.
- Build.BuildSomewhere: ret is stored as the comparison at
  `src/compile.c:681`, so it is 1 rather than the error code. It is
  modelled as written: Build.Prepare states that a cpp failure falls back
  with 1. The stderr file
  copy that does not change the result is also not modelled, and neither
  is the call to `dcc_build_somewhere_timed`.
- Build.BuildSomewhere: an exit is a value ending the run with its code.
  Locks held at that point are released by the operating system, which is
  not modelled.
- Args.SetInput: only the editing of the argument is modelled.
- Args.ScanArgs: the source reads past the argv terminator after a
  trailing bare -o, -MF, -MT or -MQ. This becomes the explicit outcome
  `ReadsPastEnd` rather than invented behaviour.
- Args.ScanArgs: the `dcc_note_compiled` log line is not modelled.
