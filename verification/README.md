# Remote feature control: a Dafny model

The daemon `rfcMgr` asks an Xconf server which features a device should run, applies the answer to the device's
parameter database, and remembers what it applied. This project models its most intricate parts and proves what they
promise:

- **The request protocol** (`XconfProtocol`, `XconfHandler`): the retry loop over Init, Local, Redo,
  Redo_With_Valid_Data and Finish for the default STB build. `XconfProtocol` gives one run as functions on the handler's
  fields; `XconfHandler` is the object itself, its loops proved against those functions. The server, the clock, the
  allocator and the database's own reactions are parameters, arbitrary per request. `XconfRun`, `XconfApply`,
  `XconfAccount`, `XconfClear`, `XconfSends`, `XconfReboot`, `XconfHeader`, `XconfCache`, `XconfCacheHit`, `XconfLog` and `RfcManager` hold the theorems over
  whole runs and sequences of runs, `XconfDatabase` what they share.
- **The published feature files** (`FeatureFiles`, `FeatureRuns`, `FeatureCache`) and the API that reads them back.
- **The local TR-181 store** (`IniFile`, `LocalStore`, `StoreConcurrency`): a text file holding a printed dictionary,
  rewritten as a whole under a named semaphore by any number of clients.
- **The command wrapper** (`ShellSyntax`, `ShellSemantics`, `ShellExec`, `ShellParser`, `ShellLaws`): a recursive parser and a
  skip-counter loop over descriptors, against the shell grammar and its structured semantics, and what short lists do in plain words.
- **The gateway build's settings** (`RdkbSettings`, `RdkbRun`, `RdkbReplay`), **the query URL** (`QueryUrl`), **the cron entry** (`Cron`, `CronLists`,
  `Crontab`),
  **the download buffer** (`DownloadBuffer`), and the text and number helpers (`RfcText`, `Decimal`,
  `Wrappers`).

`dafny verify dfyconfig.toml` checks everything.

## Findings

Where a promise does not hold of the code as it stands, the code is modelled as it is, with an input that shows the failure
and the exact condition under which the promise holds.

- A cached hash that is stored with enclosing quotes is read back without them. Distinct hashes are therefore not enough
  for cache coherence: `XconfCache.SeparationIsNeeded` builds two honest runs that go wrong, and `XconfCache.CoherenceExactly`
  says for which hashes none can. Nor is a quoted hash ever recognised by the server (`XconfCacheHit.CacheHits`).
- A reply that itself names a ClearDB parameter clears the database a second time, without the stash around it. The account
  ID comes through exactly when the reply brings a usable one or the resets give the old one back (`XconfAccount.AccountExactly`), and
  any other value, where a clear wipes, exactly when no such parameter comes behind it in the order of the map
  (`XconfApply.ConfigApplied`).
- A run that discards a 200, or is answered 404, and then receives a 304 succeeds and leaves no feature enabled:
  `FeatureRuns.FeaturesVanish` is such a run, `FeatureRuns.EnabledAfterUnchanged` the condition.
- After a 404 the log says that no retry is needed; the loop retries exactly as after any other failure
  (`XconfLog.FailureIsRetried`).
- The gateway build switches CodebigSupport and ContainerSupport off before it looks at a reply, so a reply that sets one of them
  to anything but `false` with immediate effect asks for a reboot every time (`RdkbReplay.SupportFlagReboots`). A text such as `1` for a
  boolean is never read back as itself and does so too. `RdkbReplay.ReplayExactly` says which configurations do.
- The gateway build applies a reply twice: setting by setting, and then the whole map of it, with the features the first pass passes
  over as incomplete. Where the two disagree every replay asks for a reboot (`RdkbReplay.RepeatedIsNoisy`, exactly by
  `RdkbReplay.ReplayExactly`).
- That second pass knows neither the fail-over skip nor the redirection of the WAN mode: `RdkbReplay.SkipIsDefeated`, exactly by
  `RdkbReplay.SkipHoldsExactly`.
- Nor does it catch the exception of a text that is no number. The program ends, before it schedules a reboot or stores the hash,
  and again on every run (`RdkbReplay.BadNumberCrashes`, exactly by `RdkbRun.CrashExactly` and `RdkbReplay.CrashesEveryTime`).
- The store's reader takes the first line of a key and its loader the last, so in a file with a key twice this key drifts on the
  next update of any other (`LocalStore.DuplicateKeysDrift`), exactly if the two lines give different answers
  (`LocalStore.SetThenGet`, `LocalStore.ClearThenGet`). Files the store wrote itself have no key twice.
- A feature whose name begins with ENABLE can be taken for another one (`FeatureFiles.EnableMisleads`); `FeatureFiles.FlagOfFirst`
  says when the API still answers with the right flag.
- A schedule of every minute of one hour is not shifted by three minutes but by an hour (`Cron.ShiftExactly`), and with fixed days a
  shift over midnight lands on the wrong day (`Cron.ShiftAcrossDays`). A list, range or step is cut to its leading number, or
  resets the schedule to defaults (`CronLists.TwoMinutesAreNoShift`, exactly by `CronLists.ShiftsAsTaken` and `CronLists.DaysAsTaken`).
- An entry written behind a crontab that ends without a newline is glued to its last line (`Crontab.RewriteKeepsExactly`), and the
  next rewrite deletes that line with the job on it (`Crontab.LastEntryWins`, `Crontab.DanglingJobIsLost`).

## Model

| member | source | states |
|---|---|---|
| ShellSyntax.FlattenStructure | rfcMgr/gtest/mocks/secure_wrapper.c:72-86 | Every task list, nested to any depth and broken off or not, is the flattening of exactly the grammar tree read out of it: the flat list loses no structure. |
| ShellSyntax.StructureFlatten | rfcMgr/gtest/mocks/secure_wrapper.c:72-86 | Every script of the shell grammar is recovered from its flat task list, so task lists and scripts correspond one to one. |
| ShellSemantics.TaskRunsStage | rfcMgr/gtest/mocks/secure_wrapper.c:619-707 | Running one task, a program or a whole subshell, has the status, the history and the descriptors of the structured pipeline stage. |
| ShellSemantics.LoopRunsPipeline | rfcMgr/gtest/mocks/secure_wrapper.c:709-788 | Reached with skip 0, the loop runs a whole pipeline as the structured semantics does, each stage reading the pipe of the one before, and leaves a pipe open only if the list breaks off there. |
| ShellSemantics.LoopSkipsPipeline | rfcMgr/gtest/mocks/secure_wrapper.c:765-783 | Reached with skip 1, the loop runs no stage of a pipeline, however long, and its last token decides again with the status unchanged. |
| ShellSemantics.LoopRunsAndOr | rfcMgr/gtest/mocks/secure_wrapper.c:765-783 | The skip counter gives && and \|\| equal precedence and left association over pipelines. |
| ShellSemantics.LoopRefinesShell | rfcMgr/gtest/mocks/secure_wrapper.c:709-788 | For every nested task list and every oracle of forks and exit statuses, the flat loop starts the same programs with the same descriptors in the same order and returns the same status as the structured semantics of sections 2.9.2 and 2.9.3 of the POSIX.1-2017 Shell Command Language. |
| ShellSemantics.LoopHeadHolds | rfcMgr/gtest/mocks/secure_wrapper.c:709-788 | At every loop head skip is 0 or 1, and while it is 1 no pipe waits. |
| ShellSemantics.FeedAtLoopHead | rfcMgr/gtest/mocks/secure_wrapper.c:712-749 | At a loop head pipefd is set exactly when the previous task was executed, not skipped, and ended in a pipe token. |
| ShellLaws.OneProgram | rfcMgr/gtest/mocks/secure_wrapper.c:683-699 | One program ended by ;, && or \|\| starts with the caller's descriptors and gives the status it exits with; ended by & it starts and gives 0. |
| ShellLaws.OnePiped | rfcMgr/gtest/mocks/secure_wrapper.c:683-749 | Ended by a pipe token it starts with a new pipe on 1 and gives 0. |
| ShellLaws.ForkFails | rfcMgr/gtest/mocks/secure_wrapper.c:619-640 | A program whose fork fails is not started, and the status is -1. |
| ShellLaws.AndList | rfcMgr/gtest/mocks/secure_wrapper.c:765-783 | In a && b the program b is started exactly if a exits with 0, and then gives the status; otherwise a does. |
| ShellLaws.OrList | rfcMgr/gtest/mocks/secure_wrapper.c:765-783 | In a \|\| b the program b is started exactly if a does not exit with 0. |
| ShellLaws.PlainList | rfcMgr/gtest/mocks/secure_wrapper.c:709-788 | In a ; b and a & b both start, in this order, and b gives the status, whatever becomes of a. |
| ShellLaws.PipeList | rfcMgr/gtest/mocks/secure_wrapper.c:712-763 | In a \| b both start, a writing to a new pipe on 1 and b reading it on 0, and b gives the status. |
| ShellLaws.SubshellList | rfcMgr/gtest/mocks/secure_wrapper.c:619-707 | A subshell runs its list in a child of its own, is waited for whatever its token, and its status counts modulo 256. |
| ShellLaws.EmptyList | rfcMgr/gtest/mocks/secure_wrapper.c:709-788 | An empty list does nothing and gives -1. |
| ShellExec.ChildSees | rfcMgr/gtest/mocks/secure_wrapper.c:717-751 | After the dup, close and dup2 calls and the closing of the three listed descriptors, a child holds exactly its input on 0, its pipe on 1 and the caller's other descriptors. |
| ShellExec.ParentKeeps | rfcMgr/gtest/mocks/secure_wrapper.c:753-763 | The two restores give the caller its table back, plus only the read end of a new pipe. |
| ShellExec.Process.Redirect | rfcMgr/gtest/mocks/secure_wrapper.c:721-749 | A descriptor is moved onto a standard one whose old meaning is kept under a number that was free. |
| ShellExec.Process.Restore | rfcMgr/gtest/mocks/secure_wrapper.c:753-763 | A saved descriptor is put back and its number freed; -1 does nothing. |
| ShellExec.Process.ExecuteTask | rfcMgr/gtest/mocks/secure_wrapper.c:619-707 | In the child the close list is closed first; the status and history are those of the specified task, with a failed fork giving -1. |
| ShellExec.Process.Wire | rfcMgr/gtest/mocks/secure_wrapper.c:717-763 | One executed round of the loop: the task runs as specified, and the descriptor table is the one before except for the read end of a pipe if the token is one. |
| ShellExec.Process.ExecuteTaskList | rfcMgr/gtest/mocks/secure_wrapper.c:709-788 | The imperative loop has the status and history of the structured run, and gives the descriptor table back untouched for every list that does not end in a pipe token; otherwise at most one read end more. |
| ShellExec.Process.SecureSystem | rfcMgr/gtest/mocks/secure_wrapper.c:806-848 | Text to effect: a text that does not parse runs nothing and yields -1; any other runs as the group of its script, and the caller's descriptors never change. |
| ShellParser.Switch | rfcMgr/gtest/mocks/secure_wrapper.c:289-513 | The switch classifies the next characters as specified, including the two-character operators, the end of the list and the errors. |
| ShellParser.ReadSubshell | rfcMgr/gtest/mocks/secure_wrapper.c:297-314 | The recursive call and its consumed bytes continue the outer parse behind the closing parenthesis, or fail with it. |
| ShellParser.CommandParser | rfcMgr/gtest/mocks/secure_wrapper.c:248-615 | The loop over the input computes the parse function and reports the bytes consumed, -1 on failure; with its limits on length, arguments and commands. |
| ShellParser.ParsePrinted | rfcMgr/gtest/mocks/secure_wrapper.c:273-600 | A printed list is read on top of any finished tasks up to a closing parenthesis or the end, and nothing behind that is touched. |
| ShellParser.ParseUndoesPrint | rfcMgr/gtest/mocks/secure_wrapper.c:248-615 | Printing any nested tree of non-empty commands within the limits and parsing it gives the same tree and consumes the whole text. |
| ShellParser.ScriptThroughText | rfcMgr/gtest/mocks/secure_wrapper.c:248-615 | Any script of the grammar within the limits can be written down and read back as itself. |
| ShellParser.ParseFits | rfcMgr/gtest/mocks/secure_wrapper.c:251-288 | Whatever text is parsed, no list of the resulting tree overflows the array allocated for it. |
| ShellLaws.AndText | rfcMgr/gtest/mocks/secure_wrapper.c:248-615 | The text of a && b, single words, is read as two tasks with the tokens && and ;. |
| ShellParser.TabIsBlank | rfcMgr/gtest/mocks/secure_wrapper.c:289-513 | A tab separates words as a blank does. |
| ShellParser.TwoOperators | rfcMgr/gtest/mocks/secure_wrapper.c:289-513 | Behind an operator with no command in front of it a semicolon may follow, and replaces it; any other operator fails. |
| ShellParser.LeadingOperators | rfcMgr/gtest/mocks/secure_wrapper.c:289-513 | So a list may begin with semicolons, but not with a semicolon and another operator. |
| ShellParser.LongWordFails | rfcMgr/gtest/mocks/secure_wrapper.c:278-281 | A word of more than 1024 characters fails. |
| ShellParser.TooManyFail | rfcMgr/gtest/mocks/secure_wrapper.c:283-288 | So does anything behind 512 arguments or behind 32 commands. |
| ShellParser.ManyWordsFail | rfcMgr/gtest/mocks/secure_wrapper.c:283-286 | 512 words and a blank fail. |
| ShellParser.MisplacedFail | rfcMgr/gtest/mocks/secure_wrapper.c:297-314 | A parenthesis behind a word fails, and so does a word behind a subshell. |
| RfcText.RemoveSubstring | rfcMgr/rfc_common.cpp:290-298 | For a non-empty pattern the loop ends within length(s)/length(p) erasures, each taking exactly the pattern's length, and leaves no occurrence, not even one formed by an erasure. |
| RfcText.StripRemovesAll | rfcMgr/rfc_common.cpp:290-298 | The stripped text does not contain the pattern. |
| RfcText.StripIdempotent | rfcMgr/rfc_common.cpp:290-298 | Stripping twice is stripping once. |
| RfcText.CaseCompareExactly | rfcMgr/rfc_common.cpp:283-288 | Two texts compare equal exactly if they are as long and differ only by letters 32 apart. |
| RfcText.SpecialExactly | rfcMgr/rfc_common.cpp:272-281 | A text has special characters exactly if one of them is neither an ASCII letter nor a decimal digit. |
| XconfDatabase.UnquoteExactly | rfcMgr/rfc_common.cpp:188-216 | A value between two quotes is read without them, once; any other value is read as it is. |
| IniFile.EntriesOfPrint | tr181api/tr181api.cpp:250-260 | Reading printed lines gives the entries back, in order, if keys are free of '=' and newline and values of newline. |
| IniFile.FillOfPrint | tr181api/tr181api.cpp:250-300 | A dictionary survives print-then-parse in every iteration order exactly when all its entries are of that kind. |
| LocalStore.GetValue | tr181api/tr181api.cpp:177-214 | The search loop answers with the first line of the key: its value cut to 2047 characters, an empty-value code, or a failure. |
| LocalStore.LoadLines | tr181api/tr181api.cpp:250-260 | The load loop builds the dictionary in which the last line of a key wins. |
| LocalStore.ClearKeys | tr181api/tr181api.cpp:263-284 | In any order of iteration exactly the key equal to the name is erased, and, if the name ends in '.', every key containing it; found tells whether there was one. |
| LocalStore.PrintDict | tr181api/tr181api.cpp:297-300 | The print loop writes every entry of the dictionary once, in some order. |
| LocalStore.Store.SetValue | tr181api/tr181api.cpp:229-315 | A set or clear leaves the file alone (nothing to clear, or the file cannot be opened) or replaces it by the printed updated dictionary in some order, with the matching code. |
| LocalStore.ReadRefines | tr181api/tr181api.cpp:177-214 | On a file with no key twice every key reads as the dictionary has it: its first line and its last agree. |
| LocalStore.UpdateRefines | tr181api/tr181api.cpp:229-315 | On any file a successful update is an update of the dictionary exactly when its own entry is printable (a clear always is); a failed one, or a clear that selects nothing, changes nothing; a rewritten file has no key twice. |
| LocalStore.ReadAfterRewrite | tr181api/tr181api.cpp:229-315 | After any rewrite every key reads from the updated dictionary, whatever the file before it held. |
| LocalStore.SetThenGet | tr181api/tr181api.cpp:177-315 | On any file: a set value of fewer than 2048 characters is read back whole, a longer one as its first 2047, an empty one with the empty-value code, and another key reads as before exactly when its first and last line gave the same answer before. |
| LocalStore.ClearThenGet | tr181api/tr181api.cpp:263-284 | On any file: the selected keys read as missing, and another key reads as before exactly when nothing was selected, which leaves the file untouched, or its first and last line gave the same answer before. |
| LocalStore.ClearsExactly | tr181api/tr181api.cpp:263-284 | A clear selects the key itself and, for a name that ends in '.', exactly the keys that are the name with any text in front and behind. |
| LocalStore.ReadExactly | tr181api/tr181api.cpp:177-214 | A file answers with its first line of the key: cut to 2047 characters, with the empty-value code, or with a failure. |
| LocalStore.FallbackExactly | tr181api/tr181api.cpp:317-342 | Without a non-empty local value the answer is that of the caller's own file under /etc/rfcdefaults, or a failure if it does not name itself. |
| LocalStore.DuplicateKeysDrift | tr181api/tr181api.cpp:188-258 | In every file that holds a key twice and nothing else, setting any other key switches what this one reads from the first line to the last. |
| StoreConcurrency.StepKeeps | tr181api/tr181api.cpp:229-392 | Every step of every client (wait, load, truncate, each written line, close, search, post) keeps the invariant: one holder, a history of completed operations, and what the holder knows of the file it found. |
| StoreConcurrency.MutualExclusion | tr181api/tr181api.cpp:317-392 | In every state of every interleaving at most one client is between sem_wait and sem_post, and operations complete in the order they acquired. |
| StoreConcurrency.Linearizable | tr181api/tr181api.cpp:229-392 | The completed operations, each as if run alone, lead from the initial file to the present one in acquisition order. |
| StoreConcurrency.NothingLost | tr181api/tr181api.cpp:229-392 | No update is lost, whatever file the run began with: whenever the semaphore is free the file holds the initial dictionary with every completed update applied in acquisition order. |
| StoreConcurrency.GetsAnswer | tr181api/tr181api.cpp:317-342 | Every get behind the first completed rewrite answers from the dictionary at its acquisition, with its fallback; one before it answers from the initial file, and so from the dictionary too wherever the two agree. |
| StoreConcurrency.HolderFinishes | tr181api/tr181api.cpp:229-392 | No deadlock: every run in which a client is between sem_wait and sem_post can be continued, by that client alone and without a failure to open the file, until it has posted, all acquired operations then completed in order. |
| StoreConcurrency.WaiterEnters | tr181api/tr181api.cpp:317-392 | Whenever the semaphore is free any waiting client can acquire it. |
| XconfHandler.Handler.CreateConfigDataValueMap | rfcMgr/rfc_xconf_handler.cpp:2620-2668 | The feature and child loops add to the map exactly the stripped entries in front of the first feature without configData, a later entry of a key winning. |
| XconfHandler.Handler.PreProcessJsonResponse | rfcMgr/rfc_xconf_handler.cpp:2172-2216 | The fields after a looked-at reply are those the protocol function gives: identities on the first reply, endpoint in state Init, map emptied. |
| XconfHandler.Handler.GetValidAccountId | rfcMgr/rfc_xconf_handler.cpp:2218-2267 | The account fields and the state after the check of a reply's account ID, with every rejecting branch. |
| XconfHandler.Handler.GetValidPartnerId | rfcMgr/rfc_xconf_handler.cpp:2269-2321 | The same for the partner ID. |
| XconfHandler.Handler.GetXconfSelect | rfcMgr/rfc_xconf_handler.cpp:2323-2364 | Endpoint, slot and state after the selector of a reply. |
| XconfHandler.Handler.GetStoredHash | rfcMgr/rfc_xconf_handler.cpp:1864-1985 | Which hash is sent, and when it is remembered in bkup_hash: also when an unknown identity then overrides it. |
| XconfHandler.Handler.ClearDB | rfcMgr/rfc_xconf_handler.cpp:1340-1432 | The database after a clear with the account ID stashed before and put back after it. |
| XconfHandler.Handler.IsConfigValueChange | rfcMgr/rfc_xconf_handler.cpp:2670-2734 | Whether a value is to be written, the value to write, and the current value, which a failed read leaves at the previous key's. |
| XconfHandler.Handler.ApplyMapEntries | rfcMgr/rfc_xconf_handler.cpp:2503-2594 | The loop over the map, in the map's order, computes the database, the reboot flag and the carried-over current value of the fold over its keys. |
| XconfHandler.Handler.ProcessReply | rfcMgr/rfc_xconf_handler.cpp:1652-1691 | A processed reply is applied and its hash stored, or, if it holds no features, the stored hash becomes CLEARED; then the endpoint is stored. |
| XconfHandler.Handler.ProcessRuntimeFeatureControlReq | rfcMgr/rfc_xconf_handler.cpp:1593-1723 | The retry loop leaves exactly the fields, log and result of the functional run, for every server, override, allocator and starting state. |
| XconfRun.PreProcessFacts | rfcMgr/rfc_xconf_handler.cpp:2172-2364 | What a looked-at reply can change: identities only on the first reply with features and only to a non-empty, alphanumeric, known value of that reply; the endpoint not under a local override; the map never. |
| XconfRun.RepetitionsAtMostOnce | rfcMgr/rfc_xconf_handler.cpp:1593-1723 | In every run, whatever is answered, Redo and Redo_With_Valid_Data are each entered at most once. |
| XconfRun.BudgetSuffices | rfcMgr/rfc_xconf_handler.cpp:1593-1723 | An unblocked run whose downloads all return 200 and whose allocations succeed, whatever the bodies, processes a reply by the third attempt. |
| XconfRun.ThreeAttempts | rfcMgr/rfc_xconf_handler.cpp:1593-1723 | Every run whose first reply brings a good account ID and whose second selects the ci slot needs all three attempts. |
| XconfRun.BudgetIsTight | rfcMgr/rfc_xconf_handler.cpp:1593-1723 | Such a run exists, so a smaller budget would not do. |
| XconfLog.RunLogs | rfcMgr/rfc_xconf_handler.cpp:1593-1723 | What a run records is one answer for every request made, the server's to that request. |
| XconfLog.FailureIsRetried | rfcMgr/rfc_xconf_handler.cpp:1644-1717 | In every run an answer that is neither a 304 nor a 200, such as a 404, is followed by another request exactly if attempts are left and memory can be had for it. |
| XconfRun.IdentitySafe | rfcMgr/rfc_xconf_handler.cpp:2172-2321 | In every run each request carries the starting account and partner ID or a non-empty, purely alphanumeric, not-Unknown one out of an earlier reply of that run, each changing at most once. |
| XconfSends.DigestTakes | rfcMgr/rfc_xconf_handler.cpp:2172-2321 | The first looked-at reply with features settles both identities, to its own where they are usable; no other reply touches them. |
| XconfSends.IdsAreNoted | rfcMgr/rfc_xconf_handler.cpp:2218-2321 | What is noted of those identities besides: the ID itself, or the device's own where both are unknown, and nothing if it has special characters. |
| XconfSends.RequestsAreLawful | rfcMgr/rfc_xconf_handler.cpp:1593-1723 | In every run each request carries exactly the identities in force, those of the first reply with features if usable, else the starting ones, and the hash that follows: OVERRIDE_HASH with an unknown identity, else UPGRADE_HASH on changed firmware, else the stored one from the prod slot, and elsewhere OVERRIDE_HASH as long as the run is in state Init. |
| XconfSends.UpgradeIsSaid | rfcMgr/rfc_xconf_handler.cpp:1864-1903 | On changed firmware every request carries UPGRADE_HASH, or OVERRIDE_HASH where an identity it carries is Unknown. |
| XconfSends.UpgradeIsConfigured | rfcMgr/rfc_xconf_handler.cpp:1864-1903 | So with an honest server no such run ends in a 304. |
| XconfSends.NewIdsAreCarried | rfcMgr/rfc_xconf_handler.cpp:2218-2321 | Once the first reply with features brings an account ID that is not empty, alphanumeric and no casing of Unknown, every later request carries exactly that one, otherwise the starting one; the same for the partner. |
| XconfSends.AskedAgainExactly | rfcMgr/rfc_xconf_handler.cpp:2218-2321 | That reply is asked for again exactly without whoami support and if it brings a usable ID, or an unknown one while the device's own is unknown; a missing account counts as unknown, a missing partner does not. |
| XconfSends.SelectedExactly | rfcMgr/rfc_xconf_handler.cpp:2323-2364 | State, URL and slot number after the selector of a reply, by the words ci and automation and the local override. |
| XconfSends.RedirectIsFollowed | rfcMgr/rfc_xconf_handler.cpp:1593-1723 | A run sent to another slot by its first reply sends its second request to the URL of that reply, or to the old one if it names none. |
| XconfSends.BlockedSendsNothing | rfcMgr/rfc_xconf_handler.cpp:1553-1605 | A blocked run sends nothing and fails; any other with memory sends something. |
| XconfRun.OverrideHolds | rfcMgr/rfc_xconf_handler.cpp:1599-1624 | Under a local override that lasts, no reply changes the URL of any request of the run. |
| XconfRun.BootstrapHolds | rfcMgr/rfc_xconf_handler.cpp:1608-1624 | With a bootstrap URL configured, every request made without an override goes to it, whatever replies said. |
| XconfRun.AppliedMapIsExact | rfcMgr/rfc_xconf_handler.cpp:2185-2208 | The map applied in an accepting run is that of the accepted reply alone, whatever replies were discarded before. |
| XconfRun.ConfigMapIsLastWriter | rfcMgr/rfc_xconf_handler.cpp:2620-2668 | An entry that no later one of its key follows is in the map with its value. |
| XconfRun.ConfigMapHasNoOther | rfcMgr/rfc_xconf_handler.cpp:2620-2668 | Every key of the map comes from such an entry and contains no tr181. anywhere. |
| XconfApply.AppliedThroughKeys | rfcMgr/rfc_xconf_handler.cpp:2503-2594 | Through the loop over any keys, in any order and however often, an applicable key ends with its value unless an entry behind it clears again; any other key, named or not, is left alone if none does. |
| XconfApply.WrittenExactly | rfcMgr/rfc_xconf_handler.cpp:2509-2540 | One entry: written if it is known, not empty, accepted, no unknown account ID and no URL that does not answer, unless it reads the same already and is neither in the RFC namespace nor in the bootstrap file; otherwise nothing changes. |
| XconfApply.WipedThroughKeys | rfcMgr/rfc_xconf_handler.cpp:2503-2594 | Where a clear wipes the values, every key with a clearing entry behind it, and every key not named by a map with one, ends up empty. |
| XconfApply.ConfigApplied | rfcMgr/rfc_xconf_handler.cpp:2479-2602 | Applying any map: a known key with a non-empty accepted value, guarded ones apart, holds that value unless an entry behind it in map order clears the database again, and exactly unless where a clear wipes the values; a parameter the map does not name is as the clear left it, unless such an entry wipes it. |
| XconfApply.ConfigAfterReply | rfcMgr/rfc_xconf_handler.cpp:2366-2441 | The same over the whole processing of a reply, with its hash, time and endpoint stored behind it. |
| XconfApply.LoopAccepts | rfcMgr/rfc_xconf_handler.cpp:1593-1723 | An accepting run processes its reply on the database it started with: nothing a discarded reply said has reached it. |
| XconfApply.ConfigAfterRun | rfcMgr/rfc_xconf_handler.cpp:1593-1723 | After every run that accepts a reply with a non-empty map the same holds of that reply, whatever the replies before it said, and the account put back is the stored one wherever there is one. |
| XconfClear.ClearResets | rfcMgr/rfc_xconf_handler.cpp:1340-1432 | A clear resets every parameter once for each of the two triggers that the database knows and accepts, so twice with both, and then puts the account back if it is neither empty nor Unknown. |
| XconfClear.UnnamedIsReset | rfcMgr/rfc_xconf_handler.cpp:1340-1432 | After every accepting run with a non-empty map a parameter the map does not name is what the triggers reset it to if nothing clears again, and empty where a clear wipes; the parameters the run writes on its own account apart. |
| XconfClear.AccountInForce | rfcMgr/rfc_xconf_handler.cpp:878-912 | The account after a processed map is the stored one, Unknown if that is empty or the firmware changed, and the one before if none can be read. |
| XconfClear.UpgradeDropsAccount | rfcMgr/rfc_xconf_handler.cpp:878-912 | After an accepting run on changed firmware a stored account that the map does not name is not put back. |
| XconfClear.EndIsSet | rfcMgr/rfc_xconf_handler.cpp:1434-1450 | The three parameters that end a clear are set, whatever the map holds. |
| XconfClear.EndIsSetAfterReply | rfcMgr/rfc_xconf_handler.cpp:2479-2602 | And so after every processed reply with a non-empty map. |
| XconfClear.LastWrites | rfcMgr/rfc_xconf_handler.cpp:1747-1755 | Every processed reply leaves its time, 0 for a rejected one, and the selector and URL the run ended with, whatever its map wrote to them. |
| XconfClear.VersionIsStored | rfcMgr/rfc_xconf_handler.cpp:2366-2441 | After an accepting run the last processed version is the running firmware. |
| XconfClear.RememberedAgain | rfcMgr/rfc_xconf_handler.cpp:2509-2540 | Only a new bootstrap URL makes an entry look the stored hash up again, on unchanged firmware and in state Init from the prod slot only. |
| XconfClear.RememberedHash | rfcMgr/rfc_xconf_handler.cpp:1905-1985 | The hash an accepting run compares with is empty on changed firmware, and in the prod slot the one stored when it began, if no new bootstrap URL makes it look again. |
| XconfClear.SameHashNoReboot | rfcMgr/rfc_xconf_handler.cpp:1452-1480 | So a reply with the hash stored before, in any casing, asks for no reboot. |
| XconfAccount.AccountThroughKeys | rfcMgr/rfc_xconf_handler.cpp:2503-2594 | Through the loop over any reply's keys in map order the stored ID becomes the reply's if usable; else it stays, unless a key clears the database again. |
| XconfAccount.SortedTriggersFirst | rfcMgr/rfc_xconf_handler.h:201 | In the byte order of the map every ClearDB parameter comes before the account ID, so a usable ID is written last. |
| XconfAccount.AccountThroughClear | rfcMgr/rfc_xconf_handler.cpp:1340-1432 | Whatever a clear does to the values, applying a map leaves the reply's ID if usable, else the old one, provided a reply without a usable ID does not itself clear the database. |
| XconfAccount.AccountFormula | rfcMgr/rfc_xconf_handler.cpp:2479-2602 | Whatever a clear does to the values: the stored ID is the reply's if usable, else the old one, reset once for every entry of the reply that clears the database. |
| XconfAccount.AccountExactly | rfcMgr/rfc_xconf_handler.cpp:2479-2602 | So the ID comes through exactly when the reply brings a usable one or those resets give the ID back; where a clear wipes the values, exactly when no entry clears. |
| XconfAccount.AccountLost | rfcMgr/rfc_xconf_handler.cpp:2479-2602 | Where a clear wipes the values, a reply with such an entry and no usable ID leaves no ID at all. |
| XconfAccount.AccountAfterReply | rfcMgr/rfc_xconf_handler.cpp:878-912 | The same over the whole processing of a reply: with unchanged firmware and a stored ID neither empty nor Unknown, the stored ID afterwards is the reply's if non-empty and no casing of Unknown, else the old one. |
| XconfAccount.AccountAfterRun | rfcMgr/rfc_xconf_handler.cpp:1593-1723 | And over every run that accepts a reply. |
| XconfReboot.RebootThroughKeys | rfcMgr/rfc_xconf_handler.cpp:2549-2577 | The flag after the loop is set exactly if it was, or if in maintenance mode some key in its turn was known, not at its default, and given a value that is not empty, not the one read, no unknown account ID and no URL that does not answer. |
| XconfReboot.RebootAfterReply | rfcMgr/rfc_xconf_handler.cpp:1452-1480 | The flag after a reply is set exactly if some write changed the value read, in maintenance mode, and the reply's hash is not, ignoring case, the remembered one. |
| XconfReboot.RebootIsEarned | rfcMgr/rfc_manager.cpp:522-579 | Over every run after a successful initialisation COMPLETE is posted exactly if it ended in a 304 or accepted a reply and ERROR exactly otherwise; REBOOT_REQUIRED is posted, behind COMPLETE and CRITICAL_UPDATE, exactly if a reply was accepted in maintenance mode, some write of it changed the value read, and its hash is not the remembered one. |
| RfcManager.ManagerProcess | rfcMgr/rfc_manager.cpp:522-579 | None is posted if initialisation fails; COMPLETE exactly after a 304 or an accepted reply, ERROR exactly after exhausted attempts, a block, failed memory or a rejected reply; the other events are those of the run, and the status says whether it succeeded. |
| XconfHeader.HeaderHashReads | rfcMgr/rfc_xconf_handler.cpp:1505-1541 | In either spelling of the field, with a CRLF, a bare newline or no line end behind it, the hash stored is the value between its blanks. |
| XconfCache.ProcessStoresHash | rfcMgr/rfc_xconf_handler.cpp:1452-1551 | After an accepted reply the stored hash is its header's, after a rejected one CLEARED, whatever else the reply wrote or cleared. |
| XconfCache.CoherentRun | rfcMgr/rfc_xconf_handler.cpp:1593-1723 | Every run keeps the store coherent: a hash no honest server answers with a 304, or that of the last accepted reply. |
| XconfCache.UnchangedIsLastAccepted | rfcMgr/rfc_xconf_handler.cpp:1593-1985 | Over every sequence of runs, firmware changes, identities and honest servers, begun with any hash no honest server answers with a 304, a run that ends in a 304 was told of the very reply last accepted. |
| XconfCache.SeparationIsNeeded | rfcMgr/rfc_common.cpp:188-216 | If one hash without its quotes is another body's hash, two honest runs exist whose 304 speaks of a reply never accepted. |
| XconfCache.CoherenceExactly | rfcMgr/rfc_xconf_handler.cpp:1593-1985 | That holds for a way of hashing exactly when it separates bodies: no hash that a header carries for a body with features is, its quotes dropped, another body's hash, made-up words apart. |
| XconfCache.InjectiveUnquotedSeparates | rfcMgr/rfc_common.cpp:188-216 | Injective hashes without enclosing quotes meet the condition of the coherence theorem. |
| XconfCacheHit.AcceptedLeaves | rfcMgr/rfc_xconf_handler.cpp:1452-1551 | After an accepting run the stored hash is the reply's and the stored selector the run's mode, whatever the reply wrote to them. |
| XconfCacheHit.CacheHits | rfcMgr/rfc_xconf_handler.cpp:1864-1985 | A later run in the same mode, with unchanged firmware and known identities, against a server that answers 304 to that hash alone, ends with one request exactly when the hash has no enclosing quotes. |
| XconfCacheHit.RevisitsHappen | rfcMgr/rfc_xconf_handler.cpp:1593-1723 | Such a pair of runs exists for every reply with features and every hash a header can carry. |
| FeatureFiles.Publisher.PublishFeatures | rfcMgr/rfc_xconf_handler.cpp:2388-2429 | The feature loop appends the lines of each complete feature to the variable file, and to its marker if it has an instance, and passes incomplete ones over. |
| FeatureFiles.GetExported | rfcapi/rfcapi.cpp:113-161 | The API's search loop, which drops everything up to the first blank of a line, finds the first entry of the key among the rewritten lines. |
| FeatureFiles.LayeredRead | rfcapi/rfcapi.cpp:190-229 | A name outside the RFC_ variables is answered by the first non-empty value of the store and the bootstrap file, else by the defaults; one that ends in '.' is refused. |
| FeatureFiles.EnabledExactly | rfcapi/rfcapi.cpp:723-729 | After an accepted reply isRFCEnabled(n) holds exactly for names of complete features with an instance. |
| FeatureFiles.VariablesWritten | rfcMgr/rfc_xconf_handler.cpp:2920-2946 | The variable file holds the two lines of every complete feature, in order, and nothing else. |
| FeatureFiles.ReadExportedEntries | rfcapi/rfcapi.cpp:132-146 | The export-stripping reader undoes the export-writing printer. |
| FeatureFiles.AnswerIsFirstClaim | rfcapi/rfcapi.cpp:211-229 | Before hostif is ready RFC_ENABLE_n answers with the first claim on n among the complete features, by name or by a second line that reads like its first, and fails if there is none, for names of any kind that fit a line. |
| FeatureFiles.NotMistaken | rfcMgr/rfc_xconf_handler.cpp:2920-2946 | Only names that begin with ENABLE have a second line that reads like another feature's first. |
| FeatureFiles.ClaimsAgreeExactly | rfcapi/rfcapi.cpp:132-146 | The first claim is the named feature's flag exactly under that condition, for every feature list. |
| FeatureFiles.FlagOfFirst | rfcapi/rfcapi.cpp:211-229 | That is the flag of the first complete feature named n exactly when no feature misleads: each one mistaken for n, with no claim on n in front of it, happens to carry that flag. |
| FeatureFiles.EnableMisleads | rfcMgr/rfc_xconf_handler.cpp:2920-2946 | A lone feature named ENABLE_x makes the API answer for the name x_effectiveImmediate, which no feature has. |
| FeatureRuns.EnabledAfterRun | rfcMgr/rfc_xconf_handler.cpp:2143-2148 | After every run that ends by accepting a reply, whatever it discarded before, exactly that reply's features are enabled. |
| FeatureRuns.FlagAfterRun | rfcMgr/rfc_xconf_handler.cpp:2388-2429 | And the API answers with the claims of that reply, so with its flags exactly when no feature misleads. |
| FeatureRuns.EnabledAfterUnchanged | rfcMgr/rfc_xconf_handler.cpp:2123-2148 | A run that ends in a 304 keeps the enabled features exactly if the server answered none of its requests with a 200, then discarded, or a 404; otherwise none is left enabled. |
| FeatureRuns.DiscardedThenUnchanged | rfcMgr/rfc_xconf_handler.cpp:1644-1712 | Every run of a device with known identities and unchanged firmware that is first sent to the ci slot and then told there that its stored hash is up to date succeeds and leaves nothing enabled. |
| FeatureRuns.FeaturesVanish | rfcMgr/rfc_xconf_handler.cpp:1644-1712 | There is such a run with an honest server for every way of hashing, from a directory where the feature was enabled. |
| FeatureCache.EnabledOverRuns | rfcMgr/rfc_xconf_handler.cpp:2123-2148 | After any number of runs exactly the features of the last accepted reply are enabled, or those enabled at first, unless a reply since then swept the files. |
| FeatureCache.EnabledAfter304 | rfcMgr/rfc_xconf_handler.cpp:2123-2148 | Over every proper sequence of runs: after a 304 the enabled features are exactly those of the reply it stands for if and only if nothing was swept since that reply was accepted. |
| Decimal.StoiOfToString | rfcMgr/rfc_xconf_handler.cpp:410-469 | std::stoi undoes std::to_string on the whole range of int and fails outside it. |
| Decimal.StoulOfToString | rfcMgr/rfc_xconf_handler.cpp:414-472 | std::stoul undoes std::to_string on the whole range of unsigned long. |
| Decimal.NumbersRead | rfcMgr/rfc_xconf_handler.cpp:402-489 | std::stoi, std::stoll and std::stoul of any text with a number: blanks in front are skipped, a sign is taken, whatever follows the digits is ignored; outside the range of the type they fail, and a minus wraps std::stoul around. |
| Decimal.DigitsExactly | rfcMgr/rfc_xconf_handler.cpp:402-489 | Digits are the ten decimal ones. |
| Decimal.NoDigitsFail | rfcMgr/rfc_xconf_handler.cpp:402-489 | All three fail on a text without digits. |
| Decimal.StollOfToString | rfcMgr/rfc_xconf_handler.cpp:2758-2784 | std::stoll undoes std::to_string on the whole range of long long. |
| RdkbSettings.Processor.ParseConfigValue | rfcMgr/rfc_xconf_handler.cpp:282-578 | One setting on the typed bus: fail-over skip, WAN redirection, unreadable and unsupported parameters, conversion errors, failed sets, the partner ID; bus and reboot flag as specified. |
| RdkbSettings.Processor.ProcessFeatures | rfcMgr/rfc_xconf_handler.cpp:593-748 | The feature and child loops fold the settings of all complete features, in order, over the bus after the support flags were switched off. |
| RdkbSettings.Processor.ApplyEntry | rfcMgr/rfc_xconf_handler.cpp:2509-2540 | One entry of the second pass: whether it is written, told from what the gateway's read makes of the value, the write with the conversion of the parameter's type, and the exception nobody catches. |
| RdkbSettings.Processor.ApplyMap | rfcMgr/rfc_xconf_handler.cpp:2503-2592 | The loop over the whole map, in map order, up to the first crash. |
| RdkbSettings.Processor.ProcessJsonResponseB | rfcMgr/rfc_xconf_handler.cpp:580-781 | A whole run: flags off, settings, then the map once more; a reboot is scheduled only if the second pass does not crash. |
| RdkbSettings.RebootExactly | rfcMgr/rfc_xconf_handler.cpp:454-522 | The reboot flag ends true exactly when some setting, on the bus its predecessors left, made a successful set of a text other than the one read, with immediate effect or for a partner ID that was unknown. |
| RdkbSettings.SettingsExactly | rfcMgr/rfc_xconf_handler.cpp:607-748 | The settings of the first pass are exactly the entries of features with a name and both flags, each with the immediate effect of its own feature. |
| RdkbSettings.LaterAsksNothing | rfcMgr/rfc_xconf_handler.cpp:454-522 | Features without immediate effect that do not name the partner ID never ask for a reboot. |
| RdkbSettings.PrefixGoesOnce | rfcMgr/rfc_xconf_handler.cpp:282-300 | The tr181. prefix is dropped once and only at the front. |
| RdkbSettings.SettingMakes | rfcMgr/rfc_xconf_handler.cpp:402-489 | What an accepted setting makes of each type: the text itself, true for true and 1, the number read, and nothing of the types that are not handled. |
| RdkbSettings.FailOverSkips | rfcMgr/rfc_xconf_handler.cpp:302-323 | With fail-over on, as a boolean or as the text true, a setting of the two UPnP parameters does nothing at all. |
| RdkbSettings.PartnerReboots | rfcMgr/rfc_xconf_handler.cpp:454-522 | A partner ID is worth a reboot without immediate effect exactly if it was unknown or Unknown. |
| RdkbSettings.OthersReboot | rfcMgr/rfc_xconf_handler.cpp:454-522 | Any other changed string asks for a reboot exactly with immediate effect. |
| RdkbSettings.EntryMakes | rfcMgr/rfc_xconf_handler.cpp:2670-2734 | The second pass writes a string unless it reads as the text already and is neither in the namespace nor in the bootstrap file. |
| RdkbSettings.PrintedIsLeft | rfcMgr/rfc_xconf_handler.cpp:2670-2734 | Outside both a boolean or integer whose text is the one printed is not set again. |
| RdkbSettings.OtherIsLeft | rfcMgr/rfc_xconf_handler.cpp:2758-2784 | A parameter of a type that is never handled is left alone by it. |
| RdkbSettings.UnansweredUrl | rfcMgr/rfc_xconf_handler.cpp:2527-2536 | So is the server URL if the new one does not answer. |
| RdkbSettings.RebootMeansChange | rfcMgr/rfc_xconf_handler.cpp:454-522 | With a canonical text such a set really changes the value of the parameter, to the one asked for. |
| RdkbSettings.CanonicalTexts | rfcMgr/rfc_xconf_handler.cpp:402-489 | Canonical are all texts for strings, true and false for booleans, and the printed integers of the type's range for the two 32-bit types, and nothing else for these. |
| RdkbRun.SettingLeaves | rfcMgr/rfc_xconf_handler.cpp:282-578 | Through the first pass a parameter with a setting ends as that setting makes it of the value the run began with, or, where the set is refused, as it was, whatever the other settings do. |
| RdkbRun.MapLeaves | rfcMgr/rfc_xconf_handler.cpp:2503-2592 | Through the second pass a key of the map ends as its entry makes it, or as it was where the set is refused or a crash came first; all others stay. |
| RdkbRun.SettingApplied | rfcMgr/rfc_xconf_handler.cpp:580-781 | After a whole run with every set accepted and no crash a parameter with a setting holds what the map's entry for it, if any, makes of what the setting made. |
| RdkbRun.UnsetLeaves | rfcMgr/rfc_xconf_handler.cpp:2503-2592 | A parameter without a setting, as one named by an incomplete feature only, sees the second pass alone. |
| RdkbRun.CrashExactly | rfcMgr/rfc_xconf_handler.cpp:2758-2784 | A run crashes exactly if the map names a known parameter of a handled type with a text that is no value of that type, a server URL that does not answer apart: told from the bus before the run. |
| RdkbRun.ProcessReboots | rfcMgr/rfc_xconf_handler.cpp:454-522 | With every set accepted a run asks for a reboot exactly if it does not crash and some setting, met with the value its parameter began the run with, is convertible, different and immediate or for an unknown partner. |
| RdkbReplay.RunTwice | rfcMgr/rfc_xconf_handler.cpp:580-781 | For every type, text and map entry a second run leaves a parameter exactly as the first did. |
| RdkbReplay.CanonicalIsCalm | rfcMgr/rfc_xconf_handler.cpp:454-522 | A setting with a canonical text that the map holds too, if it names the parameter, is calm. |
| RdkbReplay.CalmUnlessFloating | rfcMgr/rfc_xconf_handler.cpp:454-522 | For parameters that are not floating, being calm is no more than not being noisy. |
| RdkbReplay.ReplayIsQuiet | rfcMgr/rfc_xconf_handler.cpp:580-781 | Once a configuration of calm settings, with distinct stripped keys and no WAN keys, went through with all sets accepted, processing it again, any number of times and whichever sets then fail, never asks for a reboot. |
| RdkbSettings.ModeRedirected | rfcMgr/rfc_xconf_handler.cpp:340-383 | With WAN unification on the operational mode switches DOCSIS off exactly for Ethernet and Ethernet exactly for DOCSIS, never both, touches nothing else and asks for no reboot. |
| RdkbReplay.SupportFlagReboots | rfcMgr/rfc_xconf_handler.cpp:593-606 | A reply that sets either support flag to anything but false with immediate effect, at any place among any other settings, asks for a reboot on every run that does not crash, from any bus. |
| RdkbReplay.ReplayExactly | rfcMgr/rfc_xconf_handler.cpp:580-781 | With all sets accepted, every replay asks for a reboot exactly if nothing crashes the run and some setting is noisy: a support flag with a text other than false, or a setting that meets, after a whole run with both passes, a value that reads differently, with immediate effect; told from the reply and the bus before the first run. |
| RdkbReplay.CrashesEveryTime | rfcMgr/rfc_xconf_handler.cpp:2758-2784 | A reply that crashes one run crashes every later one, and one that does not never does. |
| RdkbReplay.BadNumberCrashes | rfcMgr/rfc_xconf_handler.cpp:2769-2774 | A text that is no number for a 32-bit integer ends the program on every run. |
| RdkbReplay.SkipHoldsExactly | rfcMgr/rfc_xconf_handler.cpp:2503-2592 | A parameter the first pass skips or redirects stays as it was exactly if the map does not name it with a text that makes another value. |
| RdkbReplay.SkipIsDefeated | rfcMgr/rfc_xconf_handler.cpp:2503-2592 | With fail-over on, a reply that switches UPnP on does switch it on. |
| RdkbReplay.RepeatedIsNoisy | rfcMgr/rfc_xconf_handler.cpp:2620-2668 | A string parameter set at once by a complete feature and to another text by one that is passed over asks for a reboot on every replay. |
| QueryUrl.CreateXconfHTTPUrl | rfcMgr/rfc_xconf_handler.cpp:1761-1862 | The URL built field by field is the specified encoded URL, constants unencoded. |
| QueryUrl.EncodeString | rfcMgr/rfc_xconf_handler.cpp:1725-1745 | A field is put out with its value encoded behind what was put out before; an empty key puts out nothing. |
| QueryUrl.UnreservedExactly | rfcMgr/rfc_xconf_handler.cpp:1725-1733 | A byte is sent as it is exactly if it is a letter, a decimal digit or one of - . _ ~ (section 2.3 of RFC 3986). |
| QueryUrl.HexText | rfcMgr/rfc_xconf_handler.cpp:1725-1733 | The digits of an escaped byte are the upper-case hexadecimal ones (section 2.1 of RFC 3986). |
| QueryUrl.FieldTexts | rfcMgr/rfc_xconf_handler.cpp:1761-1862 | The twelve fields, their names, their order and the three constants among them. |
| QueryUrl.TailPiece | rfcMgr/rfc_xconf_handler.cpp:1761-1862 | The plain query is each field's name and value with an ampersand behind, then version=2. |
| QueryUrl.DecodeEscaped | rfcMgr/rfc_xconf_handler.cpp:1725-1733 | Percent-decoding undoes percent-encoding of every byte text, in front of anything (sections 2.1 and 2.3 of RFC 3986). |
| QueryUrl.DecodedUrlIsPlain | rfcMgr/rfc_xconf_handler.cpp:1761-1862 | For a base URL without '%' decoding the encoded URL yields the plain URL. |
| QueryUrl.EncodedUrlInjective | rfcMgr/rfc_xconf_handler.cpp:1761-1862 | For one base URL equal encoded URLs imply equal values in every identity field, whatever characters they hold. |
| QueryUrl.PlainUrlIsAmbiguous | rfcMgr/rfc_xconf_handler.cpp:1761-1804 | The plain URL has no such property. |
| Cron.ReadParts | rfcMgr/rfc_manager.cpp:609-619 | The reading loop yields the first five words of the schedule, or all of them if there are fewer. |
| Cron.ParseValues | rfcMgr/rfc_manager.cpp:622-633 | In place: the number of each part that is not '*', a default for each '*', and all five defaults if any part is no number. |
| Cron.AdjustSchedule | rfcMgr/rfc_manager.cpp:622-653 | The adjusted schedule text, stars kept. |
| Cron.AdjustedReads | rfcMgr/rfc_manager.cpp:643-653 | The adjusted text splits into the five adjusted parts again. |
| Cron.DefaultsTaken | rfcMgr/rfc_manager.cpp:622-653 | If one part is no number, every part that is no star becomes that of 57 23 1 1 0. |
| Cron.AdjustedFields | rfcMgr/rfc_manager.cpp:635-653 | What the adjusted text means: minute and hour moved back with their carry, days, month and weekday unchanged, everything still in range. |
| Cron.ShiftExactly | rfcMgr/rfc_manager.cpp:635-653 | For '*' or numeric minute and hour the firing minutes of a day are the original's moved back by three modulo 1440, exactly unless the minute is '*' and the hour fixed. |
| Cron.ShiftAcrossDays | rfcMgr/rfc_manager.cpp:635-653 | In absolute time and for any calendar: with a fixed minute the shift holds exactly unless it goes over midnight while the days are not all alike; with every minute of every hour exactly if they are; with every minute of one hour only if the schedule never fires. |
| CronLists.AdjustedAsTaken | rfcMgr/rfc_manager.cpp:622-653 | For parts of any kind the adjusted schedule is that of a plain one: stars, leading numbers, or all defaults if a part has no number. |
| CronLists.ShiftsAsTaken | rfcMgr/rfc_manager.cpp:622-653 | A schedule with lists, ranges or steps, whatever they mean, is moved back by three minutes exactly if it fires as that plain one does. |
| CronLists.TwoMinutesAreNoShift | rfcMgr/rfc_manager.cpp:622-653 | So none whose minute part means two minutes of an hour is. |
| CronLists.DaysAsTaken | rfcMgr/rfc_manager.cpp:622-653 | And one with a fixed minute away from midnight exactly if its days are those of the plain one. |
| Crontab.SedKeeps | rfcMgr/rfc_manager.cpp:715-718 | The deletion keeps every line that names neither rfcMgr nor RFCbase.sh, in order, and no other. |
| Crontab.UnrelatedExactly | rfcMgr/rfc_manager.cpp:715-718 | Kept are exactly the lines that are not some text around rfcMgr or RFCbase.sh. |
| Crontab.EntryText | rfcMgr/rfc_manager.cpp:643-662 | The entry is the adjusted schedule, whose five words are the adjusted parts, with the command and its log behind it. |
| Crontab.RewriteKeepsExactly | rfcMgr/rfc_manager.cpp:715-724 | The new table is the unrelated lines in order with the entry behind them, exactly unless the old one ends in an unrelated line without newline. |
| Crontab.RewrittenLines | rfcMgr/rfc_manager.cpp:715-724 | The lines of the new table in both cases: the entry behind the unrelated lines, or glued to the last of them. |
| Crontab.ExactlyOneEntry | rfcMgr/rfc_manager.cpp:715-724 | On every table exactly one line names rfcMgr afterwards: the entry, or the line it was glued to. |
| Crontab.LastEntryWins | rfcMgr/rfc_manager.cpp:715-724 | Rewriting twice is rewriting once with the second entry, so a repeated rewrite changes nothing, exactly unless the table ended in an unrelated line without newline. |
| Crontab.DanglingJobIsLost | rfcMgr/rfc_manager.cpp:715-724 | In that case the second rewrite leaves all unrelated lines but that last one: its job is deleted. |
| Crontab.EntryIsOneLine | rfcMgr/rfc_manager.cpp:643-662 | Whatever the schedule's five parts are, the entry is one line and names rfcMgr. |
| Crontab.ManageCronJob | rfcMgr/rfc_manager.cpp:603-735 | From schedule text to crontab: fewer than five parts change nothing; otherwise the table is rewritten, with one rfcMgr line on every table, and all unrelated lines kept exactly unless the last had no newline. |
| DownloadBuffer.Buffer.AllocDownloadDataMem | rfcMgr/gtest/mocks/urlHelper.c:853-877 | An empty, terminated buffer of the size asked for, or none at all and status 1. |
| DownloadBuffer.Buffer.WriteMemoryCB | rfcMgr/gtest/mocks/urlHelper.c:293-327 | A chunk is appended whole, growing the buffer if it must, or refused with 0 when memory is; data and NUL stay inside the allocation, with datasize below memsize. |
| DownloadBuffer.Buffer.Restart | rfcMgr/gtest/mocks/urlHelper.c:745-752 | The buffer is emptied and keeps its memory. |
| DownloadBuffer.Run | rfcMgr/gtest/mocks/urlHelper.c:293-327 | Over any sequence of allocations, restarts and chunks, with the allocator refusing at will, the buffer ends with exactly the chunks taken since it was last emptied, followed by NUL; each chunk was taken whole or refused for lack of memory. |
| DownloadBuffer.HeldIsConcat | rfcMgr/gtest/mocks/urlHelper.c:293-327 | Those are the concatenation of the chunks taken behind the last emptying operation. |

## Left out

- ShellParser.CommandParser: texts with quotes, backticks, redirects or % formats, which depend on other processes and on
  the caller's arguments; the parser is modelled on all other texts.
- ShellExec.Process.ExecuteTaskList: failures of pipe and dup, signals, and the memory a vfork child shares with its parent;
  the redirect operations of a task (fd_ops) go with the redirects of the parser.
- ShellParser.ReadSubshell: the same texts.
- ShellExec.Process.SecureSystem: the same texts, and a child that dies without exiting.
- ShellExec.Process.ExecuteTask: the redirect operations of a task, and a subshell that dies without exiting; for a program that does,
  the status -1 is one the oracle may give.
- popen-style calls of the wrapper, and its argv-based entry points.
- RfcText.RemoveSubstring: the empty pattern, on which the original loops for ever; the program only passes non-empty ones.
- Character classes of locales other than C: alphanumeric and case are those of ASCII.
- LocalStore.Store.SetValue: a clear with an empty name, on which the original inspects the last character of an empty string.
- StoreConcurrency.NothingLost: failures of the semaphore calls, crashes inside the critical section, and clients that write the file
  without the semaphore; entries that cannot be printed, whose effect LocalStore.UpdateRefines excludes.
- XconfHandler.Handler.ProcessRuntimeFeatureControlReq: values longer than the buffers they are read into (1024 and 4096
  characters), sleeping between attempts, and certificate selection.
- XconfHandler.Handler.IsConfigValueChange: whether a key is a bootstrap key is a parameter, not a search of the bootstrap file.
- The probe of a new bootstrap URL is a parameter (it validates or not) with its one effect on the handler, the remembered hash.
- XconfCache.UnchangedIsLastAccepted: crashes between applying a configuration and storing its hash, and servers whose 200 carries no hash.
- XconfReboot.RebootIsEarned: whether a write reached the database; the status of a write is that of the read before it, in the
  original as in the model, so that a parameter at its default never asks for a reboot.
- XconfAccount.AccountThroughClear: a reply without a usable account ID that names a ClearDB parameter; XconfAccount.AccountFormula says
  what happens then.
- JSON parsing: replies start as feature lists with string-valued configData, entries of other types not among them.
- Device identity, network and DNS checks, telemetry, logging, certificates and the maintenance manager's side of events.
- The camera build, and the gateway build apart from its settings: its stored hash and time live in files.
- RdkbSettings.Processor.ProcessJsonResponseB: the sets of ClearDB and ClearDBEnd. On a bus where these reset values the results on one
  run speak of the bus after the reset, and those on replays of a bus without one. Also the account check behind the second pass, which only reads; failures to open the bus, values longer than the buffer they are read into, and other
  names the bus has for the WAN interfaces.
- RdkbSettings.Processor.ProcessFeatures: the marker and variable files, which are those of the default build.
- RdkbReplay.ReplayExactly: replies that name the WAN switches or the two WAN interfaces, or set the same parameter twice in the
  first pass.
- QueryUrl.CreateXconfHTTPUrl: a failure inside the encoder, which would leave a value out; and the field lists of the other builds.
- FeatureFiles.FlagOfFirst: names with '=' or a newline, whose lines break.
- The API over HTTP once the parameter server is ready, and the creation of the defaults file.
- Cron.ShiftExactly: lists, ranges and steps in a schedule; CronLists.ShiftsAsTaken says what becomes of those.
- Crontab.ManageCronJob: failures of the crontab and sed commands.
- DownloadBuffer.Run: overflow of size_t, allocations of size zero, and a restart of a buffer that has no memory.
- Tables of error strings and types, and the command-line tools.
