# anfra, modelled and proved in Dafny

A model of the parts of anfra whose correctness takes more than a reading: protocols that run in steps,
transformations that must preserve meaning, and the layouts and text rules around them. Each module says at its
top which source file it models; `dafny verify dfyconfig.toml` checks them all.

**Stored logins** (`OAuthProtocol`, `CredentialDisk`, `CredentialStore`). A login's refresh token is single-use
(section 6 of RFC 6749, section 4.14.2 of RFC 9700), so a crash must never let it be sent twice. The disk has two
views: what a process sees, and every state a power loss may leave. A create, rename or remove becomes durable by a
directory sync, and until then each may be lost on its own. `Home`'s methods take the code's steps in its order,
each free to fail or to end the process. `Run` is any script of logins, renewals, logouts and power losses on any
orgs. Proved: a token is sent at most once; it is sent only when its entry is pending and its org marked in every
state a crash may leave; and a login that looks usable is durable. The last has one exception, a *blind* login: when
looking for the marker fails, the code takes it for present and writes no marker, so until the next sync its new entry
may be seen before it is durable (`UnsyncedLoginNeedsItsMarker`, an equivalence). A logout likewise reports an entry removed
that it did not find, though an earlier logout's removal may not be durable (`Logout`'s equivalence, and
`SecondLogoutMayNotLast`).

**Schema inlining** (`Schemas`, `Inlining`, `Cycles`, `Inliner`). A document's meaning is what its references unfold
to, to any depth (sections 8.2.3.1 and 8.2.4 of JSON Schema Core 2020-12; what is beside a `$ref` overrides, as the
code has it). The inlined document, read against its own `$defs`, means what the original means read against the
registry. `Runtime` updates `seen` and `defs` in place, as the code does, and terminates on every registry. What it
keeps, and whether it fails, depends on what the root leads to (`LedTo`) alone, however the rest of the registry is.

**The MotherDuck dialog** (`MotherDuckCopy`). A log of consents, uploads and tokens. Whatever is answered, and
whatever the CLI and the servers do, every upload was agreed to, of that file and to that account, under a name that
was free; and nothing happens once the person quits, but a revocation. A token made here is held by a data source or
was sent for revocation, one of the two, as long as replies arrive. Replies get lost: a token is held and revoked if
and only if some creation with it went unheard and none was heard of, and neither if and only if its own making went
unheard (`Settled`, proved of every dialog). `RevokedThoughHeld` and `LeftBehind` reach both from any state without a
token.

**The report limiter** (`ReportHistory`, `ReportLimiter`). Windows are objects with an identity that timers hold.
What is taken under the lock is told by separate, later steps. No refusal is lost or told twice, and no 60 seconds
let through more than 600 reports of a path.

**Export files** (`ExportFiles`). Every action is one atomic step, and `Run` is every interleaving of them. A live
link's file stays, however old, with one exception: an export that a sweep looked at before it had a link, and then
found last written more than a link's life before the sweep began. Such an export is `overtaken`, and an export that
is linked or being made has lost its file, or is about to, if and only if it is. `FinishedAfterTheLook` loses a file
so from any state. The code's comment relies on an export being shorter than a link's life, and rightly: one that
never went that long without a write is never overtaken.

**The terminal filter** (`QueryFilter`). A stream cut anywhere into writes comes out as one left-to-right scan of the
whole. What comes out may still hold a query: if and only if the input spells one around the queries dropped
(`HoldsQueryIffSpliced`), as in `DroppingMayJoinAQuery`.

**Layouts and texts.** `UploadBatches` plans the upload calls, in the fewest calls the limits allow. `SortedNames`,
`FileTree`, `TreeDrawing` and `TreeReading` draw paths as a tree, from which the paths read back. `StepTimings`
nests steps by time; a child that takes time is within its parent unless recorded once its parent's level moved on. `StatusLine` fits a line to a width. `ShellWords` splits a line as a shell does, and `ShellGrammar` says of
every line what it splits into. `AgentsBlock`
and `AgentsFiles` place a block in a text and a line in another. `ChildEnvironment` merges environments.

Two ghost fields make promises of what must happen, not only of what must not: `Home.trouble` says that a step failed
or a process crashed, and `MdCopy.hindered` that a person declined or something outside failed. Without them, a token
is answered, a login is durable, and every data source is created.

Methods whose source is a loop or an update in place are methods here, each tied by its `ensures` to a function or a
predicate; the lemmas are about that. A method's arbitrary choices (`*`, `:|`) stand for the operating system, the
network, and people.

## Model

| member | source | states |
|---|---|---|
| OAuthProtocol.ValidateTokenResponse | internal/cliauth/oauth_protocol.go:232-259 | a reply is accepted if and only if it grants (scope, resource, token type, tokens, org, ids, deadline and expiry as the client demands, in numbers) and, for a renewal, renews the same grant with both tokens new; what is stored is the reply's own tokens, grant, org and deadline, the expiry cut to the deadline, and not pending |
| OAuthProtocol.RenewsItsGrant | internal/cliauth/oauth_protocol.go:232-259 | round trip: a reply built from a stored grant with new tokens, in time, is accepted, and stored as that grant with those tokens and nothing else changed |
| OAuthProtocol.TokensAreVisible | internal/cliauth/oauth_protocol.go:220-230 | a token is one to 8192 visible ASCII characters, and no other text is |
| OAuthProtocol.GroupsMakeAGrantId | internal/cliauth/oauth_protocol.go:215-219 | any five groups of hexadecimal digits, not all zero, are a grant id |
| OAuthProtocol.ChainKeepsGrant | internal/cliauth/oauth_protocol.go:232-259 | along any chain of renewals from a login: grant id, org id, org, deadline and endpoints never change, every access expiry stays bounded, consecutive tokens differ |
| CredentialDisk.SafeWhenRenamed | internal/cliauth/credential_store.go:90-122 | a rename not yet synced keeps the protocol's invariant, provided the org written is marked, or its entry pending, or its login blind |
| CredentialDisk.SafeWhenSynced | internal/cliauth/refresh_recovery.go:61-68 | a directory sync makes what a process sees durable, for every org, and ends every blindness |
| CredentialDisk.SafeWhenRemoved | internal/cliauth/refresh_recovery.go:45-59 | removing a marker keeps the invariant once the inventory it guards is durable |
| CredentialDisk.SafeAfterCrash | internal/cliauth/refresh_recovery.go:14-68 | every disk a power loss may leave of a safe one is safe: unsynced changes lost independently |
| CredentialDisk.SafeWhenPosted | internal/cliauth/oauth_manager.go:129-143 | sending a token written ahead and never sent keeps the invariant |
| CredentialDisk.NeverSentAgain | internal/cliauth/oauth_manager.go:105-161 | on a safe disk, or any a crash may leave of it, a usable login's refresh token was never sent |
| CredentialDisk.UnsyncedLoginNeedsItsMarker | internal/cliauth/oauth_login.go:164-175 | while a login's inventory is renamed but not synced, what looks usable is durable if and only if the login's org is marked |
| CredentialDisk.SecondLogoutMayNotLast | internal/cliauth/oauth_manager.go:184-203 | a logout that finds no entry after one whose sync failed reports removed what a crash may bring back |
| CredentialStore.Home.SaveCredentialInventory | internal/cliauth/credential_store.go:90-122 | done, the new inventory is durable; failed or crashed, the disk is as before or renamed and not synced, never torn |
| CredentialStore.Home.MarkRefreshRecovery | internal/cliauth/refresh_recovery.go:26-43 | done, the marker was new and is durable; else nothing or an unsynced marker |
| CredentialStore.Home.ClearRefreshRecovery | internal/cliauth/refresh_recovery.go:45-59 | done, a marker that was there is durably gone, and without one nothing changed; failed, the marker is there as far as a process sees, unless marking it again failed too; the inventory is untouched |
| CredentialStore.Home.WriteAhead | internal/cliauth/oauth_manager.go:133-140 | done, the entry is pending and its org marked, durably; failed, nothing changed or the login is not usable |
| CredentialStore.Home.PostRefresh | internal/cliauth/oauth_manager.go:141-146 | the one place that sends a refresh token, demanding it is written ahead and never sent |
| CredentialStore.Home.RenewLogin | internal/cliauth/oauth_manager.go:129-161 | sends at most one token, the stored one; done, exactly the org's entry is the validated successor, durable and usable; failed and still usable, nothing was sent or the successor is durable |
| CredentialStore.Home.LoadAccessToken | internal/cliauth/oauth_manager.go:105-124 | answers only the access token of a usable login it can trust: the stored one if that has five minutes left, nothing changed, else the one just renewed; answers one unless a step fails here, the login is not to be trusted, or the server does not renew it |
| CredentialStore.Home.Exchange | internal/cliauth/oauth_login.go:146-193 | a login is in flight, as the validated reply, if and only if the reply is accepted, and nothing is then revoked; of a refused one, the refresh token, or the access token in its place, was sent for revocation |
| CredentialStore.Home.SaveLogin | internal/cliauth/oauth_login.go:164-175 | done, exactly the org's entry is the new login, durable, usable, its marker gone whatever a crash leaves, and no login blind any more; failed and usable, what is usable is durable unless the login is blind |
| CredentialStore.Home.Login | internal/cliauth/oauth_login.go:164-193 | done, durable and nothing revoked; failed, what the server granted was sent for revocation |
| CredentialStore.Home.Logout | internal/cliauth/oauth_manager.go:174-208 | reports removal only of exactly its org's entry; asks to revoke that entry's own token wherever it may be sent, and reports what the server confirms; the removal is durable if and only if the entry was there or already durably gone; succeeds wherever no step fails and the server confirms |
| CredentialStore.Run | internal/cliauth/oauth_manager.go:105-161 | in every run, whatever fails, crashes or is lost: no refresh token is sent twice, each was sent written ahead, and a usable login is unsent and durable, unless since the last sync a login of its org was blind; where nothing failed, a power loss loses nothing |
| CredentialStore.LoginThenLoad | internal/cliauth/oauth_login.go:146-193 | from any state, a login the server grants, saved and then loaded, answers exactly the access token granted, if no step fails |
| Schemas.HeadIsOne | shared/apikit/discovery.go:289-310 | following references reaches at most one schema, however many steps are allowed |
| Schemas.BesideOverrides | shared/apikit/discovery.go:299-310 | a reference to an object means the object, but for the keys beside the reference, each of which means what it holds; none is lost and none of the object's others |
| Inlining.HeadForward | shared/apikit/discovery.go:278-333 | where the original's references lead to a schema, the inlined document's lead to its twin, overrides alike |
| Inlining.HeadBackward | shared/apikit/discovery.go:278-333 | where the inlined document's references lead to a schema, the original's do: a cycle of references alone stays one |
| Inlining.MeaningKept | shared/apikit/discovery.go:221-333 | unfolded to any depth, the inlined schema read against its $defs equals the original read against the registry |
| Inlining.RefFreeIsItself | shared/apikit/discovery.go:278-333 | a document without references inlines to itself |
| Cycles.KeptOnCycle | shared/apikit/discovery.go:281-294 | every reference left is into $defs and names a schema on a cycle of references that the document leads to |
| Cycles.ClosedInlines | shared/apikit/discovery.go:265-333 | inlining fails only where a reference the document leads to names nothing, whatever the rest of the registry holds |
| Cycles.AcyclicKeepsNone | shared/apikit/discovery.go:278-333 | a document that leads to no cycle keeps no reference, whatever the rest of the registry holds |
| Inliner.Runtime.InlineValue | shared/apikit/discovery.go:278-333 | the in-place recursion terminates, yields the inlined value, restores seen, and notes exactly the references it kept as empty definitions |
| Inliner.Runtime.InlineRef | shared/apikit/discovery.go:280-310 | a reference on its own path is kept and noted once, with all beside it; any other is replaced by what it names, each key beside it kept over that |
| Inliner.Runtime.FillDefinition | shared/apikit/discovery.go:235-256 | one turn of the worklist fills one definition, unfills none, and adds only ones it refers to |
| Inliner.Runtime.Inline | shared/apikit/discovery.go:221-262 | terminates; fails only if a reference the root leads to names nothing; what it yields means the same at every depth, every reference left names a definition, every definition is on a cycle the root leads to and reached from the body, and where the root leads to no cycle there are neither |
| Inliner.KeepsWhatIsBeside | shared/apikit/discovery.go:299-310 | where the root is a reference, each key beside it is in the answer with its own meaning, and every other key of the schema referred to with that schema's |
| Inliner.AttachedReadsBack | shared/apikit/discovery.go:257-261 | the body and the definitions are read back from the one document |
| MotherDuckCopy.MdCopy.AskUpload | internal/publish/motherduck.go:208-246 | a yes covers the file and, where the question named an account, chooses it; after yes to all not asked again, but for an account not named yet; quitting, and only that, is the error that ends the publish |
| MotherDuckCopy.MdCopy.NoteAsked | internal/publish/motherduck.go:231-246 | an answered question's whole effect: a no withdraws yes to all; a yes names the account |
| MotherDuckCopy.MdCopy.Account | internal/publish/motherduck.go:253-287 | the account named is the one signed in to, else the one first seen, looked at once |
| MotherDuckCopy.MdCopy.SignIn | internal/publish/motherduck.go:290-348 | signs in at most once, to the account first seen if one was; only the person's own sign-in chooses an account |
| MotherDuckCopy.MdCopy.FreeName | internal/publish/motherduck.go:430-442 | the first free of 99 names, or none when all are taken |
| MotherDuckCopy.NumbersApart | internal/publish/motherduck.go:430-438 | the name as it is, then with a number in decimal: no two alike |
| MotherDuckCopy.MdCopy.Upload | internal/publish/motherduck.go:379-425 | uploads only the file agreed to, to the account signed in to, under the first free name; a name answered was uploaded, and where none is, something outside failed |
| MotherDuckCopy.MdCopy.UploadAs | internal/publish/motherduck.go:388-424 | uploaded if and only if the CLI takes the file, or, it being in use by anfra's own query engine, a copy of it; the name is then taken, as where it turns out to be |
| MotherDuckCopy.MdCopy.OrgToken | internal/publish/motherduck.go:452-526 | settles one token, once: made, or pasted and read-only; one made unheard is not it, and is not asked for again by this call |
| MotherDuckCopy.MdCopy.MakeToken | internal/publish/motherduck.go:460-475 | a token is held only if its making was heard of; made unheard, MotherDuck has it all the same |
| MotherDuckCopy.MdCopy.Agree | internal/publish/motherduck.go:151-172 | a yes covers the file and the account signed in to was named or chosen, asking again where it was not |
| MotherDuckCopy.MdCopy.Offer | internal/publish/motherduck.go:127-195 | answers exactly the data sources created, the file's own, each with the token settled; all of them unless the person or something outside hinders; nothing once given up, and nothing after quitting |
| MotherDuckCopy.MdCopy.Copy | internal/publish/motherduck.go:173-195 | the token first: without one, nothing is uploaded |
| MotherDuckCopy.MdCopy.CreateDataSource | internal/publish/datasources.go:179-206 | the org is given the token to try the connection; done exactly when it was heard to have created the data source; not done, it may have been created unheard; an error, the check's or a refusal, no data source holds it |
| MotherDuckCopy.MdCopy.GiveToken | internal/publish/datasources.go:196-206 | the token counts as used only if a creation was heard of; one unheard gives it to the org all the same |
| MotherDuckCopy.MdCopy.Finish | internal/publish/motherduck.go:531-543 | revokes exactly a token made here that no creation heard of used; each token is then held or revoked, both if and only if its use went unheard, neither if and only if its making did |
| MotherDuckCopy.MdCopy.OfferCopies | internal/publish/datasources.go:144-166 | over every dialog: answers exactly the data sources created, in order; ends with the switch error if and only if the person quit, and never with a refusal; where the person agrees and nothing outside fails, every data source of every file is created; each upload agreed to, of that file and that account, to a free name; the org given read-only tokens alone, to try or to keep; every token made held or revoked, both or neither exactly where a reply was lost; nothing after quitting but a revocation |
| MotherDuckCopy.RevokedThoughHeld | internal/publish/datasources.go:196-206 | from any state without a token: the org's reply lost, the token made is revoked under a data source that holds it |
| MotherDuckCopy.LeftBehind | internal/publish/motherduck.go:460-480 | from any state without a token: MotherDuck's reply lost, the token made is held by none and never revoked |
| ReportHistory.AtMostTwoWindows | internal/appserve/log.go:113-135 | reports let through in windows a minute apart, 300 each, are at most 600 in any 60 seconds |
| ReportLimiter.AllToldWhenQuiet | internal/appserve/log.go:139-178 | with no timer pending and nothing owed, every refusal has been told, once |
| ReportLimiter.SafeMeans | internal/appserve/log.go:104-178 | what the invariant of every step says: conservation, drops have a timer, the bound on any minute |
| ReportLimiter.Limiter.Allow | internal/appserve/log.go:104-136 | lets a report through unless its path's window of this minute is full, which with a steady clock is to say that one begun less than 60 seconds ago let 300 through; counts it as passed or refused, telling nothing itself; after a minute, no window older is kept |
| ReportLimiter.Limiter.Sweep | internal/appserve/log.go:150-162 | forgets exactly the windows whose minute is over, their drops taken to be told |
| ReportLimiter.Limiter.CurrentWindow | internal/appserve/log.go:118-125 | a path keeps its window for its minute, and then has a new one, the old one's drops taken |
| ReportLimiter.Limiter.Flush | internal/appserve/log.go:165-178 | a timer takes its own window's drops, and forgets the path's window only if it is that very one |
| ReportLimiter.Limiter.Tell | internal/appserve/log.go:139-147 | one telling moves its drops from owed to told |
| ReportLimiter.Run | internal/appserve/log.go:104-178 | in every run of reports, timers and tells: each report is let through or refused, once; refusals are those told, owed and held; held drops have their timer; with a steady clock, at most 600 reports of a path in any 60 seconds |
| ExportFiles.Files.Link | internal/exports/exports.go:139-153 | a finished export has exactly its link, expiring a link's life after its file was closed |
| ExportFiles.Files.StartSweep | internal/exports/exports.go:77-88 | a sweep first takes exactly the links expired as of its moment |
| ExportFiles.Files.Forget | internal/exports/exports.go:186-191 | a link is forgotten only once expired, or by Close, and its file removed only by who forgot it |
| ExportFiles.Files.Judge | internal/exports/exports.go:95-104 | an entry not linked when looked at is doomed exactly if there and last written more than a link's life before the sweep; an export linked or unfinished so doomed is overtaken, and no other |
| ExportFiles.Files.RemoveEntry | internal/exports/exports.go:95-104 | a sweep removes no file of a link, however old, nor of an export still being made, unless it overtook that one |
| ExportFiles.Files.CheckExpiry | internal/exports/exports.go:171-177 | Open refuses a token expired when it looks |
| ExportFiles.Files.OvertakenLoseTheirFiles | internal/exports/exports.go:71-153 | of the exports linked or unfinished, exactly those overtaken have lost their file or are about to; none is that never went a link's life without a write |
| ExportFiles.Run | internal/exports/exports.go:77-210 | in every interleaving, taken exactly as the steps say: Open never answers a token expired when it looked; it fails one it found linked only once that expired, or where Close took that very token, unless overtaken; a linked or unfinished export, however old, has its file unless overtaken, and one never idle for a link's life is never overtaken |
| ExportFiles.SweepEntry | internal/exports/exports.go:95-104 | whatever happens before the removal, an entry found no link's goes if and only if, when judged, it is there and last written more than a link's life before the sweep began; else the folder is as it was |
| ExportFiles.FinishedAfterTheLook | internal/exports/exports.go:71-104 | from any state, for any ttl: an export idle for longer than that before a sweep, linked between its look and its judgment, has a live link and no file |
| ExportFiles.FinishedBeforeTheLook | internal/exports/exports.go:95-104 | from any state: an export linked before a sweep's look keeps its file, however long ago it was written |
| ExportFiles.SlowExportLosesItsFile | internal/exports/exports.go:71-104 | an instance: an export that pauses for 11 where links live 10 |
| QueryFilter.TerminalQueryWriter.Write | internal/cliui/terminal_queries.go:22-56 | keeps output, dropped queries and pending accounting for every byte in order, pending nothing or a proper start of a query; takes all of its bytes unless a write failed before |
| QueryFilter.TerminalQueryWriter.Flush | internal/cliui/terminal_queries.go:69-75 | what was put out since the last flush is one scan of what was written, or the start of that if a write failed |
| QueryFilter.TerminalQueryWriter.Put | internal/cliui/terminal_queries.go:58-67 | a short write is a failure, and nothing is written after one |
| QueryFilter.TheQueries | internal/cliui/terminal_queries.go:13 | the three queries, byte for byte |
| QueryFilter.ScanAtTheEnd | internal/cliui/terminal_queries.go:22-75 | at any point, a scan of what was written is the output and what is pending |
| QueryFilter.Stream | internal/cliui/terminal_queries.go:22-75 | for every split into writes, then a flush, the bytes written are one left-to-right scan of the whole |
| QueryFilter.WithoutQueriesUnchanged | internal/cliui/terminal_queries.go:13-56 | a stream that holds no query comes out unchanged |
| QueryFilter.SpellsWhatComesOut | internal/cliui/terminal_queries.go:13-56 | the output starts with given bytes if and only if the input spells them, whole queries skipped |
| QueryFilter.HoldsQueryIffSpliced | internal/cliui/terminal_queries.go:13-56 | what comes out holds a query if and only if somewhere outside the queries dropped the input spells one |
| QueryFilter.DroppingMayJoinAQuery | internal/cliui/terminal_queries.go:13-56 | an instance: a query between the two ends of another |
| UploadBatches.PlanHoldsAll | internal/publish/publish.go:338-354 | the calls, none empty, concatenate to exactly the blobs, in order |
| UploadBatches.PlanFits | internal/publish/publish.go:338-354 | every call is within both limits if and only if there is nothing to upload, or a call may hold a blob and no blob alone is too large |
| UploadBatches.NoCountLimit | internal/publish/publish.go:347-353 | a count limit of none or fewer is no limit: the calls are as under one that no call reaches |
| UploadBatches.FewestCalls | internal/publish/publish.go:338-354 | no division of the blobs, in order, into calls within the limits takes fewer calls |
| UploadBatches.Upload | internal/publish/publish.go:311-355 | what was sent and why no more was: the plan, all accepted; the calls full before a file that could not be read or changed; or the plan up to the call refused or misnamed |
| UploadBatches.SentInOrder | internal/publish/publish.go:311-355 | done, the calls name exactly the ids asked for; else a start of them; none empty, each within the limits if no file alone is over them |
| SortedNames.SortedOnlyOneWay | internal/pretty/pretty.go:650-665 | sorting has one result, whatever algorithm does it |
| SortedNames.LeIsByFirstDifference | internal/pretty/pretty.go:650-665 | names are ordered by the first character in which they differ, a start before what it starts |
| SortedNames.SplitJoin | internal/pretty/pretty.go:627-636 | names joined by slashes are read back by splitting |
| FileTree.BuildHoldsAll | internal/pretty/pretty.go:626-637 | the tree built holds each path as often as given, and no empty folder |
| FileTree.CollapseHolds | internal/pretty/pretty.go:651-661 | a chain of folders drawn on one line stands for the same paths |
| FileTree.EntriesHold | internal/pretty/pretty.go:643-666 | a folder's lines hold its paths, each as often |
| FileTree.EntriesInOrder | internal/pretty/pretty.go:643-666 | a line for each folder and file, folders first, each kind sorted |
| TreeDrawing.TreeLines | internal/pretty/pretty.go:625-680 | the lines drawn, as the function the lemmas are about |
| TreeDrawing.Walk | internal/pretty/pretty.go:643-677 | a folder's lines under its prefix, as that function |
| TreeDrawing.ReadDrawn | internal/pretty/pretty.go:643-677 | each line reads back as its depth, its names, and whether it is a folder's |
| TreeReading.TreeReadsBack | internal/pretty/pretty.go:625-680 | for paths of non-empty names, the drawn tree reads back as exactly the paths given, each as often, and no folder's line has a single entry under it |
| TreeReading.TreeIsRuled | internal/pretty/pretty.go:667-677 | every column of every line shows whether more comes at its depth: pipe and branch if so, blank and last mark if not |
| TreeDrawing.Glyphs | internal/pretty/pretty.go:638-641 | what the columns are drawn with, in UTF-8 and in ASCII |
| StepTimings.TimingLines | internal/pretty/views.go:48-61 | a line for each step with its label and how long it took, and the width of the widest label |
| StepTimings.WidestIsLeast | internal/pretty/views.go:49-61 | the width is the least that holds every label and the total's |
| StepTimings.LabelReads | internal/pretty/views.go:58 | a label is two spaces for each dot of the name, and the last name |
| StepTimings.LastNameIsLast | internal/pretty/views.go:58 | the last name holds no dot, and is what is after the name's last dot, or the whole name |
| StepTimings.ChildIsIndented | internal/pretty/views.go:43-58 | a child's label is its own name, two spaces further in than its parent's |
| StepTimings.NestedOrApart | internal/pretty/views.go:48-58 | of two steps, the later is within the earlier or after it, and none takes negative time |
| StepTimings.WithinIffBeforeNext | internal/pretty/views.go:48-58 | a later step that takes any time takes it within an earlier one's if and only if it comes before the next at that one's level or above |
| StepTimings.ChildWithinParent | internal/pretty/views.go:48-58 | a child's time is within its parent's if no step at the parent's level or above came between, and, taking any time, only if |
| StepTimings.LateChildIsOutside | internal/pretty/views.go:48-58 | an instance of a child recorded late, outside its parent |
| StepTimings.LevelTakesAll | internal/pretty/views.go:48-61 | the steps of one level take all the time from the first of them to what comes next above them |
| StepTimings.TopLevelTakesAll | internal/pretty/views.go:48-61 | the top-level durations sum to the end minus the first top-level start |
| StepTimings.ChildrenTakeAll | internal/pretty/views.go:48-61 | a step's children take all its time from the first of them on |
| ShellWords.SplitArgs | cmd/anfra/console.go:356-407 | the index loop, as the automaton the lemmas are about |
| ShellWords.SplitsWhatWasWritten | cmd/anfra/console.go:352-407 | words written in any mix of plain, backslashed, single- and double-quoted parts, apart by blanks, split into what they mean |
| ShellWords.QuotedRoundTrip | cmd/anfra/console.go:352-407 | every list of words, each quoted whole in any of three ways and joined by spaces, splits into exactly that list |
| ShellGrammar.ReadsAsWritten | cmd/anfra/console.go:352-407 | a line is split as its writing means: whole words; a last word ended by a backslash with nothing after it; or a quote left open, of either kind, at a word's start or inside one, which is told |
| ShellGrammar.EveryLineIsWritten | cmd/anfra/console.go:352-407 | every line has such a writing |
| ShellGrammar.SplitsIffWrittenSo | cmd/anfra/console.go:352-407 | a line splits into given words, or is told unclosed, if and only if it can be so written |
| ShellGrammar.UnclosedQuoteIsTold | cmd/anfra/console.go:400-402 | a quote is told if and only if the line leaves that quote open |
| ShellGrammar.BlanksPart | cmd/anfra/console.go:389-394 | a space, a tab or a line end parts two plain words, and nothing parts one |
| ShellGrammar.EscapesInDoubleQuotes | cmd/anfra/console.go:371-380 | in double quotes a backslash escapes exactly a dollar, a backquote, a double quote, a backslash and a line end |
| AgentsBlock.ReplacesInPlace | internal/agents/agentsmd.go:206-210 | the block found is where its first begin marker is, and it alone is replaced |
| AgentsBlock.WithBlockIsCurrent | internal/agents/agentsmd.go:187-219 | the file then holds exactly this block, unless a begin marker was unended |
| AgentsBlock.IdempotentUnlessUnended | internal/agents/agentsmd.go:187-219 | doing it twice is doing it once if and only if the first begin marker, if any, is followed by an end marker |
| AgentsBlock.CurrentIffNothingToWrite | internal/agents/agentsmd.go:187-219 | the block found is this one if and only if there is nothing to write |
| AgentsBlock.UnendedLosesItsRest | internal/agents/agentsmd.go:187-219 | with an unended begin marker, a second time loses all from that marker on |
| AgentsBlock.TextOutsideKept | internal/agents/agentsmd.go:206-219 | a file's text outside the block replaced is kept as it is |
| AgentsBlock.AddedAfterABlankLine | internal/agents/agentsmd.go:211-218 | a block is added after a blank line, or at the file's start, with no more line ends than that takes |
| AgentsBlock.HasBlockIff | internal/agents/agentsmd.go:187-202 | a file has a block if and only if a begin marker is followed by an end marker |
| AgentsFiles.Repo.CheckBlock | internal/agents/agentsmd.go:75-101 | nothing exactly where a file is refused; missing exactly where no begin marker is followed by an end marker; up to date exactly when a setup would leave AGENTS.md as it is, and the import missing exactly when it would change CLAUDE.md |
| AgentsFiles.Repo.WriteBlock | internal/agents/agentsmd.go:108-140 | writes each file exactly when it is due, and says what was written; a write that fails may leave its file cut short; fails before or at the block, or only at the import |
| AgentsFiles.ImportIsAdded | internal/agents/agentsmd.go:132-139 | the import added is a line of the file |
| AgentsFiles.ImportGoesLast | internal/agents/agentsmd.go:132-138 | the import is the last line, after a blank one unless the file is empty, with no more line ends than that takes |
| AgentsFiles.LineIsInText | internal/agents/agentsmd.go:221-228 | what is a line of a file is in its text |
| AgentsFiles.TrimMeans | internal/agents/agentsmd.go:221-228 | what a line is compared by is it without the white space at its ends, and that alone |
| AgentsFiles.SetUpThenCheck | internal/agents/agentsmd.go:75-140 | after a setup, a check finds the import and, unless a marker was unended, this block; and another setup then changes nothing |
| AgentsFiles.CheckTellsSetUp | internal/agents/agentsmd.go:75-140 | what a check finds is what a setup would change |
| ChildEnvironment.LastWins | internal/sidecar/env.go:55-70 | a list with one entry a name, where it first is, as last given |
| ChildEnvironment.LastWinsMeansTheSame | internal/sidecar/env.go:55-70 | the list so made names each name once, in the same order, with the same entries |
| ChildEnvironment.LastIsLast | internal/sidecar/env.go:55-70 | a name's entry is in the list, and none after it has that name |
| ChildEnvironment.NamesAsTheyAppear | internal/sidecar/env.go:55-70 | names are in the order in which they first appear |
| ChildEnvironment.LastConcat | internal/sidecar/env.go:51-52 | of two lists one after the other, the later's entries win, as in a map merge |
| ChildEnvironment.ForwardedMeans | internal/sidecar/env.go:39-47 | exactly the names under the prefix are forwarded, without it, each with its last value |
| ChildEnvironment.InheritedInOrder | internal/sidecar/env.go:39-50 | what is inherited and what is forwarded keep their order |
| ChildEnvironment.ChildEnv | internal/sidecar/env.go:37-53 | the environment is the merge of inherited, defaults, forwarded and fixed, each name once where it first appears |
| ChildEnvironment.WhatAChildSees | internal/sidecar/env.go:37-53 | a name's entry is from fixed, else forwarded, else defaults, else inherited |
| ChildEnvironment.WithheldUnlessSet | internal/sidecar/env.go:39-50 | an ANFRA_, prefixed or stripped name appears if and only if one of the first three sets it |
| ChildEnvironment.PassedOnOtherwise | internal/sidecar/env.go:39-50 | any other name that none of the three sets is passed on as it is |
| StatusLine.Bottom | internal/cliui/entry.go:262-316 | who gets the room: the warning, then the status, then what is aside, whole or not at all, then the context |
| StatusLine.LineFits | internal/cliui/entry.go:262-316 | for every width of at least 1, the line is no wider than the terminal, as wide where it has a right side, and its sides are two columns apart |
| StatusLine.ShownWhole | internal/cliui/entry.go:262-316 | each text is whole where it fits beside those before it, and what is aside is whole or not at all |

## Left out

- CredentialStore.Run: does not model malformed inventories found on disk; a file a process cannot use ends the command with an error, as any failed read does.
- Inliner.Runtime.Inline: assumes every registered schema is an object, no schema name is empty or has a slash, and what is beside a `$ref` holds no `$ref`; a root that is no object is not modelled. That it fails is promised one way only: a dangling reference under a key that what is beside a `$ref` overrides is led to, and never looked up.
- MotherDuckCopy.MdCopy.OfferCopies: takes the account the CLI uploads to for the one it reported when signed in; the person switching the CLI's account elsewhere meanwhile is not modelled. Its loops end with a person's patience, any finite number of answers.
- MotherDuckCopy.MdCopy.Upload: an upload made though its reply was lost is not counted among the names taken, as in the code; the CLI, which refuses a name that exists, is what keeps it from being replaced.
- MotherDuckCopy.MdCopy.OrgToken: nobody pastes a token made unheard in this publish, whose secret reached nobody.
- ExportFiles.Run: other processes write and age files of their own names; their sweeps of this process's files are not modelled, as expiry counts from Done but a foreign sweep judges by last write. The links' times are one clock's.
- TreeDrawing.TreeLines: folders are values, so the sharing of `treeNode` pointers while the tree is built is not captured; the styles of the lines are left out.
- StepTimings.TimingLines: the numbers' text and padding, and the total's line, are left out.
- StatusLine.Bottom: a text is its width; the terminal's styles and the cutting itself are assumed to respect their bound.
- QueryFilter.Stream: the lock between concurrent writers is left out: writes are in some order.
- AgentsBlock.WithBlockIsCurrent: the block's text is a parameter with the two markers in their places and nowhere else.
- UploadBatches.Upload: blob ids are taken to be injective, so a blob's id stands for its bytes; the progress line is left out.
- HTTP, TLS, JSON and YAML codecs, browser launching, hashing, PKCE and state values: server answers and parsed values are arbitrary inputs.
- The login's callback server and its select loop; the discovery of the server's endpoints; `safeOAuthEndpoint`'s own rules, whose verdict a stored endpoint carries.
- File permissions, symlinks in anfra's folder, and temporary file names; the machine-wide lock is taken to be held by one process at a time and freed by a crash.
- `listMissing`, the publish's size checks and its one retry: a chunked loop and comparisons, which would add only easy members.
- Cobra and Bubble Tea trees, reflection-driven views, OpenAPI generation, MCP and HTTP mounting, logging, telemetry and the wording of messages.
- `repoconfig.SetString` and the console's history: no promise about lost updates is made of them by the code.
