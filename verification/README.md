# Zendesk MCP server: a verified model

This project models the parts of the server that carry real algorithms, concurrent
state or printer/parser pairs, and proves what their comments, documentation and
tests promise of them.

- **Article reordering** (`ArticleOrder`, `Reorder`, `ReorderTheorems`,
  `ReorderReply`). One article is moved inside a section by writing absolute positions,
  many of them tied, with ties broken arbitrarily by Zendesk. The theorems hold for every section, every tie-break
  and every point at which the PUT loop may stop.
- **Customization store** (`Json`, `Frontmatter`, `FrontmatterForms`, `CustomizationModel`,
  `CustomizationParse`, `CustomizationPlan`, `CustomizationRefinement`,
  `CustomizationLimits`, `CustomizationAcceptance`, `StoredText`,
  `CustomizationStorage`, `CustomizationService`). A file tree is the stored form and
  `Customizations` its parsed view; which edits are accepted, and that planning one,
  applying it and parsing again is the abstract update, in the memory store and in the
  file store, which writes UTF-8. Edits are queued, may stop part-way and interleave.
- **OAuth token store** (`TokenStore`, `TokenStoreTheorems`, `TokenStoreEffects`). Calls, the keepalive,
  invalidation, refreshes and browser flows interleave at every `await`.
- **Budgeted output and its advice** (`FittingList`, `Paging`, `ViewResume`,
  `Attachments`, `AttachmentEntries`). Greedy loops under a character or byte budget, and the calls their
  notices tell the caller to make.
- **Retry policy** (`Retry`, `RetryRuns`) over an adversarial network.
- **Listen feed, alert poller, grant registry** (`ListenFeed`, `AlertPoller`,
  `AlertRounds`, `GrantRegistry`, `GrantSweeps`). Counting invariants over mutable maps, asynchronous rounds, sweeps
  and closes.
- **Section editing** (`ArticleSections`, `ArticleUpdates`, `ArticleEchoes`) over an article's top-level
  nodes, and **durations and thresholds** (`Durations`, `SlaPreferences`).

`JsText` models strings as sequences of 16-bit code units with the JavaScript
operations the code uses; `Options` and `Sequences` are shared helpers.

Code that changes things step by step is a method or a class here, proved against a
specification function; asynchronous code is a step system whose events are the
segments between two suspensions, taken in any order, with a class whose methods each
perform one step. Clocks, random numbers, network outcomes and the order in which a
listing arrives are parameters or events.

Where the code does not do what it says, the code is modelled and the exact condition
proved:

- the "already positioned" reply can be wrong on a section that ignores positions
  (`InPlaceExactly`, `InPlaceExactlyWhenSorted`, `ReplyIsTrueExactly`);
- a cut page whose text only overflows by its next-page hint can lose a last item
  shorter than that hint (`NothingLostExactly`);
- a failed write that may have landed carries no warning when its answer cannot be
  read, or when its status is below 500 (`LandedFailuresAreWarned`);
- the file store replaces surrogates without their other half, and never lists a skill
  file named like its own temporary ones (`EditSurvivesExactly`, `FaithfulExactly`);
- a read of the store that fails leaves what was last read served
  (`ServesTheLastRead`, `NextReadRestores`);
- the first check of a new subscription can announce a change when another refresh of
  its URI is in flight (`FirstCheckAnnouncesExactly`);
- white space sent for an article's intro is reported as an intro lost though it stays
  (`SectionCountAfter`, `WarnsExactlyWhenTheOutlineChanges`), and of two echoed
  headings only one is taken off (`EchoChangesNothing`);
- the comment above the duration pattern says one duration has one spelling, but
  every one has several (`EveryDurationHasOtherSpellings`).

## Model

| member | source | states |
|---|---|---|
| `ArticleOrder.HasPositionInversion` | src/utils/article-order.ts:26-35 | loops over neighbours and answers true exactly when the listing is not sorted by position |
| `ArticleOrder.IndexOf` | src/utils/article-order.ts:82 | the first index of an article id, or -1 exactly when it is absent |
| `ArticleOrder.ComputePositionWrites` | src/utils/article-order.ts:68-113 | the writes pushed by the normalize, bottom and cascade branches are, in order, exactly the differences between the old positions and the specified new ones |
| `ArticleOrder.CascadeWrites` | src/utils/article-order.ts:99-112 | the cascade loop with its early stop emits the differences to the specified positions from the moved article on |
| `ArticleOrder.LargestPosition` | src/utils/article-order.ts:91-93 | the maximum position of the other articles, -1 when there is none |
| `Reorder.Section.ApplyPositionWrites` | src/tools/help-center.ts:833-855 | the PUT loop against an adversarial network: how many are acknowledged, when it fails, and the positions a prefix of the writes leaves |
| `Reorder.Section.ReorderArticle` | src/tools/help-center.ts:2057-2143 | the handler from its argument checks over the PUTs to its verification: which reply it gives, that nothing is written unless it proceeds, and what a failed PUT leaves |
| `Reorder.DesiredShape` | src/utils/article-order.ts:41-62 | the arranged order is a permutation of the listing: the moved article taken out and put back at its slot, every other article in its old order |
| `Reorder.AcknowledgementsAt` | src/tools/help-center.ts:839-854 | the count a failure names is the number of PUTs acknowledged before the first that failed |
| `Reorder.RankInListing` | src/utils/article-order.ts:115-120 | an article whose position no other holds stands, in any listing, at the number of articles positioned below it |
| `Reorder.SameIndex` | src/utils/article-order.ts:115-120 | however ties are broken, two listings of the same positions put such an article at the same index |
| `ReorderTheorems.WritesRealise` | src/utils/article-order.ts:64-80 | applying the writes gives every article its new position and touches no other article |
| `ReorderTheorems.NewPositionsSeparate` | src/utils/article-order.ts:86-112 | without an inversion, the new positions set the moved article strictly apart from both sides, leave the left side alone, and keep siblings that were strictly ordered strictly ordered |
| `ReorderTheorems.SeparatedIsPlaced` | src/utils/article-order.ts:121-134 | positions that set the moved article apart put it at its index in every listing, so the placement test answers true |
| `ReorderTheorems.RunPlacesArticle` | src/utils/article-order.ts:41-134 | for every section without inversion (any section with normalize), every target and every tie-break: after all writes, any listing has the moved article at its index in the desired order |
| `ReorderTheorems.NormalizeFixesTheOrder` | src/utils/article-order.ts:75-80 | with normalize the only possible listing afterwards is the desired order, numbered from 0 |
| `ReorderTheorems.NoWritesMeansInPlace` | src/tools/help-center.ts:2096-2106 | on a section without inversion, no writes means the listing already is the desired order, so the reply is right |
| `ReorderReply.NeighboursApart` | src/utils/article-order.ts:86-112 | with nothing to write, the moved article lies strictly between its neighbours to be |
| `ReorderReply.InPlaceExactly` | src/tools/help-center.ts:2096-2115 | for every section: with nothing to write, the listing is the desired order if and only if it does not show the moved article against the position of the one standing at its slot |
| `ReorderReply.InPlaceExactlyWhenSorted` | src/tools/help-center.ts:2096-2115 | when the siblings are in order, or all are renumbered, that is if and only if the section has no inversion: the test made too late decides whether the reply is right |
| `ReorderReply.ReplyIsTrueExactly` | src/tools/help-center.ts:2096-2106 | the reply as worded is true at the top or bottom if and only if the listing is the desired order, and before or after a reference if and only if the two are not inverted |
| `ReorderTheorems.InvertedSectionFoolsTheReply` | src/tools/help-center.ts:2096-2115 | an instance: an inverted section with nothing to write and the article not placed as asked |
| `ReorderReply.PlacedExactly` | src/utils/article-order.ts:121-134 | the placement test answers true if and only if, by indices alone, the article stands first or last in the listing, or somewhere before or after the reference: tied positions count for nothing |
| `ReorderReply.MovedExactly` | src/tools/help-center.ts:2107-2143 | the caller is told the article moved if and only if every write was acknowledged and the listing afterwards shows it where asked |
| `ReorderReply.IgnoredWritesAreReported` | src/tools/help-center.ts:2117-2133 | a section that acknowledges every write and goes on listing its articles in the old order is reported as sorted on its own, unless that order shows what was asked |
| `ReorderReply.RefusedExactly` | src/tools/help-center.ts:2060-2094 | a request is turned down exactly when it contradicts itself or names an article that is not listed |
| `ReorderReply.DecidesExactly` | src/tools/help-center.ts:2096-2128 | any other request is answered by what would change: nothing, an inverted listing, more articles than the threshold unconfirmed, or the writes, one for each article that changes |
| `ReorderTheorems.RepeatWritesNothing` | src/utils/article-order.ts:86-113 | recomputing on the desired order with its new positions yields no writes |
| `ReorderTheorems.CascadeWithinOneWrite` | src/utils/article-order.ts:99-112 | any assignment that leaves the left side alone and makes room strictly is nowhere below the cascade, rewrites every right-hand article it rewrites, and so saves at most one write |
| `ReorderTheorems.HistoryKeepsArticles` | src/tools/help-center.ts:833-855 | any number of runs, each stopped after any prefix of its writes, loses and adds no article |
| `ReorderTheorems.RerunPlacesArticle` | src/tools/help-center.ts:830-832 | from the state any interrupted runs left, under any tie-break of the next listing, one complete confirmed run places the article as requested |
| `Frontmatter.ParseFrontmatter` | src/customization/model.ts:85-96 | the line loop fills the fields the specification reads from the block, and leaves the body after it |
| `Frontmatter.PrintedBlock` | src/customization/model.ts:62-87 | the non-greedy match stops at the closing line the printer wrote, whatever the body holds |
| `Frontmatter.PrintedField` | src/customization/model.ts:68-94 | a value written as a JSON string reads back exactly, whatever quotes, colons or backslashes it holds |
| `FrontmatterForms.WindowsIsReadAlike` | src/customization/model.ts:62-96 | a file saved with Windows line ends has the same fields and the same body as without them |
| `FrontmatterForms.SingleQuotedField` | src/customization/model.ts:77-78 | a value in single quotes is read as what is inside, a doubled apostrophe once |
| `FrontmatterForms.PlainField` | src/customization/model.ts:89-94 | a value without quotes is read as it stands, colons and all, but for white space around it |
| `FrontmatterForms.BrokenQuoteIsPlain` | src/customization/model.ts:69-75 | a value that starts with a double quote is read as the JSON string it is, or taken as it stands |
| `FrontmatterForms.NoField` | src/customization/model.ts:90-91 | a line that is indented by a space, starts with a colon or has none is no field |
| `FrontmatterForms.AllBody` | src/customization/model.ts:86-87 | a text that opens no block, or never closes one, is all body |
| `Json.StringifyRoundTrip` | src/customization/model.ts:98 | parsing the JSON string written for any text, lone surrogates included, gives the text back (section 7 of RFC 8259) |
| `Json.EscapeIsOneLine` | src/customization/model.ts:98 | a JSON string holds no control character, so it never breaks its header line |
| `CustomizationModel.ClassifyPath` | src/customization/model.ts:130-157 | the path written for an entry is read back as that entry |
| `CustomizationModel.PathClassified` | src/customization/model.ts:106-157 | every path a taker recognizes is the path written for that entry and no other |
| `CustomizationModel.NamesDisjoint` | src/customization/model.ts:161-167 | no name is served both as a prompt and as a skill |
| `CustomizationParse.TakeFile` | src/customization/model.ts:133-158 | one file goes to the taker of its kind, which updates only its own map, or is ignored |
| `CustomizationParse.TakeFiles` | src/customization/model.ts:154-159 | in whatever order files come, the three maps and the ignored set hold exactly what the tree defines |
| `CustomizationParse.GatherSkills` | src/customization/model.ts:160-174 | skills without a description or named like a prompt are dropped with all their files, the others served |
| `CustomizationParse.ReadSkill` | src/customization/model.ts:162-173 | one gathered skill, if its entry file describes it and no prompt has its name |
| `CustomizationParse.ParseCustomizations` | src/customization/model.ts:124-176 | the two loops compute the tree’s view, independent of the order files are listed in |
| `CustomizationPlan.MemoryBackend.Apply` | src/customization/backend.ts:42-58 | the change loop updates files and authors to exactly the tree the change set defines |
| `CustomizationStorage.FileBackend.Apply` | src/customization/backend.ts:113-128 | the same on disk for a change set that may stop part-way: a prefix of the files, as UTF-8 gives their texts back, and the authors only if all went well |
| `StoredText.SurvivesExactly` | src/customization/backend.ts:79-84 | a text written as UTF-8 and read back is the same if and only if every surrogate stands beside its other half |
| `StoredText.StoredDocument` | src/customization/model.ts:85-96 | a file read back has the same frontmatter fields and body, but for the surrogates replaced in them |
| `CustomizationStorage.StoredPrompt` | src/customization/model.ts:269-274 | a prompt file read back is the file of the same title and description with the text read back: the header is safe |
| `CustomizationStorage.HiddenByName` | src/customization/backend.ts:38-39 | a skill file is left out of the listing exactly by the ending of its own name |
| `CustomizationStorage.PlanStored` | src/customization/model.ts:226-331 | an accepted edit is also accepted with its texts as they are read back, and the changes are then those the store keeps |
| `CustomizationStorage.ViewChanges` | src/customization/backend.ts:61-77 | changing files the store lists and then listing them is changing what was listed |
| `CustomizationStorage.StoredEditRefines` | src/customization/backend.ts:42-130 | every accepted edit, in either store: what is served once it is stored and read back is exactly its stored form applied to what was served, with nothing ignored |
| `CustomizationStorage.StoredEditKeepsLimits` | src/customization/model.ts:226-331 | the limits hold for what is stored, whatever the texts and paths |
| `CustomizationStorage.EditSurvivesExactly` | src/customization/backend.ts:37-84 | an accepted edit is in force as it was made if and only if the store is the memory one, or its texts are well-formed and its skill file is not named like a temporary one |
| `CustomizationPlan.PrintedDocument` | src/customization/model.ts:269-274 | parsing the file a prompt is written to gives exactly its header fields and its text between blank lines |
| `CustomizationPlan.PromptFileRoundTrip` | src/customization/model.ts:111-121 | for every title, description and text, newlines and --- lines included, the written prompt file parses back to exactly them |
| `CustomizationLimits.SumLengths` | src/customization/model.ts:326 | the sum of the lengths over a skill’s files, in any order |
| `CustomizationRefinement.ServedIsParsed` | src/customization/model.ts:124-176 | a view that serves every entry of a tree with nothing ignored is the parse of that tree |
| `CustomizationRefinement.NoHiddenSkill` | src/customization/model.ts:160-167 | in a tree with nothing ignored, a name served as a prompt has no skill files hidden behind it |
| `CustomizationRefinement.RefineInstructions` | src/customization/model.ts:226-246 | an accepted instructions edit, applied and parsed again, is that scope set or removed and nothing else |
| `CustomizationRefinement.RefinePrompt` | src/customization/model.ts:248-275 | the same for a prompt: the trimmed title, description and text, or its removal |
| `CustomizationRefinement.RefineSkillWrite` | src/customization/model.ts:315-330 | the same for a skill file written: the skill created, its description read again, or one file replaced |
| `CustomizationRefinement.RefineSkillRemoval` | src/customization/model.ts:303-311 | removing a skill removes every file of it, and nothing else |
| `CustomizationRefinement.RefineSkillFileRemoval` | src/customization/model.ts:312-313 | removing one further file of a skill keeps the rest of it |
| `CustomizationRefinement.EditRefinesUpdate` | src/customization/model.ts:334-338 | every edit accepted on a store with nothing ignored: applying its changes and parsing again is the abstract update, with nothing ignored after it |
| `CustomizationLimits.TotalOnceSet` | src/customization/model.ts:221-224 | the total checked beforehand is the total of all instructions once the edit is in |
| `CustomizationLimits.EditKeepsLimits` | src/customization/model.ts:226-331 | the per-scope, all-instructions, per-prompt, per-file, file-count and per-skill limits hold after every accepted edit |
| `CustomizationAcceptance.AcceptedExactly` | src/customization/model.ts:226-338 | for all three kinds of edit, from the entries and the abstract update alone: an edit is accepted if and only if its name and path are well formed, what it removes is there, instructions, a prompt text and an entry file’s body are not blank, a prompt has a one-line description, a skill file belongs to a described skill, no name is served as the other kind, and the entry is then within its limits |
| `CustomizationAcceptance.OwnLimitsAreAllLimits` | src/customization/model.ts:226-331 | from entries within the limits, the limits of the edited entry hold after the edit exactly when all limits do |
| `CustomizationAcceptance.NameExactly` | src/customization/model.ts:18 | the name pattern takes exactly the runs of lower-case letters and digits with one hyphen between any two |
| `CustomizationAcceptance.PathExactly` | src/customization/model.ts:203-210 | a skill file path is accepted exactly when it is one to four names between slashes, of letters, digits, dots, hyphens and underscores, none empty or starting with a dot or a hyphen |
| `CustomizationAcceptance.EntryFileExactly` | src/customization/model.ts:277-291 | an entry file is accepted exactly when it is named like its skill, describes it, and has a body that is not blank |
| `CustomizationAcceptance.ServedPromptCanBeWritten` | src/customization/model.ts:248-275 | a prompt that a store serves can be written again, with any description and text that keep the rules |
| `CustomizationAcceptance.ServedSkillFileCanBeWritten` | src/customization/model.ts:293-331 | a file of a skill that a store serves can be written again, with any text no longer than the one it has |
| `CustomizationAcceptance.RefusalNamesARule` | src/customization/model.ts:226-331 | every refusal names a rule the edit really breaks |
| `CustomizationService.Plan` | src/customization/model.ts:334-338 | planning as executed agrees with the specified plan, refusals included: `CustomizationAcceptance.AcceptedExactly` says which |
| `CustomizationService.PlanSkillEdit` | src/customization/model.ts:293-331 | skill planning with its copied file map agrees with the specified plan |
| `CustomizationService.Service.constructor` | src/customization/service.ts:85-110 | a service starts serving what its store parses to |
| `CustomizationService.Service.Edit` | src/customization/service.ts:133-136 | an edit is queued behind all earlier ones |
| `CustomizationService.Service.BeginNext` | src/customization/service.ts:112-113 | the next queued edit is planned against the state served now |
| `CustomizationService.Service.RefuseSkill` | src/customization/service.ts:114 | a skill the catalog would not serve is refused before anything is stored |
| `CustomizationService.Service.Store` | src/customization/service.ts:115-120 | the change set is applied, perhaps in part, and its failure kept |
| `CustomizationService.Service.ReloadStore` | src/customization/service.ts:124-128 | the served state becomes the parse of the store, unless loading fails |
| `CustomizationService.RunConsistent` | src/customization/service.ts:112-137 | over every interleaving, also with change sets that stop part-way, each edit is planned on the state its predecessor left and what is served between edits is the parse of the store |
| `CustomizationService.ServesTheLastRead` | src/customization/service.ts:121-128 | over every interleaving, failed reads included, what is served is what the store listed when it was last read |
| `CustomizationService.NextReadRestores` | src/customization/service.ts:121-128 | one good read restores it: from then on every edit is planned on, and served from, the store again |
| `CustomizationService.FailedReloadServesOldState` | src/customization/service.ts:121-128 | a failed read leaves something else served exactly when the store had moved on |
| `CustomizationService.RunAccounts` | src/customization/service.ts:133-137 | however edits are issued, each finishes once and in the order issued |
| `CustomizationService.RunSound` | src/customization/service.ts:112-137 | when no change set stops part-way, in either store and for all texts and paths, the served state is the stored forms of the accepted edits replayed in order, within all limits, with prompt and skill names disjoint |
| `CustomizationService.FaithfulExactly` | src/customization/service.ts:112-137 | at every point of such a run the accepted edits are in force as they were made if and only if each one stored survives its store |
| `CustomizationService.StartSound` | src/customization/service.ts:99 | a store within limits and with nothing ignored is a sound start |
| `CustomizationService.OutcomesAreTrue` | src/customization/service.ts:112-130 | only a write reaches the store, a refused edit leaves store and served state alone, and an edit counts as stored exactly when every file of its plan and its author were written |
| `TokenStore.Store.constructor` | src/auth/token-store.ts:52-98 | the store starts from the record on disk, if its scope covers what is asked for |
| `TokenStore.Store.GetToken` | src/auth/token-store.ts:253-285 | a call up to its first await: it waits for a refresh in flight, serves the token in hand, or starts the one refresh |
| `TokenStore.Store.Continue` | src/auth/token-store.ts:258-284 | a suspended call going on after what it awaited |
| `TokenStore.Store.StartSignIn` | src/auth/token-store.ts:275-284 | a call without a token joins the pending browser flow or starts the only one |
| `TokenStore.Store.ScheduledRefresh` | src/auth/token-store.ts:312-318 | the keepalive refreshes only when nothing is in flight, and a failure of that refresh never drops the token (`TokenStoreEffects.FailedRefresh`) |
| `TokenStore.Store.InvalidateToken` | src/auth/token-store.ts:291-306 | invalidation keeps the refresh token and marks the access token expired, or drops a record without one |
| `TokenStore.Store.RefreshAnswered` | src/auth/token-store.ts:142-181 | a refresh reply installs the rotated token, or drops it on an on-demand failure |
| `TokenStore.Store.RefreshFinally` | src/auth/token-store.ts:245-247 | a settled refresh frees the slot |
| `TokenStore.Store.BrowserOpened` | src/auth/token-store.ts:196-234 | the flow’s URL is known, or it never opened and may be retried |
| `TokenStore.Store.BrowserAnswered` | src/auth/token-store.ts:198-219 | a finished flow installs its token; a failed one leaves what is there |
| `TokenStore.Store.BrowserFinally` | src/auth/token-store.ts:221-226 | an ended flow frees the slot |
| `TokenStoreTheorems.StepKeeps` | src/auth/token-store.ts:116-318 | every step of every call, timer and reply keeps the invariant |
| `TokenStoreTheorems.StartInvariant` | src/auth/token-store.ts:52-98 | a fresh store satisfies it, whatever is on disk |
| `TokenStoreTheorems.AtMostOneOutstanding` | src/auth/token-store.ts:241-250 | the invariant leaves room for one refresh and one browser flow at most |
| `TokenStoreTheorems.RunInvariant` | src/auth/token-store.ts:136-318 | over every interleaving with a server that rotates (section 6 of RFC 6749): one refresh and one flow at most in flight, no refresh token sent again after the reply that replaced it, and disk equal to memory since the first change |
| `TokenStoreTheorems.ServedTokenIsGood` | src/auth/token-store.ts:253-273 | every access token handed out was at that moment outside the skew window, of unknown expiry and trusted, or minted by the refresh the call waited for |
| `TokenStoreTheorems.InvalidatedIsNotServed` | src/auth/token-store.ts:287-306 | from an invalidation until a reply brings a new token, whatever else happens, no call is given the stored access token |
| `TokenStoreEffects.FailedRefresh` | src/auth/token-store.ts:132-181 | over every run: a refresh that fails leaves token and disk as they were if the keepalive began it, and clears both if a call did |
| `TokenStoreEffects.BegunHow` | src/auth/token-store.ts:241-250 | over every run a refresh in flight is marked to drop the token exactly when no tick of the keepalive began it |
| `TokenStoreEffects.TokenLostExactly` | src/auth/token-store.ts:173-306 | a token is taken away exactly by an invalidation of one that cannot be refreshed, or by the failure of a refresh marked to drop it: by no other event |
| `TokenStoreEffects.InvalidatedCanBeRefreshed` | src/auth/token-store.ts:291-299 | an invalidated token that can be refreshed keeps everything but its expiry, in memory and on disk |
| `TokenStoreEffects.RefreshedCanBeRefreshed` | src/auth/token-store.ts:151-167 | a refresh leaves the access token it was given, the rotated refresh token or else the one it used, the new scope or else the old, and an unknown expiry trusted |
| `TokenStoreEffects.SignedIn` | src/auth/token-store.ts:198-208 | a finished flow leaves what it was given, with the scope asked for when none is reported |
| `TokenStoreEffects.CallDoes` | src/auth/token-store.ts:253-285 | a new call waits for a refresh in flight whatever token is in hand; else it is served a good token; else it starts the one refresh; else it has no token |
| `TokenStoreEffects.WaitsForTheRefresh` | src/auth/token-store.ts:254-258 | over every run it waits as long as that refresh has not settled |
| `TokenStoreEffects.FlowOpensExactly` | src/auth/token-store.ts:271-285 | a browser flow is opened exactly by a call that may prompt, found no token, and finds no flow pending; a silent call opens none |
| `TokenStoreEffects.KeepaliveDoes` | src/auth/token-store.ts:312-318 | a keepalive tick sends the refresh token exactly when there is one and no refresh is in flight |
| `FittingList.TakenIsFirstFailure` | src/utils/formatting.ts:697-702 | the greedy loop takes items until the first that, with its notice, does not fit |
| `FittingList.ReplyExactly` | src/utils/formatting.ts:682-713 | which of the four responses a page gets, by lengths alone: whole, item by item, cut after the first item, or plainly cut |
| `FittingList.NoticeEnds` | src/utils/formatting.ts:687-693 | a closing notice names the items shown, the items on the page and the limit, in this order, and ends with the advice of the caller |
| `FittingList.CutEnds` | src/utils/formatting.ts:37-43 | a text over the limit is cut there, and what follows names its length and the limit and ends with the advice |
| `FittingList.FormatFittingList` | src/utils/formatting.ts:682-713 | the loop over running lengths renders the response the specification chooses, in all four cases |
| `FittingList.WholeItemsWithinLimit` | src/utils/formatting.ts:697-712 | a cut response showing an item is a prefix of whole items inside the limit, and one more would not have fitted |
| `FittingList.ShownIsInTheText` | src/utils/formatting.ts:37-43 | what counts as shown is really in the text: the item whole, or begun where the text is cut |
| `FittingList.NothingLostExactly` | src/utils/formatting.ts:703-711 | exactly when no item the advice skips goes unseen: always for whole items, and for a text cut at the limit when the last skipped item begins before it |
| `FittingList.RoomyLosesNothing` | src/utils/formatting.ts:672-681 | that holds whenever headers leave room and items are longer than the hint a header drops |
| `FittingList.TinyLastItemIsLost` | src/utils/formatting.ts:703-711 | a concrete page where a short last item vanishes behind the plain cut |
| `Paging.AdviceIsExact` | src/utils/pagination.ts:74-83 | the advised page starts exactly the stated number of results before the first one not shown, inside this page and past its start |
| `Paging.NoGap` | src/utils/pagination.ts:63-83 | whichever call a response names, it goes on at or before the first result not credited and past the start of this page, with no larger page size; without one, everything was credited |
| `Paging.NextCallAsksFor` | src/utils/pagination.ts:63-83 | the named call asks for as many results as just fitted, from the last page boundary of that size; for one, right after the first, when not even that fitted; else for the same size and the next page, exactly when results are left |
| `Paging.AdviceNamesItsCall` | src/utils/pagination.ts:81 | the advice spells the page size, the page and what that repeats, in this order, and no other number |
| `Paging.ResponseNamesTheCall` | src/utils/pagination.ts:74-83 | a cut response ends with the advice for just the call the walk makes next |
| `Paging.ShownResultIsInTheText` | src/utils/formatting.ts:682-713 | a result counted as shown by a call is in that response: begun, and whole unless the page is cut inside an item |
| `Paging.WalkShowsEverything` | src/utils/formatting.ts:667-713 | over a fixed result list, always making the call the response names shows every result, as long as no page loses an item |
| `Paging.RoomyWalkLosesNothing` | src/utils/formatting.ts:672-681 | no page does when headers leave room and results are longer than the dropped hint |
| `Paging.FollowingTheAdviceReachesEverything` | src/utils/pagination.ts:63-83 | so from page 1, with any page size, nothing stays unseen |
| `Paging.WalkIsShort` | src/utils/pagination.ts:74-83 | the walk stops after at most one call a result and one more |
| `ViewResume.RowIdExactly` | src/tools/tickets.ts:464-474 | a row is known by the first of its three places that holds a number, if any does |
| `ViewResume.HydrationKeepsViewOrder` | src/tools/tickets.ts:503-517 | whatever order the batch comes in, hydration gives each row in turn the ticket its id names, dropping rows without an id or a ticket |
| `ViewResume.ViewResumesExactly` | src/tools/tickets.ts:2014-2038 | from rows to rows, whatever order the batches come in: reading again the advised number of rows gives what was shown and its cursor all the rest, if and only if the last ticket shown did not stand higher up |
| `ViewResume.IndexOf` | src/tools/tickets.ts:2036 | the first row carrying an id, or -1 exactly when none does |
| `ViewResume.SplitAtFirstRow` | src/tools/tickets.ts:2035-2036 | the first row of a ticket splits the tickets right at it |
| `ViewResume.ResumeIsExact` | src/tools/tickets.ts:421-428 | re-reading the advised number of rows yields exactly the shown tickets and its cursor leaves exactly the others, if and only if the last ticket shown did not stand higher up |
| `ViewResume.DistinctRowsResume` | src/tools/tickets.ts:2019-2038 | for rows with distinct ids, some missing or not hydrated, the advised page size always resumes exactly |
| `Attachments.BlockCostIsExact` | src/tools/tickets.ts:99-106 | measuring an image without its payload and adding its length back is exact: base64 needs no escaping and one byte a character |
| `Attachments.CostsSumToTheArray` | src/tools/tickets.ts:99-102 | accumulated costs plus the opening bracket are the serialized array’s bytes |
| `Attachments.CollectAttachmentBlocks` | src/tools/tickets.ts:296-348 | the loop over running bytes and embedded images produces the specified entries and, if it stops, the notice counting the rest |
| `Attachments.WithinBudgetExactly` | src/tools/tickets.ts:305-341 | whatever downloads return, the response with its notice stays within the budget exactly when what was already spent leaves room for the widest notice |
| `Attachments.NothingIsSilentlyDropped` | src/tools/tickets.ts:248-348 | the first attachments each have one entry about themselves, in order, embedding no more images than allowed and none reported larger than the limit |
| `Attachments.HonestDownloadIsEmbedded` | src/tools/tickets.ts:108-115 | the estimate is exact: an unskipped image whose download is as reported is embedded |
| `AttachmentEntries.EntryExactly` | src/tools/tickets.ts:248-348 | by sizes, counts and weights alone: an image is embedded, before its reference, exactly when it is small enough, allowed, fits as reported, is fetched, and fits as fetched; else its reference with the one reason that applies is listed exactly if that fits |
| `AttachmentEntries.ListingExactly` | src/tools/tickets.ts:313-341 | over the whole listing each entry is that, given the images and bytes of the entries before it, and it stops at the first attachment for which not even that reference fits |
| `Retry.FetchWithRetry` | src/client/retry.ts:226-260 | the attempts made and the sleeps taken are those of a run, each but the last replayed, the last accepted or the third: `RetryRuns.ReplaysExactly` says which |
| `RetryRuns.ReplaysExactly` | src/client/retry.ts:38-43 | by outcomes alone: an attempt is followed by another if and only if it is the first or second and was a failure of a GET, one before any connection, a 429, or a 500 or more to a GET, unless its Retry-After asks for more than 5000 ms; and each sleep is what a response asks for, else the backoff |
| `RetryRuns.RetryAfterExactly` | src/client/retry.ts:161-170 | a Retry-After header asks for a wait exactly when it is a number of seconds or a date, padded or not; a date in the past asks for none |
| `RetryRuns.PreSendExactly` | src/client/retry.ts:95-105 | a failure counts as before any connection exactly when the first code within five levels of its causes is one of four |
| `RetryRuns.OneRun` | src/client/retry.ts:215-260 | the outcomes decide the run: attempts and sleeps are the only ones possible |
| `RetryRuns.BackoffIs` | src/client/retry.ts:155-159 | the waits are 125 and 250 ms, stretched by up to as much again in proportion to the random number, rounded |
| `Retry.BackoffBounded` | src/client/retry.ts:155-159 | the first two backoffs lie between 125 and 500 ms for every random number |
| `Retry.SleepsBounded` | src/client/retry.ts:188-207 | at most two sleeps, each of at most 5000 ms, Retry-After included (section 10.2.3 of RFC 9110) |
| `Retry.OnlyLastApplies` | src/client/retry.ts:38-43 | if a request that never left and a 429 (section 4 of RFC 6585) apply nothing, a write makes at most three attempts and only its last can have applied |
| `Retry.ExecuteRequest` | src/client/zendesk-api.ts:91-124 | the whole request ends as its last attempt decides: a value, or an error with the note for that failure, and none when the body cannot be read |
| `Retry.LandingIsLast` | src/client/retry.ts:38-43 | for all that can be seen of a run, a write may have landed exactly unless its last attempt never left or was refused with 429 |
| `Retry.NotesAreTruthful` | src/client/retry.ts:85-129 | "nothing was applied" is told only when nothing was, nor could have been for all that was seen, and "may have been applied" only when it may |
| `Retry.LandedFailuresAreWarned` | src/client/zendesk-api.ts:28-53 | of the failed writes that may have landed, exactly those are warned about that ended without a response, or with a status of 500 or more whose body was read |
| `Retry.AcceptedWriteFailsSilently` | src/client/zendesk-api.ts:119-123 | every write answered with success and applied fails without a note when its answer cannot be read |
| `Retry.UnreadErrorLosesItsWarning` | src/client/zendesk-api.ts:114-117 | every write applied and answered with a server error loses its warning when that answer cannot be read |
| `Retry.LowStatusCarriesNoWarning` | src/client/zendesk-api.ts:28-53 | every write applied in spite of an error status below 500, other than 429, carries no warning |
| `ListenFeed.Unique` | src/utils/listen-feed.ts:57 | each URI of a request once |
| `ListenFeed.CountUp` | src/utils/listen-feed.ts:59-61 | counting one more URI keeps every count the number of streams naming it |
| `ListenFeed.CountDown` | src/utils/listen-feed.ts:43-51 | counting one URI less does too, dropping a count that would be zero |
| `ListenFeed.ListenFeed.Open` | src/utils/listen-feed.ts:55-65 | a stream opens once; each sink hears of exactly the URIs that had no listener |
| `ListenFeed.ListenFeed.Close` | src/utils/listen-feed.ts:39-53 | a stream ends; each sink hears of exactly the URIs that lose their last listener |
| `ListenFeed.ListenFeed.CloseAll` | src/utils/listen-feed.ts:66-68 | closing everything empties both maps and tells every sink |
| `ListenFeed.ListenFeed.Attach` | src/utils/listen-feed.ts:69-75 | a sink is told every URI listened to now, and follows from then on |
| `ListenFeed.ListenFeed.Detach` | src/utils/listen-feed.ts:72-74 | a detached sink is told nothing more |
| `ListenFeed.ListenFeed.Tell` | src/utils/listen-feed.ts:26-32 | telling every sink keeps each history alternating per URI and equal to what is listened to |
| `ListenFeed.Observe` | src/utils/listen-feed.ts:100-115 | a message opens or ends the stream of its id |
| `ListenFeed.OpenWhileUnanswered` | src/utils/listen-feed.ts:95-115 | a stream is open exactly from its request until the first response or cancellation with its id |
| `ListenFeed.StreamNamesItsRequest` | src/utils/listen-feed.ts:55-65 | a stream listens to exactly the URIs of the request that opened it, each once, whatever is sent under its id later |
| `ListenFeed.PollsWhatIsListened` | src/server.ts:541-547 | a poller fed only by the feed is subscribed to exactly the listened URIs that parse as alert URIs |
| `AlertPoller.AlertPoller.Subscribe` | src/utils/sla-poller.ts:66-74 | a new URI is subscribed without a fingerprint, checked, and the timer armed |
| `AlertPoller.AlertPoller.Unsubscribe` | src/utils/sla-poller.ts:75-78 | the last unsubscription stops the timer |
| `AlertPoller.AlertPoller.Stop` | src/utils/sla-poller.ts:79-82 | every subscription ends at once |
| `AlertPoller.AlertPoller.Tick` | src/utils/sla-poller.ts:49-54 | a round starts over the URIs subscribed now, unless one is running |
| `AlertPoller.AlertPoller.ResumeRound` | src/utils/sla-poller.ts:54-57 | a round goes on to its next URI or ends |
| `AlertPoller.AlertPoller.CheckAnswered` | src/utils/sla-poller.ts:35-47 | an answered check announces a change or records a fingerprint |
| `AlertPoller.AlertPoller.NotifyAnswered` | src/utils/sla-poller.ts:39-46 | a delivered notification is recorded, a failed one is not |
| `AlertPoller.StepKeeps` | src/utils/sla-poller.ts:29-86 | every step of every interleaving keeps the invariant |
| `AlertPoller.EveryRunIsSound` | src/utils/sla-poller.ts:29-86 | over every interleaving: the timer is armed exactly while there is a subscription, there is at most one round, nothing is recorded after unsubscribing, and each notification goes to a subscribed URI with a recorded fingerprint that differs |
| `AlertPoller.ChangeStaysOwed` | src/utils/sla-poller.ts:40-46 | until a notification is delivered the old fingerprint stays, whatever else happens, and every check that finds another announces it again |
| `AlertPoller.DeliveredIsNotAnnouncedAgain` | src/utils/sla-poller.ts:40-43 | once delivered, a change is not announced again: until another delivery no check that finds the same announces it |
| `AlertPoller.FirstCheckSetsTheBaseline` | src/utils/sla-poller.ts:19-24 | a new subscription’s first check, whenever it answers, only sets the baseline as long as no other refresh of that URI is in flight |
| `AlertPoller.OtherRefreshSetsTheBaseline` | src/utils/sla-poller.ts:35-43 | from every state with another refresh of that URI in flight, checking or notifying, one answer to it makes the first check announce a change |
| `AlertPoller.FirstCheckAnnouncesExactly` | src/utils/sla-poller.ts:19-43 | a new subscription’s first check can announce a change if and only if another refresh of its URI is in flight |
| `AlertPoller.LeftoverCheckSetsTheBaseline` | src/utils/sla-poller.ts:35-43 | an instance: a subscription renewed while a check is out announces on its first check |
| `AlertRounds.RoundVisitsItsOrder` | src/utils/sla-poller.ts:49-57 | over every interleaving a round looks at all it set out to, each once and in order, and is not over before |
| `AlertRounds.TickStartsARound` | src/utils/sla-poller.ts:49-54 | a tick sets out over every URI subscribed to, unless a round is running |
| `AlertRounds.RoundCanEnd` | src/utils/sla-poller.ts:35-57 | no answer stalls the poller: from any reachable state a running round ends, and the next can start, once what it awaits is answered, with any results and failures whatever |
| `AlertRounds.SubscribingChecks` | src/utils/sla-poller.ts:66-74 | a new subscription is checked at once |
| `GrantRegistry.Registry.AcquireEntry` | src/utils/grant-registry.ts:55-62 | a grant’s entry, created on first use and refreshed, or nothing for another subject |
| `GrantRegistry.Registry.ServeModern` | src/transports/http.ts:673-709 | a request acquires its entry and counts unless it is a listen stream |
| `GrantRegistry.Registry.DropSlot` | src/utils/grant-registry.ts:45-52 | a slot is removed before its entry is closed |
| `GrantRegistry.Registry.CloseGrant` | src/utils/grant-registry.ts:63-66 | a grant is closed only if the entry handed in is still its own |
| `GrantRegistry.Registry.Answer` | src/transports/http.ts:709-714 | the end of a request, which may close a revoked entry |
| `GrantRegistry.Registry.OnUnauthorized` | src/transports/http.ts:596-602 | a 401 revokes the entry and closes nothing yet |
| `GrantRegistry.Registry.StartSweep` | src/utils/grant-registry.ts:67-69 | a sweep takes its cutoff and a snapshot of the slots |
| `GrantRegistry.Registry.ContinueSweep` | src/utils/grant-registry.ts:69-75 | one turn of the sweep, between closes |
| `GrantRegistry.StepKeeps` | src/utils/grant-registry.ts:38-83 | every step of every interleaving keeps the invariant |
| `GrantRegistry.EveryRunClosesOnce` | src/utils/grant-registry.ts:38-83 | over every interleaving: an entry in the registry is never closed, one that left it was closed exactly once, and in-flight counts are the counted requests |
| `GrantRegistry.EntryServesOneSubject` | src/utils/grant-registry.ts:55-62 | as long as an entry is held it serves one key and one subject |
| `GrantRegistry.OtherSubjectIsRefused` | src/utils/grant-registry.ts:57 | a request changes nothing at all exactly when the grant is another subject’s |
| `GrantRegistry.SweepSparesTheUsed` | src/utils/grant-registry.ts:67-75 | with a positive timeout a sweep drops nothing acquired or created since it began |
| `GrantRegistry.ZeroTimeoutSweepsTheUsed` | src/utils/grant-registry.ts:67-75 | with a timeout of zero it may: a concrete run |
| `GrantRegistry.LastAnswerClosesTheRevoked` | src/transports/http.ts:709-714 | the end of a request closes its entry exactly when that is revoked with no counted request left, once, and never a newer entry of the key |
| `GrantRegistry.UnauthorizedClosesAtTheEnd` | src/transports/http.ts:596-714 | a 401 takes the entry away, though not at once: whatever happens after it, the end of a request closes that entry exactly when it leaves no counted request on it |
| `GrantSweeps.SweepLeavesNoneIdle` | src/utils/grant-registry.ts:67-75 | whatever happens between its turns: when a sweep is over, no slot it started from is left that had then been idle for the timeout and was not used since |
| `GrantSweeps.NothingIsLeftOpen` | src/utils/grant-registry.ts:76-78 | closing everything leaves no slot, and every entry there ever was closed exactly once |
| `ArticleSections.ParseSections` | src/utils/article-sections.ts:41-111 | the loop over nodes with its current section gives the specified split |
| `ArticleSections.SplitRoundTrip` | src/utils/article-sections.ts:61-111 | only the first section may lack a heading, no content holds one, and headings and contents written out are the article |
| `ArticleSections.ParseRoundTrip` | src/utils/article-sections.ts:41-42 | parsing loses nothing exactly when the article is not just white space |
| `ArticleSections.WriteRoundTrip` | src/utils/article-sections.ts:125-127 | any proper list of sections, written out, splits into itself |
| `ArticleSections.ReplacementIsLocal` | src/utils/article-sections.ts:113-128 | replacing one section’s content leaves every other section unchanged and in order |
| `ArticleSections.SectionCountAfter` | src/utils/article-sections.ts:165-208 | sections afterwards = before + headings in the content, less one when the intro is reported lost: exactly but for white space sent for the intro of an article with more sections |
| `ArticleUpdates.TrimmedTitleCompares` | src/utils/article-sections.ts:137 | a trimmed title compares as the untrimmed one |
| `ArticleUpdates.OwnHeadingIsAnEcho` | src/utils/article-sections.ts:139-157 | a heading sent back as it is, or as the outline shows it, is recognised |
| `ArticleUpdates.EchoChangesNothing` | src/utils/article-sections.ts:143-163 | content led by the echo gives the same article as without it, exactly when the rest is not led by the echo again |
| `ArticleEchoes.NothingElseIsTakenOff` | src/utils/article-sections.ts:143-163 | content is taken as sent unless its first node past white space is a heading of the section’s level whose words, in order, are those of the section’s heading; then everything after it is taken, from its first visible character on; and what is taken replaces exactly the section’s old content |
| `ArticleEchoes.WordsExactly` | src/utils/article-sections.ts:137 | the words a text compares by are the only ones it can be taken apart into at its white space |
| `ArticleEchoes.NormalizedAlike` | src/utils/article-sections.ts:137 | two texts compare equal if and only if they have the same words in the same order |
| `ArticleEchoes.WarningsAreTrue` | src/tools/help-center.ts:662-692 | every warning is true of the article as stored: its numbers of sections, the headings it counts, and what it says of the intro and of later indexes |
| `ArticleUpdates.UpdatedSections` | src/utils/article-sections.ts:181-208 | sections before an update keep their index, those after follow its headings |
| `ArticleUpdates.WarnsExactlyWhenTheOutlineChanges` | src/tools/help-center.ts:662-692 | the tool warns exactly when the outline’s headings are no longer the same, white space sent for an intro aside |
| `Durations.FormatMinutes` | src/utils/durations.ts:34-48 | the loop over units spells the rounded magnitude |
| `Durations.DurationRoundTrip` | src/utils/durations.ts:12-48 | every natural number of minutes is read back from its spelling |
| `Durations.DurationExactly` | src/utils/durations.ts:3-23 | a text is read as a duration if and only if, trimmed and in lower case, it is weeks, days, hours and minutes in this order, not all left out, and nothing else |
| `Durations.SpellingInjective` | src/utils/durations.ts:34-48 | two numbers never share a printed spelling |
| `Durations.ZeroPadded` | src/utils/durations.ts:12-23 | a duration with a zero in front is read as the same one, or refused alike |
| `Durations.EveryDurationHasOtherSpellings` | src/utils/durations.ts:3-23 | every number is read from more than one spelling, so the claim that a duration has one holds for none |
| `Durations.OneHourTwoSpellings` | src/utils/durations.ts:3-23 | an instance of another kind: 60m and 1h |
| `SlaPreferences.ApplyPreferenceChange` | src/utils/sla-preferences.ts:88-104 | the loop over families refuses exactly when one is refused, naming the first, and stores what each asks for |
| `SlaPreferences.ChangesKeepOrder` | src/utils/sla-preferences.ts:57-104 | over any sequence of changes from ordered pairs, critical stays at or below warning, stored and in force |
| `SlaPreferences.ChangeTakesEffect` | src/utils/sla-preferences.ts:57-104 | an accepted change is in force afterwards: the given halves, the other halves as they were, a reset the server default |
| `SlaPreferences.RefusedExactly` | src/utils/sla-preferences.ts:57-80 | a family refuses a change exactly for a half that does not read, a reset that also sets, or a pair that would end up the wrong way round with the half in force |
| `SlaPreferences.UntouchedChangesNothing` | src/utils/sla-preferences.ts:88-104 | an empty change changes nothing stored and nothing in force |
| `SlaPreferences.PairRoundTrip` | src/utils/sla-thresholds.ts:34-61 | a printed pair is read back, or refused when the wrong way round |
| `SlaPreferences.ReadAlertsAnswer` | src/utils/sla-alerts-elicitation.ts:94-112 | each edited field is re-spelled when it parses and noted when it does not |
| `SlaPreferences.EditReachesTheStore` | src/utils/sla-alerts-elicitation.ts:100-110 | an accepted form answer, re-spelled, is never refused and puts exactly its numbers in force |
| `SlaPreferences.OverrideKeepsOrder` | src/utils/sla-alerts-elicitation.ts:120-138 | every accepted override keeps the order in both families, the given half wins, and the other moves only to meet it |
| `SlaPreferences.OverrideRefusedExactly` | src/utils/sla-alerts-elicitation.ts:120-138 | an override is refused exactly for a half that does not read, or for both given the wrong way round |

## Left out

- Network, OAuth wire traffic, the protocol SDK, the browser flow, atomic file writes: their outcomes are parameters or events.
- HTML parsing and Markdown conversion: an article is a sequence of top-level nodes, assumed to concatenate node-wise; word counts are not modelled.
- `setToken` and two processes sharing one token file: either can install an arbitrary record. Saving to disk is taken to succeed.
- The skill catalog's own check of a skill: it may refuse any skill edit (`RefuseSkill`), for reasons the model does not know.
- Change listeners, logging and warnings, tool schemas, descriptions and the texts of other replies.
- Numbers above 2^53, where JavaScript rounds; durations, counts and ids are exact here.
- Section listing by locale: a listing is any order of the section's articles sorted by position.
- A minimal number of reorder writes overall: the moved article may be rewritten where it already fits, and rewriting the left side can be cheaper. `CascadeWithinOneWrite` compares only with assignments that leave the left side alone.
- Sibling order across an interrupted reorder: it can change, so it is not claimed.
- CustomizationParse.ParseCustomizations: `ignored` is a set, so the order ignored files are listed in is not modelled.
- CustomizationRefinement.EditRefinesUpdate: the order in which a removed skill's files are listed is a parameter; the result does not depend on it.
- CustomizationStorage.FileBackend.Apply: the texts are those the files read as, so bytes that are no UTF-8 appear decoded; a file system that ignores case, or refuses a name, is not modelled beyond a change that fails.
- CustomizationService.Service.Store: the service object runs on the file store; the theorems about its runs hold for the memory store too.
- Retry.FetchWithRetry: an error's cause chain is a list of the codes found at each level, so a chain that loops is one that ends after five levels.
- Paging.WalkShowsEverything: the result list does not change between calls, and the service's own cap on search results is not modelled.
- Attachments.CollectAttachmentBlocks: downloads are given beforehand, one outcome for each attachment, used only if it is fetched.
- ListenFeed.ListenFeed.Open: a sink that calls back into the feed while being told is not modelled; a sink's history starts over when it is attached.
- ListenFeed.Observe: messages arrive already read as requests, cancellations and responses; the reading of a malformed filter is left out.
- AlertPoller.EveryRunIsSound: an error handler that itself throws is not modelled.
- GrantRegistry.EveryRunClosesOnce: the clock never goes back; a sweep may pause before each slot, which covers the pauses the code makes. The token a request leaves on its entry is not modelled.
- ArticleUpdates.OwnHeadingIsAnEcho: the code finds the leading heading by a pattern on the text, which a `>` inside an attribute value of its tag defeats; such a heading is not taken off there, and the model has only headings the pattern reads as the parser does.
- ArticleUpdates.EchoChangesNothing: headings are taken as parsed nodes, with the same limit.
