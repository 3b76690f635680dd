# A model of the model store, its transparency-log checks, and its runtime

This project models, in Dafny, the parts of the repository where a mistake
would be silent: what makes a log entry count as included, what garbage
collection and removal keep, what the router holds in memory while requests
interleave, what a failed copy leaves behind, what a wildcard admits, and what
a parser makes of bytes it did not write. Each part is a set of small modules.

| part | modules |
|---|---|
| inclusion proofs and the tree they are about | `Bits`, `Merkle` |
| signed checkpoints and whole log entries | `Numbers`, `Checkpoint`, `LogEntry` |
| the store: graph, collection, repair, index, removal, locking | `Graph`, `Collection`, `Repair`, `Index`, `Removal`, `Store`, `Locking`, `Stale` |
| the router: the table as one holder of its mutex works on it, all interleavings, the budget, victims | `Instances`, `Router`, `Budget`, `Eviction`, `Recency`, `Interference`, `Stopping` |
| copies out of the store | `Materialize`, `Unpack`, `Download` |
| patterns | `Glob`, `Subject`, `Segments` |
| GGUF headers | `Gguf` |
| attested layers | `Attestation` |
| shared | `Wrappers`, `Primitives`, `Text`, `Sets` |

Code that changes state is modelled by classes and methods, each proved against
a specification function or a stated property; what several processes or
goroutines do is a state machine over its steps, with the properties stated
over whole runs. A failure that the operating system or the network may cause
at a step is a nondeterministic choice, or a parameter, at that step. Hashing
is an unknown function: a claim that two inputs are equal because their hashes
are is always "equal, or here is a collision".

What the code computes is also stated without the functions that compute it: a
tree head by the words of RFC 6962, a closure by chains of references, a pattern
by its shape, a header by its bytes. Each such statement is an equivalence, or
holds for all the code promises to accept.

## What was found

- **A checkpoint does not always read back.** The signature line is split on
  white space and its third word is taken, so an origin of several words, or of
  none, makes the log's own signature unreadable. The round trip holds if and
  only if the origin is one word (`Checkpoint.PrintReadsBack`).
- **`Held` and collection can disagree in one case.** Collection first drops
  the entries whose blob is missing. If a tag still names a missing blob that
  is not a manifest, the walk records that blob's digest, so an untagged
  description of it counts as held, and is then collected
  (`Repair.HeldMayOverstate`). `Held` never errs the other way
  (`Repair.HeldNeverUnderstates`). In every well-formed store the two agree on
  everything stored if and only if no tagged description owes its admission to
  a lost blob, and all that is stored of what untagged descriptions of such
  blobs reach is kept anyway (`Repair.HeldAgreesExactlyWhen`).
- **A victim may be serving a request, and may not be the oldest.** The look
  over the table reads each instance under that instance's own mutex, so a
  request can begin on one between its reading and its unlinking
  (`Interference.BusyVictim`); the sweeper has the same gap. A victim was
  unpinned and idle when it was read, and is idle as it is unlinked if and only
  if as many requests ended on it in between as began
  (`Eviction.VictimsWereIdle`). The candidate's last use is read again at each
  comparison, so using it meanwhile can make a more recent instance the victim
  while an older one stays (`Interference.RecentVictim`). That takes a use of a
  candidate while it is one (`Recency.MisledMeansUsed`); without one the victim
  is the least recent by what was read of each (`Recency.VictimsWereOldest`),
  and with nobody using any instance meanwhile it is so as it is unlinked
  (`Recency.QuietRoundsEvictTheLru`).
- **The router's budget can be overshot by overlapping loads.** The mutex is
  dropped between making room and inserting, so k loads can each be promised
  the whole budget and all be loaded (`Budget.OverlapReachesTheBound`). With at
  most k such loads at a time, k times the budget always holds
  (`Budget.BudgetHolds`), so the bound is tight.
- **A shutdown may not be the end.** It takes out what is in the table at that
  moment; loads under way go on. With no new request the table stays empty,
  however things go on, if and only if no load under way may still land: each
  has landed, or is making room for a model larger than the whole budget
  (`Stopping.ShutdownIsFinalExactlyWhen`). A load that has only started is
  enough (`Stopping.LoadsOutliveShutdown`).
- **A refusal for lack of room may have unloaded something.** When `makeRoom`
  gives up, every idle unpinned instance is gone (`Instances.Table.MakeRoom`);
  a table where one is lost to a load that is then refused is in
  `Instances.RefusedAfterUnloading`.
- **A refused removal may have deleted something.** Asked to remove a digest
  rather than a tag, the store deletes the tagged descriptions that would go
  along, and only then finds that a digest is no tag (`Store.RefusedDigest`).
  Such a refusal changes nothing if and only if the reference is no
  description without another tag, or no other tagged description has the
  digest as its subject (`Store.DigestRefusalChangesNothingWhen`).
- **A tag may go unreported.** When the library fails to delete a manifest's blob
  the manifest's entries have gone already, and the report of what went lacks
  its tags (`Store.UnreportedTag`). The report is whole if and only if no
  deletion failed that way (`Store.ReportIsWholeWhen`).
- **A directory made for a pull may stay behind.** The clean-up is set only
  once the output directory is open. If the run made the directory and cannot
  open it, the directory stays; on every other failure it is as it was found
  (`Materialize.Output.Materialize`).
- **An error reading a tree counts as a mismatch.** A check that cannot read a
  matching runtime tree leads to its removal (`Unpack.MisreadTakesItAway`).
  Nothing else does (`Unpack.AlteredOnlyAfterMisread`), and whatever is
  installed later matches again (`Unpack.InstalledWhole`).
- **A runtime layer may be named by a lone slash.** Its name is compared with
  its base name, and a slash is its own base, so it passes beside the plain
  names (`Unpack.ValidNames`). No directory holds such a name, so no unpacking
  of that artifact ever succeeds (`Unpack.SlashNeverUnpacks`).
- **A wildcard domain may pin an empty label.** The two-label rule counts dots,
  so `*@*..com` and `*@*.com.` pass. A label of the pinned tail is empty if and
  only if the tail has two dots next to each other or ends in one
  (`Subject.EmptyLabels`).
- **Validation refuses more than patterns that can match nothing.** Some
  reference satisfies a pattern if and only if no segment of it is empty
  (`Segments.MatchesAReference`); the other refusals are limits of taste and
  cost.
- **A blob of no bytes cannot be downloaded from scratch.** With no partial
  file there is nothing to fetch and nothing to install, and the attempt fails;
  on a faultless attempt success is equivalent to a size above zero or a
  partial file already there (`Download.Transfer.TryDownload`).

## Model

| member | source | states |
|---|---|---|
| Bits.InnerIsLeast | internal/keyless/tlog.go:331 | the bit length of the exclusive or is at most m exactly when the two numbers agree above bit m, so `inner` is the least such m |
| Merkle.ComputeSplit | internal/keyless/keylesstest/merkle.go:64-70 | the doubling loop computes the split |
| Merkle.SplitIsLargest | internal/keyless/keylesstest/merkle.go:63-70 | every power of two below n is at most the split (section 2.1 of RFC 6962) |
| Merkle.RootFromInclusionProof | internal/keyless/tlog.go:325-356 | the two loops compute the fold of inner and border hashes; a bad size, index or number of hashes is refused as the code refuses it |
| Merkle.InnerPlusBorder | internal/keyless/tlog.go:331-336 | for every index and size, powers of two or not, the length demanded is the length of the recursive path |
| Merkle.FoldIsRecursion | internal/keyless/tlog.go:337-356 | the bit-driven fold equals the top-down recursion of section 2.1.1 of RFC 6962, for every tree size |
| Merkle.PathRebuildsRoot | internal/keyless/keylesstest/merkle.go:51-90 | completeness: the prover's path has the one accepted length and rebuilds the subtree root |
| Merkle.ChildrenBind | internal/keyless/tlog.go:309-315 | equal parents have equal children, or exhibit a collision |
| Merkle.LeafIsNoNode | internal/keyless/tlog.go:298-315 | the leaf hash of no body is the hash of an interior node, whatever its children, or a collision is exhibited |
| Merkle.RootBindsPath | internal/keyless/keylesstest/merkle.go:51-90 | soundness of the recursion: what rebuilds the root is the leaf at that index with its own path, or a collision is exhibited |
| Merkle.InclusionExact | internal/keyless/tlog.go:325-356 | verifier against tree, both ways: answering the tree's root means the leaf at that index with its path, or a collision; and the leaf with its path is answered with the root |
| Merkle.Tree.Add | internal/keyless/keylesstest/merkle.go:26-32 | an entry is appended, the leaves stay the hash-sized leaf hashes of the entries added in order, and its index is returned |
| Merkle.HeadIsRoot | internal/keyless/keylesstest/merkle.go:26-61 | the root computed over the leaf hashes of any entries is the one head section 2.1 of RFC 6962 gives the entries, its two prefixes written out |
| Merkle.PathIsAudit | internal/keyless/keylesstest/merkle.go:81-90 | the path computed is the one audit path section 2.1.1 gives the entries |
| Merkle.Tree.InclusionProof | internal/keyless/keylesstest/merkle.go:74-79 | a proof is given exactly for the indices of entries added; it is the standard's audit path, and the verifier rebuilds from it and the entry's own leaf hash the standard's head of all of them |
| Numbers.ParseFormat | internal/keyless/tlog.go:189-195 | every non-negative 64-bit number, printed, parses back to itself |
| Numbers.ParseIntReads | internal/keyless/tlog.go:189-192 | a text is read as a 64-bit number exactly when it is a sign or none and then digits, one at least, whose places add up to it |
| Numbers.FormatsPlainly | internal/keyless/keylesstest/fixture.go:351-352 | a number is printed in digits whose places add up to it, with no leading zero |
| Checkpoint.VerifyAnyNoteSignature | internal/keyless/tlog.go:212-235 | the line loop succeeds exactly when some line's signature covers the text, and otherwise tells no readable signature from none that verifies |
| Checkpoint.VerifyCheckpoint | internal/keyless/tlog.go:173-206 | the parser with its early returns is the specification the lemmas below are about |
| Checkpoint.ReadTextStates | internal/keyless/tlog.go:184-205 | a text is read as stating a size and root exactly when its second line writes that size, above zero, and its third decodes to those 32 bytes, whatever lines follow |
| Checkpoint.LineSignatureReads | internal/keyless/tlog.go:213-223 | a line carries a signature exactly when its words are a dash, a name, and base64 of four bytes and then the signature, not empty |
| Checkpoint.AnswerIsSigned | internal/keyless/tlog.go:173-206 | an answer is what a text states over which a signature line carries a signature that verifies, and that text begins the envelope |
| Checkpoint.OwnLineSignature | internal/keyless/keylesstest/fixture.go:358-360 | the log's own signature line is read back exactly when the origin is one word |
| Checkpoint.PrintReadsBack | internal/keyless/keylesstest/fixture.go:349-361 | a printed checkpoint, with any further text, blank lines too, and amid any lines that do not verify, reads back to its root and size if and only if the origin is one word |
| LogEntry.VerifyEntryTimestamp | internal/keyless/tlog.go:143-164 | no fault exactly when a promise is there and the log's key signed this body, time, log and index, as the log writes them |
| LogEntry.TimestampIsWritten | internal/keyless/keylesstest/fixture.go:372-380 | the text checked is the one the log writes by hand |
| LogEntry.TimestampBinds | internal/keyless/tlog.go:125-152 | one signed text is of one body, time, log and index |
| LogEntry.VerifyLogEntry | internal/keyless/tlog.go:43-118 | accepted exactly when dated by a pinned log in its window, with a signed checkpoint whose root the inclusion proof rebuilds and a body that describes the signature; the time returned is the dated one; and every genuine entry is accepted |
| LogEntry.GenuineIsAcceptable | internal/keyless/tlog.go:43-118 | completeness: a body that is an entry of a tree of the standard's, with its audit path, dated by the log, and a checkpoint over that head as a log prints it, is accepted |
| LogEntry.LeafBinds | internal/keyless/tlog.go:301-306 | equal leaf hashes have equal bodies, or exhibit a collision |
| LogEntry.AcceptedIsInTheSignedTree | internal/keyless/tlog.go:43-118 | an accepted body is the entry at the proof's index of any list of bodies with the signed size whose head, by the standard, is the signed root, or a collision is exhibited |
| Glob.LeftmostSuffices | internal/keyless/cert.go:246-254 | taking the leftmost occurrence never loses a match |
| Glob.GlobMatch | internal/keyless/cert.go:239-256 | true exactly when some choice of text for each star makes the pattern the string |
| Glob.LiteralStart | internal/keyless/cert.go:239-256 | a literal beginning of a pattern begins every string it matches |
| Glob.LiteralEnd | internal/keyless/cert.go:239-256 | a literal end of a pattern ends every string it matches |
| Subject.UrlPatternShape | internal/keyless/cert.go:95-125 | an accepted URL pattern is literal up to and including the slash after its account |
| Subject.UrlPinsAuthority | internal/keyless/cert.go:87-183 | every string an accepted URL pattern matches reads as a URL of the same scheme, host and account |
| Subject.MailPatternShape | internal/keyless/cert.go:189-215 | an accepted address pattern ends in its domain; a wildcarded domain ends in a literal tail that starts with a dot and holds another |
| Subject.MailPinsDomain | internal/keyless/cert.go:126-215 | every string an accepted address pattern matches is an address in its domain, or under its literal tail of two labels or more |
| Subject.ExactMatchesItself | internal/keyless/cert.go:226-256 | a pattern without a wildcard matches only itself |
| Subject.ClassifiedByShape | internal/keyless/cert.go:87-217 | a pattern is a URL's exactly when it has a wildcard and is a literal scheme, host and account and then anything; an address's exactly when it is no URL and its domain is literal, or literal from its last wildcard on for two labels; exact when it has no wildcard and is not empty; and else refused |
| Subject.IdentityMatches | internal/keyless/cert.go:226-234 | true exactly when the issuer is equal, the pattern has the shape of an exact one or of the subject's kind, and it matches |
| Subject.AcceptedIsPinned | internal/keyless/cert.go:87-234 | an accepted identity has the issuer, the kind and the authority its pattern states |
| Subject.EmptyLabels | internal/keyless/cert.go:189-215 | for every accepted address pattern with a wildcarded domain: a label of its pinned tail is empty if and only if the tail has two dots next to each other or ends in one |
| Subject.DoubledDotIsAccepted | internal/keyless/cert.go:189-215 | a tail of two dots and any plain word is accepted, and has an empty label |
| Subject.TrailingDotIsAccepted | internal/keyless/cert.go:189-215 | a tail of a dot, any plain word and a dot is accepted, and has an empty label |
| Segments.DoubleStar | internal/trustpolicy/match.go:28-40 | a leading double star is satisfied exactly when the rest is by some later part of the name |
| Segments.MatchSegments | internal/trustpolicy/match.go:27-45 | true exactly when some assignment of segment runs to the double stars works; the recursive calls are bounded by the recurrence for the number of double stars |
| Segments.CallsBounded | internal/trustpolicy/match.go:27-45 | that recurrence is at most k times (n + 1) to the k |
| Segments.ValidatePattern | internal/trustpolicy/match.go:71-93 | accepted exactly when not empty, each segment is well formed, and there are at most four double stars |
| Segments.Match | internal/trustpolicy/match.go:22-25 | true exactly when the split pattern is satisfied by the split name, in at most 4 (n + 1) to the fourth calls for a validated pattern |
| Segments.MatchesAReference | internal/trustpolicy/match.go:68-93 | some reference of non-empty plain segments satisfies a pattern if and only if no segment of it is empty; so every pattern that validates matches one |
| Graph.NodesClosed | internal/store/store.go:992-1047 | the reachable nodes hold the roots and the successors of each of them |
| Graph.NodesLeast | internal/store/store.go:992-1047 | and no smaller set does |
| Graph.NodesAreLedTo | internal/store/store.go:978-1047 | a descriptor is reachable exactly when a chain leads to it from a root, each naming the next as its config, a layer or child, or, if of a type that carries one, its subject |
| Graph.SuccessorClosure | internal/store/store.go:992-1047 | the worklist returns exactly the digests such chains end at that are stored or name no manifest, and ends on cyclic graphs |
| Graph.ReachUnaffected | internal/store/store.go:834-870 | deleting what a closure does not record leaves that closure unchanged |
| Collection.WhatDescribes | internal/store/store.go:1061-1122 | an entry has the subject its readable manifest states, and is a description exactly when it has one and goes by the type of a signature, an attestation or a bill of materials |
| Collection.DescribingTypes | internal/store/store.go:1085-1122 | the artifact types taken for descriptions are six, and every type that begins as a Sigstore bundle or a cosign artifact does |
| Collection.SubjectFacts | internal/store/store.go:1061-1084 | an entry with a subject is stored, and its subject is a successor of it |
| Collection.AdmittedClosed | internal/store/store.go:737-788 | the admitted set is closed under the reasons to stay |
| Collection.AdmittedLeast | internal/store/store.go:737-788 | and contained in every set that is |
| Collection.AdmittedIsUpheld | internal/store/store.go:737-830 | a referrer is admitted exactly when a list of entries ends with it in which each has its reason from what comes before: a chain leads to its subject; or it has a tag, and one leads to it or its subject is gone |
| Collection.Admit | internal/store/store.go:737-788 | the loop returns that least set, whatever order the index lists its entries in, in at most one pass per referrer and one |
| Collection.WithReferrersOf | internal/store/store.go:875-894 | one pass adds exactly what the untagged referrers of something reachable reach |
| Collection.Keeps | internal/store/store.go:482-504 | returns the kept set: the closure of the tagged entries that stay, with their untagged referrers' |
| Collection.KeptMeans | internal/store/store.go:482-504 | a digest is kept exactly when a chain leads to it from an entry that keeps its place, or from an untagged one whose subject such a chain ends at |
| Collection.FirstPassKeeps | internal/store/store.go:709-732 | unlinking the orphaned tagged descriptions leaves the kept set as it was |
| Collection.SecondPassKeeps | internal/store/store.go:834-870 | deleting the unreachable untagged entries leaves the kept set as it was, and no untagged entry has a subject outside the tagged closure |
| Collection.HeldPredicts | internal/store/store.go:467-504 | stored content is held exactly when it survives both passes and the collector; after the passes the collector has nothing it cannot place |
| Repair.HeldPredictsCollection | internal/store/store.go:563-628 | the same with the repair that drops entries without blobs run first, if what is reached by those that describe a lost blob untagged is kept anyway |
| Repair.AgreementNeeds | internal/store/store.go:563-628 | and agreement implies that all that is stored of what those reach is kept without the lost blob, in every well-formed store |
| Repair.HeldAgreesExactlyWhen | internal/store/store.go:563-628 | in every well-formed store the two agree on everything stored if and only if no tagged description owes its admission to a lost blob, and all that is stored of what the untagged descriptions of such reach is kept anyway |
| Repair.HeldNeverUnderstates | internal/store/store.go:467-477 | whatever collection keeps was held, in every well-formed store |
| Repair.HeldMayOverstate | internal/store/store.go:609-628 | a store in which something held is collected |
| Index.NamedEntries | internal/store/store.go:939-953 | a row holds its name exactly when it is the last to claim it |
| Index.ReadIndex | internal/store/store.go:664-702 | each row becomes an entry with the tag it holds and the head its manifest reads |
| Index.ViewWellFormed | internal/store/store.go:664-702 | entries read from an index of one descriptor per digest are well formed |
| Index.ViewTagsUnique | internal/store/store.go:664-702 | no two entries share a tag |
| Index.DropRowsView | internal/store/store.go:379-386 | deleting the rows and blobs of some digests takes exactly their entries out of the view |
| Index.UntagRowsView | internal/store/store.go:360-365 | dropping a tag changes only the entry that held it |
| Index.ForgetRowsView | internal/store/store.go:898-935 | forgetting untagged rows takes exactly those entries out of the view |
| Removal.GoingClosed | internal/store/store.go:422-436 | what goes with a description holds it and every tagged description of something going |
| Removal.GoingLeast | internal/store/store.go:422-436 | and nothing else goes |
| Removal.GoingIsDescribed | internal/store/store.go:422-436 | beside the one named, exactly what a chain of tagged descriptions from it ends with goes |
| Removal.Depths | internal/store/store.go:422-436 | the loop finds exactly what goes, each at a depth one past a subject's |
| Removal.SortedDeepestFirst | internal/store/store.go:446 | the sort orders by falling depth and loses nothing |
| Removal.Deletable | internal/store/store.go:412-462 | only untagged when another tag names it, refused exactly when what stays keeps something going, otherwise a plan of exactly what goes, deepest first |
| Removal.HeldThroughATag | internal/store/store.go:447-460 | looking for a tagged description still held finds one exactly when something going is still kept |
| Removal.PlanIsSafe | internal/store/store.go:323-373 | a plan takes exactly what goes, and every place it may stop strands no description if and only if the one asked for describes none of those going along |
| Store.Store.IsHeld | internal/store/store.go:467-477 | true exactly for the digests of the kept set, and so for whatever a chain leads to from a tagged artifact |
| Store.Store.DropIndexEntriesWithoutBlobs | internal/store/store.go:609-628 | afterwards exactly the entries whose blob is there remain, and no blob has gone |
| Store.Store.UnlinkOrphanedTagged | internal/store/store.go:709-732 | performs the first pass, entry by entry, on index and blobs |
| Store.Store.DeleteUnreachableUntagged | internal/store/store.go:834-870 | performs the second pass, deleting or forgetting each unplaced entry |
| Store.Store.ForgetUntagged | internal/store/store.go:898-935 | strikes exactly the untagged entries of the digests given |
| Store.Store.GC | internal/store/store.go:563-598 | the blobs and entries left are exactly those that survive, none new or altered, every row with its blob, the tags left those of the tagged entries held; nothing stored that a chain leads to from a tagged artifact goes; and what is left is what was held beforehand under the condition above |
| Store.CarriedSurvives | internal/store/store.go:563-598 | the configs, layers, children and subjects of tagged artifacts, and theirs in turn, survive collection, repair included |
| Store.Store.Resolve | internal/store/store.go:303-305 | a tag is preferred to a digest, and nothing is found exactly when neither names an entry |
| Store.Store.CarryOut | internal/store/store.go:323-373 | the deletions, the tag and the last deletion, with a failure at any of them: what was deleted by then is safe, exactly its tags are reported, and each way to end says how far it got |
| Store.Store.RemoveReporting | internal/store/store.go:323-373 | not found exactly when nothing has the tag or digest, held exactly when something going is kept by the rest, and neither changes anything; a removal deletes nothing the rest keeps, nor anything a chain leads to from a tagged artifact, strands nothing at whatever deletion fails, in whichever way it fails, and reports exactly the tags of what was deleted; a digest is refused with all that goes along gone; success leaves no entry of that reference and all that goes gone |
| Store.DigestRefusalChangesNothingWhen | internal/store/store.go:323-362 | a refused digest has changed nothing if and only if it names no description that goes, or no other tagged description has it as subject |
| Store.RefusedDigest | internal/store/store.go:323-362 | a store in which a refused digest has deleted an attestation |
| Store.ReportIsWholeWhen | internal/store/store.go:352-358 | the report names every tag that left the index, but the one asked for, if and only if no deletion failed with entries of such a tag gone |
| Store.UnreportedTag | internal/store/store.go:352-386 | a store and a failed deletion after which a tag is gone and not reported |
| Store.TagsAreRemoved | internal/store/store.go:323-373 | a tag that need not be refused is removed when no deletion fails |
| Locking.RunInv | internal/store/store.go:178-262 | over every run: the lock is on record for its holders, an exclusive one alone; a holder's view is the disk's; all that a tagged artifact reaches is stored, and kept by any collection or removal going on |
| Locking.HoldersSeeTheDisk | internal/store/store.go:178-262 | a process past the reload sees the index as written, which is the replay of every update made so far, and no tagged artifact lacks anything |
| Locking.UpdatesStay | internal/store/store.go:209-221 | no update is ever lost: the log of updates only grows, and with the row above the disk is its replay |
| Locking.DeletingKeeps | internal/store/store.go:323-598 | a collection or a removal takes nothing of what it was to keep by the index on disk when it began, tags of any process included, however far it gets; and every artifact tagged on disk is left complete |
| Locking.DescriptionsSpareArtifacts | internal/store/store.go:412-445 | in a well-formed store what goes with a description holds no tagged artifact, as the machine asks of a removal |
| Locking.SettledIsCollected | internal/store/store.go:563-598 | what it was to keep is what the repair, the two passes and the collector leave, so the tags it takes are those of descriptions the first pass unlinks |
| Locking.LockEndsWithItsHolder | internal/store/store.go:209-262 | over every run the lock is on record for exactly the processes between its grant and their unlock, failed reload or end, so with none there whoever waits can be granted it |
| Locking.TornOnlyBySaving | internal/store/store.go:142-176 | an index caught half written is being saved, or was by a process that died |
| Stale.StaleViewLoses | internal/store/store.go:178-197 | without the reload: a run in which a collector that waited behind a pull removes the model whose tag is on disk |
| Instances.Table.Find | internal/router/router.go:222-228 | a request's first look finds exactly what is loaded, touches it, and changes nothing else of the table |
| Instances.Table.Scan | internal/router/router.go:308-324 | the sum of all footprints, and a least recently used evictable instance or none when there is none |
| Instances.Table.MakeRoom | internal/router/router.go:300-336 | ends; refuses outright exactly what exceeds the budget; evicts the shortest prefix by recency that makes room, or every evictable instance before refusing, when each left is pinned or serving |
| Instances.RefusedAfterUnloading | internal/router/router.go:300-336 | for every budget and need a table of which a refused load has unloaded an instance |
| Instances.Table.Sweep | internal/router/router.go:339-369 | takes out exactly the unpinned idle instances last used before the cutoff, run alone |
| Router.RunInv | internal/router/router.go:220-386 | over every run, with instances used at any time: an instance that has not left is the table's for its reference, loads past their check are of references not in the table, and a look over the table has summed exactly what it read |
| Router.InsertReplacesNothing | internal/router/router.go:265-267 | an insertion finds its reference free and leaves all the rest loaded |
| Router.LeavesOnce | internal/router/router.go:265-386 | once an instance has left the table its cause never changes and it never comes back |
| Router.InTableUntilItLeaves | internal/router/router.go:265-386 | it is in the table exactly until it leaves |
| Router.LateReaper | internal/router/router.go:272-284 | a reaper takes out its own instance and no newer one of the same reference |
| Stopping.ShutdownIsFinalExactlyWhen | internal/router/router.go:372-386 | after a shutdown in any run, with no new request, the table stays empty in every continuation if and only if no load under way at the shutdown may still land |
| Stopping.LoadsOutliveShutdown | internal/router/router.go:229-386 | a run of one request, a shutdown, and no other request, that ends with a running instance in the table |
| Eviction.ActiveIsNet | internal/router/router.go:414-432 | over any stretch of any run an instance's count changes by exactly the requests begun on it less those ended |
| Eviction.WasLookedAt | internal/router/router.go:308-319 | each instance a look has been at was read once under that hold of the mutex, and counts as found idle exactly when it was unpinned and idle then |
| Eviction.VictimsWereIdle | internal/router/router.go:308-360 | whatever was unloaded for memory or idleness was unpinned and idle when read, and as it was unlinked served exactly the requests begun since and not ended |
| Recency.WasReadLast | internal/router/router.go:316-318 | what a look holds as the last use of an instance is its last use at some moment of that hold |
| Recency.MisledMeansUsed | internal/router/router.go:316-318 | a candidate is given up on a later reading than its first only if a caller used it in between |
| Recency.VictimsWereOldest | internal/router/router.go:308-336 | unless that happened, a victim is the least recently used by what was read of each instance found idle, and every other was read |
| Recency.QuietRoundsEvictTheLru | internal/router/router.go:308-336 | in a round in which nobody uses an instance the victim is, as it is unlinked, unpinned, idle and least recently used among such |
| Recency.LastUseIs | internal/router/router.go:402-426 | over every run an instance's last use is the time of the latest request begun or ended on it or caller come back with it, or of its insertion |
| Recency.RoundsDecide | internal/router/router.go:308-336 | a round passes exactly when the footprints of the table as it then is leave room; otherwise an instance goes that was unpinned and idle when read, or the load is refused and each was pinned or serving when read |
| Interference.BusyVictim | internal/router/router.go:199-336 | a run in which a victim is serving a request as it is unlinked |
| Interference.RecentVictim | internal/router/router.go:308-336 | a run in which an idle, unpinned instance less recent than the victim stays |
| Budget.BudgetHolds | internal/router/router.go:229-336 | while at most k loads that made room overlap, the table and those loads never exceed k budgets |
| Budget.OverlapReachesTheBound | internal/router/router.go:229-267 | for every k a run of k overlapping loads after which the table alone holds exactly k budgets |
| Materialize.CleanReads | internal/cli/pull.go:213-216 | a name's components say where it leads; an absolute name leads nowhere |
| Materialize.PlainLeads | internal/cli/pull.go:213-216 | plain components lead where they say |
| Materialize.DotsCancel | internal/cli/pull.go:213-216 | an empty component or a dot changes nothing, a name and the way back cancel, and a way up from the top is refused; with the row above this decides every name |
| Materialize.CleanStaysInside | internal/cli/pull.go:213-216 | a name accepted has only components that stay beneath the directory |
| Materialize.Output.MissingDirs | internal/cli/pull.go:262-275 | exactly the parents that are not there, outermost first |
| Materialize.Output.CreateOutputFile | internal/cli/pull.go:344-398 | a new file of its own, taking the name only from a regular file of an earlier run |
| Materialize.Output.CopyFile | internal/cli/pull.go:285-315 | no fault only when the file holds the blob, of the recorded size and digest; each fault says what was wrong; a file made is reported even when not right |
| Materialize.Output.TakeBack | internal/cli/pull.go:175-195 | afterwards the tree is as found but for regular files whose names had been taken |
| Materialize.WrittenFits | internal/cli/pull.go:196-251 | a run that wrote everything had layers that fit: each that names a file is raw, names it within, is stored whole and has room, every weight names one, one does at all, and no two name one file or one above the other |
| Materialize.FaultBlames | internal/cli/pull.go:196-251 | each reason for failing at a layer holds of the layers, the store or the tree as it was found, or the filesystem can fail |
| Materialize.Output.Materialize | internal/cli/pull.go:137-258 | all or nothing: each named layer has a file of its own with its bytes, every weight is among them, and no two share one under any name folding; or everything made in the directory is gone and nothing else differs but regular files replaced by name, the directory itself being as found unless the run made it and could not open it; where nothing can fail it succeeds exactly when the layers fit, and each reason given for failing is one |
| Unpack.ValidNames | internal/runtime/artifact.go:346-350 | a name passes exactly when it is a plain file name or a lone slash |
| Unpack.ValidateLayers | internal/runtime/artifact.go:344-368 | accepted exactly when names are such and distinct and digests usable |
| Unpack.MaterializedMatches | internal/runtime/artifact.go:425-462 | count and one-sided membership decide that the directory holds exactly the manifest's names with the recorded contents |
| Unpack.MatchesEveryLayer | internal/runtime/artifact.go:425-496 | for distinct names a tree matches exactly when each layer has a regular file of the recorded length and digest under its name, and no other name is there |
| Unpack.RunInv | internal/runtime/artifact.go:219-310 | over every run: one call past the lock at a time, what it has staged is right as far as it goes, and whole by the time the old tree starts to go |
| Unpack.InstalledWhole | internal/runtime/artifact.go:300-308 | no step but a whole install adds anything to a directory |
| Unpack.SuccessIsInPlace | internal/runtime/artifact.go:219-310 | a call that returns without error leaves its tree matching and safe |
| Unpack.OnceInPlace | internal/runtime/artifact.go:219-310 | a matching tree is never removed or altered while every check of it can be read, whatever calls and crashes follow |
| Unpack.AlteredOnlyAfterMisread | internal/runtime/artifact.go:270-308 | if it is altered, or set about, a check had failed to read it |
| Unpack.MisreadTakesItAway | internal/runtime/artifact.go:270-308 | from any check of a matching tree a misread leads to its removal |
| Unpack.EnsuredStaysEnsured | internal/runtime/artifact.go:219-310 | what a successful call returned still matches at every later point of the run, up to a check that fails to read it |
| Unpack.CallsCanFinish | internal/runtime/artifact.go:219-310 | with the lock free and the layers to be had, a call can return with the tree in place whatever stands there, and leaves one that matches as it is |
| Unpack.SlashNeverUnpacks | internal/runtime/artifact.go:286-308 | in no run does a call for an artifact with a layer named by a lone slash succeed |
| Download.Transfer.RehashPartial | internal/transfer/download.go:144-160 | the hasher has seen exactly the partial file; one too long or unreadable is discarded and starts at nothing |
| Download.Transfer.InstallPartial | internal/transfer/download.go:164-180 | requires the hasher to be at the whole partial; stores its bytes under the digest only if they have it |
| Download.Transfer.Receive | internal/transfer/download.go:85-136 | for every answer what a failure says and leaves: a refused range, a body too long and a wrong hash leave no partial, a body cut short or too short is kept |
| Download.Transfer.TryDownload | internal/transfer/download.go:62-136 | whatever the server sends, only content of the digest is stored; a failed attempt says why and leaves what the row above says; with an honest server the partial stays a prefix and is never discarded as corrupt; without faults it succeeds exactly when the size is above zero or a partial is there |
| Download.Transfer.DownloadBlob | internal/transfer/download.go:34-58 | the same over a whole sequence of attempts: a partial goes only into the store or when it cannot be read; with a reliable first attempt success is exactly a size above zero or a partial there; and any one reliable attempt that is reached is enough when the size is above zero |
| Gguf.Read | internal/gguf/gguf.go:93-148 | the stateful reader computes the positional meaning of the file, errors included |
| Gguf.Reader.ReadString | internal/gguf/gguf.go:246-259 | reads or refuses as the meaning says, and never takes a length past a 32-bit int |
| Gguf.Reader.SkipArray | internal/gguf/gguf.go:219-244 | skips elements of each kind as the meaning says, with every length below that limit |
| Gguf.Reader.ReadValue | internal/gguf/gguf.go:171-216 | each type is read at its width, sign and all; an array is skipped |
| Gguf.ScalarReads | internal/gguf/gguf.go:165-216 | each of the eleven scalar types is read at its own width and means what its bytes write, place by place, in two's complement when signed |
| Gguf.ScalarsSkipped | internal/gguf/gguf.go:219-233 | an array of any number of any scalar, within the limit, is skipped exactly |
| Gguf.HeaderReads | internal/gguf/gguf.go:93-125 | a header is accepted exactly with its magic, version 2 or 3 and a count within the limit, and states what its bytes write |
| Gguf.InfoBounded | internal/gguf/gguf.go:127-144 | no key or text kept is longer than its limit, whatever the file says |
| Gguf.SkipFits | internal/gguf/gguf.go:219-244 | every skip length is below two to the 31 |
| Gguf.AppendedBytesIgnored | internal/gguf/gguf.go:93-148 | an accepted header reads the same whatever follows it |
| Gguf.Build | internal/gguf/gguftest/gguftest.go:33-70 | the writing loop produces the file the lemmas are about |
| Gguf.Buffer.WriteString | internal/gguf/gguftest/gguftest.go:89-92 | appends the length and then the bytes |
| Gguf.BuildReadsBack | internal/gguf/gguf.go:93-244 | for versions 2 and 3 and entries within the limits, of all types the format has, a file reads back with the last value of each key, whatever payload follows |
| Gguf.LastValuesMean | internal/gguf/gguf.go:127-144 | a key has a value exactly when some entry states it and no later entry of that key states another |
| Attestation.StatedAsOften | internal/signing/attestation.go:83-103 | a manifest states each record as often as it has layers whose own annotations state it |
| Attestation.StatedInOrder | internal/signing/attestation.go:83-103 | and states them in the order of those layers |
| Attestation.Consume | internal/cli/sign.go:857-885 | takes attested records off the counts up to the first that outruns the manifest's |
| Attestation.FirstLeft | internal/cli/sign.go:887-896 | finds the first under-covered layer in manifest order, or shows the multisets equal |
| Attestation.AttestationMatchesManifest | internal/cli/sign.go:849-897 | no refusal exactly when attested and stated records are equal as multisets; a refusal names the first record over, or the first layer under, in order |
| Attestation.Explain | internal/cli/sign.go:997-1025 | why a record is refused: no such layer, no source, stated fewer times, or the first record of that digest it disagrees with |

## Left out

- Merkle.ComputeSplit: integers are unbounded, so the overflow of a doubling `int` past half its range is not modelled.
- Checkpoint.PrintReadsBack: base64 is a pair of functions with the obvious law, and the signature check a predicate; characters are not encoded as UTF-8.
- LogEntry.VerifyLogEntry: decoding of the bundle, hexadecimal and what a body must describe are parameters; certificate chains are not part of the model.
- Store.Store.GC: the collector of the underlying library is taken at what the comments state of it, the tagged closure and the untagged referrers of that, with the entries of what it keeps, and requires that no unplaced untagged entry is left; its refusal on a manifest that is there and cannot be read is not modelled.
- Store.Store.RemoveReporting: deletions fail as a parameter says; a read error during planning is not modelled, and the holder named in the message is not specified.
- Collection.Admit: one media type and size per digest in the index is required, and an error of the existence check counts as present.
- Index.ReadIndex: the order in which the library saves its rows, and its removal of duplicates, are not modelled; the index is sound to begin with (one descriptor per digest, no row named by another's digest).
- Graph.SuccessorClosure: media types are a datatype with one case for each way the code treats them, and what a manifest names is read by one decoding of it.
- Locking.RunInv: waiting and its messages, and the shared lock's fairness, are not modelled; what a removal plans is modelled in `Store`, and here only what it settles to keep; after a crash in the middle of a save every later reload fails, as the code then reports.
- Router.RunInv: proxying, streaming, gauges and backend errors are left out; a caller may come back from `ensure` with any instance that was ever loaded, which is more than the code allows; a request may still find its instance unlinked before it begins.
- Instances.Table.MakeRoom: a footprint is a natural number, so a negative one is not modelled; this class is the table as worked on with no instance used meanwhile, and interference is the subject of `Eviction` and `Recency`.
- Materialize.Output.Materialize: a removal that fails during rollback, symbolic links and directories above the output directory, and spurious errors of the look-ups that list missing parents are not modelled.
- Unpack.RunInv: the configuration layer and the check that the path to the tree is made of plain directories are not modelled.
- Download.Transfer.TryDownload: HTTP details, progress, waiting between attempts, digests other than SHA-256 and a failing removal of a discarded partial are not modelled.
- Gguf.Read: floating-point values are kept as their bits, and the derived fields and the size formatting are not modelled.
- Attestation.AttestationMatchesManifest: the fetching and verification of the attestation around it is not modelled.
- Policies by first match, packing, the command line, the picker, the chat and rendering are not modelled: they pass values on or lay them out, and keep no state of their own.
