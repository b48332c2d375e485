# nodary: a verified model

nodary runs model servers on a fleet of nodes and keeps a tamper-evident record of
everything anyone does with it. This project models, in Dafny, the parts of it whose
correctness is not visible from reading one function, and proves what they promise:

* **The audit chain.** Records are numbered, hashed and linked; a streaming verifier
  with one bounded look-ahead map decides whether a file or a table still is the chain
  it claims to be, out of order, redelivered, damaged or cut off as it may be
  (`ChainVerify`, `ChainExact`, `ChainLaws`, `ChainDisorder`, `ChainRedelivery`,
  `ChainScan`, `ChainDiagnosis`, `ChainFragments`). A second algorithm compares a mirror with the
  database, and both verdicts are combined (`ChainCompare`, `ChainAssess`).
* **The canonical encoder** the hash rests on: RFC 8785 over the grammar of RFC 8259,
  with its printer, its duplicate-refusing parser, its number formatter and its
  surrogate scan (`CanonicalNumber`, `CanonicalString`, `CanonicalSurrogates`,
  `CanonicalJson`, `CanonicalDocument`, `CanonicalWalk`), what it writes and takes in the
  standards' own terms (`CanonicalSpelling`, `CanonicalLayout`, `CanonicalForm`,
  `CanonicalGrammar`, `CanonicalParse`), and the
  record codec on top of it (`RecordCodec`, `RecordLines`, `RecordForm`).
* **The audited mutation seam**: change and record in one transaction, emission after
  it, and the blocking posture, for one call and for calls made in turn (`AuditChain`,
  `AuditLog`, `AuditRuns`) and for calls whose steps interleave in any order
  (`AuditSteps`, `AuditOverlap`, `AuditOrder`, `AuditPosture`, `AuditAnswers`,
  `AuditSaid`), joined to the codec and the verifier
  end to end (`AuditMirror`).
* **The node agent**: GPU allocation (`Allocation`, `AllocationLaws`, `AllocationTerms`),
  convergence of the host onto a plan (`Reconcile`, `ReconcileLaws`, `ReconcileReport`),
  the bounded event queue (`Events`, `EventRuns`), manifests and staging (`Names`,
  `Manifest`, `ManifestTerms`, `Staging`), the crash-safe download (`Download`,
  `DownloadLaws`, `DownloadSteps`, `DownloadRuns`, `DownloadOutcomes`) and the prepared
  artifact (`Prepare`, `PrepareOutcomes`, `PrepareKey`).

Code that works by changing state is modelled as classes and methods with loops, each
proved equal to a function of what it was given; the theorems are about those
functions, over every input and every run. What the outside decides (which commands
succeed, which writes go through, which sinks take a record) is a parameter of each
step, so the theorems hold whatever fails.

## Parameters

SHA-256 is a parameter `sha`. No law of it is assumed except, where a hash must be a
non-empty or a hexadecimal string, that it is; results that depend on collision
resistance are stated as "or two of these records exhibit a collision". Floating point
is the parameter `Floats`: the double nearest to a decimal and whether an integer is
a double exactly. `Lawful` lists the facts used about it, `SmallExact` that
integers up to 2^53 are exact, and `FloatsExist` shows that the laws can be met.
A double is identified with its shortest digits. Timestamps are milliseconds, and
`Clock` is their formatter and parser. The look-ahead window is a parameter; the
source uses 1024. Strings are sequences of Unicode scalar values.

## Where the code and its documentation differ

* `reorderWindow` is documented as bounding how many writers may be in flight
  (internal/audit/verify.go:108-123). `StalledWriter` shows that one writer suffices to
  exceed it: a file whose first record comes last is passed exactly while the file is
  no longer than the window.
* Emission follows the commit outside any lock (internal/audit/log.go:149-213), so a
  record can be overtaken on its way to a sink. `KeepsOrder` and `OrderExact` say when a
  sink's lines ascend, in terms of the records still on their way, and `MirrorVerifies`
  when the verifier still passes them.
* Under the blocking posture the failing set is read when a call arrives and not in its
  transaction (internal/audit/log.go:129-151), so a body can run with a failure noted in
  between: `BodyRunsAnyway` is such a run from a fresh log, and `BodyRunsExact` says
  exactly when it happens: when among what was noted since the call arrived the last word
  on some name is a failure.
* `formatBigInt` accepts an integer that is a double exactly even when the canonical
  digits differ (internal/canonical/number.go:140-154), so beyond 2^53 two integers can
  share one text. `IntTextsExact` says when, `IntsCollide` gives 100000000000000016 and
  100000000000000020, and `SmallInts` shows that it does not happen up to 2^53. Results
  about records are therefore "up to the spelling of numbers".
* An anchored fragment may not repeat the anchor's record, although a source that
  simply continues may (`FragmentsCompose`, `OverlapDiffers`).
* A refused attempt is documented as the probe that lets the next one through once the
  failing sinks recover (internal/audit/log.go:140-148). It does so only if no other
  sink fails on the refusal itself; `Recovery` is the exact condition.
* The event queue is documented as oldest first (internal/agent/events.go:43-57). Right
  after an overflow it is full, the spill file is not read back, and the next batch is
  newer than what is on disk: `OverflowOvertakes`, `OvertakeExact`, and a whole run in
  `OverflowReorders`. Events added while a
  batch is in flight are removed in its place when they make the queue spill
  (`InFlightExact`), and one spilled line of a mebibyte or more takes every line after
  it along (`RefillExact`).
* `writeEnvFile` compares the file with the plan, not with what is running
  (internal/agent/reconcile.go:262-440). A restart that fails after the file was written
  is never tried again: `FailedRestartSticks`; `AppliedExact` is the exact condition.
  `EnsureUnitTemplate` does the same to the template, and a reload that fails after it
  was written is never tried again (internal/agent/reconcile.go:161-172):
  `FailedReloadSticks`, with `KnownExact` for one pass.
* A prepared artifact's key is documented as telling every two splits of the same bytes
  apart (internal/agent/prepare.go:86-88). Nothing marks where the arguments end and the
  GPU models begin: `SplitsCollide`; `KeyExact` says exactly which builds share a text.
* A remote model whose download once ended in "staged" stays staged for the planner
  when its bytes no longer verify (internal/agent/plan.go:345-355): `StagedIsTrue` says
  when the answer is true, `RotIsNotSeen` how it stops being so.
* A reset removes the model's directory before the recorded verdict
  (internal/agent/remote.go:221-231). One that is cut off in between leaves a directory
  that is neither absent nor verified with "staged" recorded over it: `CutReset`;
  `CutExact` says exactly what a cut may remove without harm, and `ResetHeals` that a
  reset that runs through mends it. A stop that fails is ignored, and the unit goes on
  downloading into what is being removed: `IgnoredStop` is such a run, and `StopExact`
  says at which points of a download it does no harm.
* A build that finishes between the two questions a poll asks is started again over its
  own marker (internal/agent/prepare.go:193-222): `FinishedBetween` is such a run from a
  node where nothing was ever built; `RunMarked` is the exact condition for one build and `AlwaysMarked` what holds otherwise.
* A deployment with an empty id holds its GPUs against nobody, because an empty holder
  reads as none (internal/agent/plan.go:429-436): `EmptyIdSharesCards`.

## Model
| member | source | states |
|---|---|---|
| ChainVerify.Verifier.Pass | internal/audit/verify.go:135-314 | the streaming verifier with its map, counters and sticky source error is the machine the theorems are about |
| ChainVerify.Lowest | internal/audit/verify.go:339-347 | the start found by scanning the map is its least key, 0 only for an empty map |
| ChainExact.VerifyExact | internal/audit/verify.go:135-314 | a source is passed if and only if its first copies are contiguous from an acceptable start, linked and hashed, and no line stands too far back; the result is then that of the sorted records |
| ChainLaws.VerifyAccepts | internal/audit/verify.go:135-314 | the same over sources that may hold unreadable lines: one of them anywhere is a break |
| ChainLaws.DamageBreaks | internal/audit/verify.go:162-165 | the source error is sticky: nothing read after a damaged line makes up for it |
| ChainLaws.ForgeryBreaks | internal/audit/verify.go:166-203 | a second line for a sequence number with other content always ends in a break, whichever comes first |
| ChainLaws.TimelyAt | internal/audit/verify.go:157-208 | what "too far back" means for each line: against the window, the start and what was met before it |
| ChainDisorder.DisorderExact | internal/audit/verify.go:108-123 | each record once in any order: passed if and only if no record stands a window or more behind its rank, with the result of the sorted order |
| ChainDisorder.StalledWriter | internal/audit/verify.go:108-123 | one writer delivering last is passed exactly while the file is no longer than the window |
| ChainRedelivery.RedeliveryNeutral | internal/audit/verify.go:325-336 | taking out every absorbed copy leaves the whole result as it was, breaks included |
| ChainRedelivery.RepeatsRemovable | internal/audit/verify.go:166-203 | a passed source without its repeats is passed with the same result, and counts exactly the distinct records |
| ChainScan.ScanRefined | internal/audit/verify.go:354-389 | on rows in ascending order the windowed verifier is the plain scan, in every field and for every window |
| ChainScan.ArrangedScan | internal/audit/verify.go:108-314 | inside the window order does not matter: over records in any order the result, breaks and all, is that of one plain scan over them sorted |
| ChainDiagnosis.Diagnosis | internal/audit/verify.go:255-313 | what a break says: over a source in any order inside the window, it is about the first record, by number, that is out of order, and of the kind whose condition holds there (a gap, another install, a wrong predecessor, no hash, another hash), everything else being as after the records before it |
| ChainDiagnosis.NotOpened | internal/audit/verify.go:229-249 | a source that may not open as it does is refused at its first number, as not anchored or as not the genesis |
| ChainDiagnosis.AllSane | internal/audit/verify.go:255-313 | with nothing out of order there is no break |
| ChainDiagnosis.SecondLine | internal/audit/verify.go:166-203 | what is said of a second line for a number of a sound chain, whatever follows: another install, no hash, another hash, or out of order, by the record there and by how far the chain was consumed |
| ChainDiagnosis.SecondAbsorbed | internal/audit/verify.go:166-203 | and one of which nothing is said changes nothing |
| ChainDiagnosis.DamagedAt | internal/audit/verify.go:162-165 | at which number a damaged line is reported: behind all of the chain, what follows the damage included, except with a look-ahead of one |
| ChainDiagnosis.DamagedFirst | internal/audit/verify.go:211-216 | and at number 1 when nothing can be read before it |
| ChainScan.DeletionExact | internal/audit/verify.go:354-450 | of everything that can be deleted from a recorded chain, against its genesis or the cut retention recorded, only a tail goes unnoticed, and never all of it |
| ChainFragments.FragmentsCompose | internal/audit/verify.go:229-249 | a fragment verifies against the end of another exactly when both in a row verify and it repeats nothing of it, and the results add up |
| ChainFragments.OverlapDiffers | internal/audit/verify.go:229-249 | repeating the last record separates continuing a source from anchoring one |
| ChainFragments.MirrorAnchors | internal/audit/verify.go:454-475 | looking the anchor up after one unanchored pass gives what knowing it before would have |
| ChainFragments.HeadCommits | internal/audit/verify.go:255-313 | two sources passed from genesis that end in one hash at one sequence number hold the same bytes line by line, or exhibit a collision |
| ChainCompare.CompareSources | internal/audit/verify.go:783-901 | the two-sided walk, with its buffered file side, is the merge the theorems are about, for a database of one install |
| ChainAssess.PassedOneInstall | internal/audit/verify.go:989-997 | no other database is compared to any effect: one whose own verification passes is of one install |
| ChainAssess.FileSorted | internal/audit/verify.go:922-954 | the window sort followed by dropping repeats puts an acceptable file in ascending order without loss |
| ChainAssess.PassedWalkable | internal/audit/verify.go:922-954 | every file the verifier passes is one the window sort can put in order |
| ChainAssess.CompareExact | internal/audit/verify.go:805-900 | behind and ahead are the sizes of the two set differences and diverged is the least sequence number on which the sources disagree, or 0 |
| ChainAssess.BadExact | internal/audit/verify.go:812-837 | a comparison ends at the first line that is damaged, as a failure, or foreign, naming the database's install and the line's |
| ChainAssess.ForeignMirror | internal/audit/verify.go:812-837 | a mirror of another install is answered with both installs |
| ChainAssess.DamagedMirror | internal/audit/verify.go:922-954 | a mirror with a line that cannot be read is a failure, wherever the line stands |
| ChainAssess.AssessmentExact | internal/audit/verify.go:977-987 | with both verdicts clean, the database's own one included, the assessment is clean if and only if both name one install and every mirror line has its record, by number and hash, in the database; the mirror may be empty, and the database where no record was ever made; apart from mirror lines that hash alike and name different installs |
| ChainAssess.MirrorSegment | internal/audit/verify.go:977-987 | a clean assessment makes the mirror a contiguous run of the database |
| ChainAssess.TruncationSeen | internal/audit/verify.go:354-415 | a database that lost its tail passes its own verification while a row is left, and with none left exactly if nothing says there ever was one; assessed against a mirror with a record it lost it is never clean |
| CanonicalNumber.WriteNumber | internal/canonical/number.go:38-106 | the formatter building its text gives the ECMAScript layout of the double |
| CanonicalNumber.LayoutValue | internal/canonical/number.go:38-106 | each of the layouts is a number literal and denotes exactly the decimal of the double's shortest digits |
| CanonicalNumber.NumberStable | internal/canonical/number.go:38-154 | the text of every finite double is accepted back and formats to itself, the integer layout through the big-integer path included |
| CanonicalNumber.SameNearest | internal/canonical/canonical.go:271-281 | an accepted literal and its output denote one double |
| CanonicalNumber.NumberIdempotent | internal/canonical/canonical.go:271-281 | formatting a formatted literal changes nothing |
| CanonicalNumber.TextInjective | internal/canonical/number.go:38-106 | two doubles of one text are one double, signed zeros apart |
| CanonicalNumber.IntTextsExact | internal/canonical/number.go:140-154 | two accepted integers share their text exactly when they share their nearest double |
| CanonicalNumber.SmallInts | internal/canonical/number.go:156-161 | up to 2^53 an integer is formatted as its own decimal digits, on both paths |
| CanonicalNumber.IntsCollide | internal/canonical/number.go:140-154 | two different accepted integers that are encoded alike |
| CanonicalLayout.LayoutChoice | internal/canonical/number.go:38-106 | which layout a number takes, by its value: an exponent from 10^21 up and below 10^-6, with one digit before it, its sign and no leading zeros; and no fraction ends in a zero |
| CanonicalLayout.Borders | internal/canonical/number.go:38-106 | the texts at those borders |
| CanonicalLayout.NotFinite | internal/canonical/number.go:38-41 | what is not finite has no text |
| CanonicalLayout.IntAccepted | internal/canonical/number.go:140-161 | which integers are accepted: those that are a finite double, or are written with the digits of one |
| CanonicalLayout.LitAccepted | internal/canonical/canonical.go:271-281 | which literals are accepted, with a fraction or an exponent and without |
| CanonicalNumber.ReadBack | internal/canonical/canonical.go:271-281 | every number literal is read back from its text, whatever may follow it |
| CanonicalString.WriteString | internal/canonical/string.go:22-55 | the escaping loop writes the quoted form |
| CanonicalString.StringBack | internal/canonical/string.go:22-55 | what was quoted reads back as the string, for every string and whatever follows |
| CanonicalSpelling.Spelling | internal/canonical/string.go:22-55 | what each character is written as, in numbers |
| CanonicalSpelling.Shortest | internal/canonical/string.go:22-55 | no literal that reads as a string is shorter than the one written, and one as long differs in the case of hexadecimal digits at most |
| CanonicalSpelling.ShortRead | internal/canonical/value.go:37-93 | what each two-letter escape is read as, the solidus's included |
| CanonicalSpelling.NoOther | internal/canonical/value.go:37-93 | no other letter but u makes an escape |
| CanonicalSpelling.PlainRead | internal/canonical/value.go:37-93 | any other character is read as itself, except a quote and the controls |
| CanonicalSpelling.QuadRead | internal/canonical/value.go:37-93 | what a four-digit escape is read as, in capitals or not |
| CanonicalSpelling.PairRead | internal/canonical/value.go:37-93 | what two of them in a row are read as when the first is the high half of a pair |
| CanonicalString.LessUTF16 | internal/canonical/string.go:67-76 | the index loop decides the order of UTF-16 code units |
| CanonicalString.LessTotal | internal/canonical/string.go:67-76 | that order is irreflexive, asymmetric and total on Unicode strings |
| CanonicalString.LessTransitive | internal/canonical/string.go:67-76 | and transitive |
| CanonicalString.NotCodePointOrder | internal/canonical/string.go:57-76 | it is not the order of code points |
| CanonicalForm.LessExact | internal/canonical/string.go:57-76 | the order in full: the first differing UTF-16 unit decides, and the units of each character |
| CanonicalString.SortUnique | internal/canonical/canonical.go:189-264 | the text cannot depend on map iteration: a set of names has one sorted arrangement |
| CanonicalSurrogates.CheckSurrogateEscapes | internal/canonical/string.go:88-124 | the index-skipping loop is the scan the theorems are about |
| CanonicalSurrogates.ScanExact | internal/canonical/string.go:88-124 | on any text made of string literals and other characters the scan finds nothing if and only if no literal holds an unpaired surrogate escape |
| CanonicalDocument.SurrogatesExact | internal/canonical/canonical.go:113-128 | every document the parser accepts is such a text, and is refused for a lone surrogate exactly when one of its literals has one |
| CanonicalJson.ParsePrint | internal/canonical/value.go:21-93 | parsing what was printed gives the canonical form of the value, whole and without rest |
| CanonicalParse.ParseExact | internal/canonical/value.go:21-93 | the documents taken are exactly the texts of the grammar in which no object names a member twice, space allowed around every part, and each is taken for what it says |
| CanonicalJson.PrintInjective | internal/canonical/canonical.go:189-264 | values printed alike have one canonical form |
| CanonicalJson.NormalRoundTrip | internal/canonical/value.go:21-93 | parser and printer undo each other on every normalized value |
| CanonicalJson.CanonStable | internal/canonical/canonical.go:189-264 | a value and its canonical form print the same text |
| CanonicalForm.PrintedForm | internal/canonical/canonical.go:189-264 | the text of each kind of value: no space anywhere, parts joined by commas, members strictly in the order of their names |
| CanonicalDocument.EncodeIdempotent | internal/canonical/canonical.go:113-128 | the canonical form of a document is its own canonical form |
| CanonicalWalk.EncodeValue | internal/canonical/canonical.go:189-264 | the recursive appending encoder, with its sorting of names, prints the value or refuses exactly what cannot be printed |
| CanonicalWalk.Decoder.Value | internal/canonical/value.go:37-93 | the stateful decoder reads one value and leaves the rest, or refuses, duplicate names included |
| CanonicalWalk.ParseDocument | internal/canonical/value.go:21-35 | a document is one value with nothing after it |
| CanonicalWalk.EncodeDocument | internal/canonical/canonical.go:113-128 | parse, check of the escapes and print in that order |
| RecordCodec.LinkBinds | internal/audit/record.go:198-220 | records hashed from one preimage have the same predecessor, install and time, and integers of one spelling |
| RecordCodec.PreimageBinds | internal/audit/record.go:124-206 | and agree in every other field |
| RecordLines.AcceptedLine | internal/audit/verify.go:572-692 | an accepted line's canonical form is the line of the record read, which is well formed |
| RecordForm.HashedForm | internal/audit/record.go:124-206 | the members that are hashed, by name and content, the nested ones included |
| RecordForm.LineForm | internal/audit/record.go:208-233 | a line's members: the same, and the hash |
| RecordForm.AcceptedWhole | internal/audit/record.go:328-355 | what every record read from a line satisfies, condition by condition |
| RecordForm.ValidExact | internal/audit/record.go:328-355 | and that the table takes exactly such records |
| RecordLines.SameCanonicalForm | internal/audit/verify.go:664-680 | accepted lines of one canonical form carry one hash over one preimage |
| RecordLines.LineBinds | internal/audit/record.go:224-233 | records of one line have one hash and one preimage |
| RecordLines.LineRoundTrip | internal/audit/verify.go:572-692 | the line of a well-formed chained record is read back exactly when the texts of its two integers are positive 64-bit literals and the text of its time is that of a time that is set, and what is read has the same line and the same preimage |
| RecordLines.SmallRoundTrip | internal/audit/verify.go:572-692 | up to 2^53, and with a time that is read back as itself, the record itself comes back, with its detail in canonical form |
| AuditChain.AppendKeeps | internal/audit/chain.go:56-119 | an append keeps the table dense, linked and well formed, adds one row, mints the installation's identifier where there is none, and changes nothing else |
| AuditChain.AppendsVerify | internal/audit/chain.go:56-134 | the verifier passes, from genesis, every table that appends can build, and counts each row |
| AuditLog.Log.EmitAll | internal/audit/sink.go:228-250 | the loop over the sinks leaves a name failing exactly when the last sink of that name failed, and each sink that took the record holds it |
| AuditLog.Log.Perform | internal/audit/log.go:125-215 | one audited call, step by step: refusal, transaction, rollback and the failure's own record |
| AuditRuns.RunKeeps | internal/audit/log.go:125-215 | over every run of calls made one after the other: the chain is dense and linked, each committed transaction holds exactly one record and no change beside a failure, and sinks hold only committed records, each once, in order |
| AuditRuns.CallLaw | internal/audit/log.go:114-215 | record and change of one call go together in every case, and the outcome recorded is the one that happened; a body runs exactly when the call is not blocked and its transaction begins; and the record says all of what was asked, by whom and when, and the error where there was one |
| AuditRuns.CallFaults | internal/audit/log.go:125-215 | what a call reports: refused, the body's failure, the transaction's, and that nothing was recorded, each exactly when |
| AuditSaid.RowsTell | internal/audit/log.go:245-262 | over every interleaving each row says all of what some call asked, who asked it, when, and how it went, and an answered record is one of the call's own |
| AuditRuns.Recovery | internal/audit/sink.go:228-280 | after a refusal the next call is let through exactly when the refusal was recorded and every sink name's last sink took it |
| AuditSteps.AloneIsAct | internal/audit/log.go:125-215 | the look, the transaction, the failure's own record, the offers to the sinks and the notes of how they went, taken one step at a time with nothing between them, are the call |
| AuditOverlap.OverlapKeeps | internal/audit/log.go:125-215 | over every interleaving of the steps of any calls: the chain is dense and linked, each committed transaction holds exactly one record and no change beside a failure, and each sink holds only committed records, each once |
| AuditOverlap.OverlapVerifies | internal/audit/log.go:125-215 | what any interleaving leaves in the table is passed by the verifier with one record for each committed transaction |
| AuditOrder.KeepsOrder | internal/audit/sink.go:228-250 | over every interleaving a sink's lines ascend if no record is handed to it past a lower one that another call still has on its way there |
| AuditOrder.OrderExact | internal/audit/verify.go:108-123 | once every call is answered, the lines of a sink that took everything ascend if and only if no record was handed to it past a lower one still on its way |
| AuditPosture.FailingExact | internal/audit/sink.go:228-250 | over every interleaving a name is failing exactly when the last note on a sink of that name, by whichever call, was a failure |
| AuditPosture.LetThrough | internal/audit/log.go:129-151 | a call that arrives is let through rather than refused exactly when the posture is to warn or no name's last note is a failure |
| AuditPosture.BodyRunsExact | internal/audit/log.go:129-165 | whenever a body runs under the blocking posture, over every interleaving, nothing was failing when its call arrived; and something is as its transaction begins exactly when among the notes since then the last on some name is a failure |
| AuditPosture.BodyRunsAnyway | internal/audit/log.go:129-165 | a run from a fresh log in which a body runs with a failure noted |
| AuditOverlap.OverlapCovers | internal/audit/log.go:296-311 | over every interleaving, with a sink that takes everything, every row is in the sink or in the hand of a call that has yet to come to it |
| AuditAnswers.AnswersTrue | internal/audit/log.go:114-215 | over every interleaving: no error is answered exactly with a record that says "success", an answered record is in the table, and no record always comes with an error |
| AuditMirror.HeadHoldsHistory | internal/audit/record.go:198-220 | one hash holds all of history: same head, same fields in every record, the version included, or a collision |
| AuditMirror.MirrorContained | internal/audit/verify.go:977-987 | a clean assessment makes the mirror a contiguous run of the table that agrees with it in every field, or a collision |
| AuditMirror.MirrorVerifies | internal/audit/verify.go:108-123 | end to end: the lines any interleaving of answered calls leaves in a sink that took them all read back to a file that is passed, with the table's own verdict, and assessed clean against the table, exactly when no line stands a window or more behind its rank; none does when no record was handed over past a lower one on its way |
| Events.EventQueue.Enqueue | internal/agent/events.go:60-96 | adding spills from the front until the queue fits, dropping what the file refuses |
| Events.EventQueue.Next | internal/agent/events.go:103-168 | taking turns the drop count into an item, reads the file back when there is room and answers a batch it does not remove |
| Events.EventQueue.Settle | internal/agent/events.go:126-133 | removes the accepted number from the front |
| Events.AgentEvents | internal/api/agent.go:415-466 | the endpoint gives the chain the events before the first that is refused or not recorded, answers with their number, and with none for a name it refuses |
| EventRuns.RunAccounts | internal/agent/run.go:501-539 | over every run: each event is delivered, spilled, queued or lost as often as it was added, losses are exactly what the drop counts say, one count always survives, and what left was recorded first, in order |
| EventRuns.SpillBounded | internal/agent/events.go:74-96 | over every run the spill file stays under its bound but for one line |
| EventRuns.RunOrdered | internal/agent/events.go:103-168 | when no batch of which something is accepted overtakes the file, delivered, spilled and queued events stand in the order they were added |
| EventRuns.OvertakeExact | internal/agent/events.go:140-143 | one delivery keeps the order exactly when nothing was accepted or the file had been read back |
| EventRuns.OverflowOvertakes | internal/agent/events.go:60-71 | right after an overflow it never has |
| EventRuns.OverflowReorders | internal/agent/events.go:60-168 | a run in which everything succeeds and the order is lost: one event more than the queue holds, and one delivery |
| EventRuns.InFlightExact | internal/agent/events.go:126-133 | with events added while a batch is in flight, settling removes that batch exactly when nothing was accepted or nothing was spilled meanwhile |
| EventRuns.RefillExact | internal/agent/events.go:140-168 | reading the file back is without loss exactly when it does not happen or no line is too long |
| Allocation.DeviceFlag | internal/agent/plan.go:739-813 | the loops over vendors, render nodes and CDI names give the device argument |
| Allocation.PlanUnits | internal/agent/plan.go:362-426 | the loop over the deployments, with its lists and its claims, is the fold the theorems are about |
| AllocationLaws.OneVerdictEach | internal/agent/plan.go:362-426 | every deployment gets exactly one of the five verdicts |
| AllocationLaws.BuildHeld | internal/agent/plan.go:400-424 | the cards of the units are on offer, claimed under their unit, and no card is given twice |
| AllocationLaws.PlacedExact | internal/agent/plan.go:362-426 | a deployment is placed if and only if the node takes it on its own, the cap leaves room and no earlier placed one holds a card it wants |
| AllocationTerms.FitsExact | internal/agent/plan.go:362-405 | what it is for a node to take a deployment on its own: cards there, backend and fraction allowed, and a device argument |
| AllocationTerms.VerdictExact | internal/agent/plan.go:362-426 | the verdict of the next deployment, in the order the reasons are tried, and that nothing else changes |
| AllocationTerms.FlagExact | internal/agent/plan.go:739-813 | the device argument by the cards' vendor, their render nodes, and the names the toolkit offers |
| AllocationLaws.CapHolds | internal/agent/guardrail.go:55-78 | units never exceed max_deployments |
| AllocationLaws.EarlierStand | internal/agent/plan.go:362-426 | appending deployments changes no earlier verdict |
| AllocationLaws.HolderIsEarlier | internal/agent/plan.go:429-447 | a claim refusal names an earlier placed deployment that holds a wanted card |
| AllocationLaws.AllIsWhole | internal/agent/plan.go:803-812 | being handed all cards means the whole offer was assigned exactly when no index is assigned twice |
| AllocationLaws.EmptyIdSharesCards | internal/agent/plan.go:429-436 | an empty id lets two units share every card |
| Reconcile.Host.Converge | internal/agent/reconcile.go:150-257 | one pass over template, units, policy and stops, command by command, with its report |
| Reconcile.Host.Bring | internal/agent/reconcile.go:262-406 | one unit through its gates, its file and its command |
| Reconcile.Host.WriteEnvFile | internal/agent/reconcile.go:423-440 | the file is written only when it differs |
| ReconcileLaws.PassSafe | internal/agent/reconcile.go:150-440 | every command of every pass has its reason: weights staged, build prepared and image at hand for starts and restarts, a changed configuration or a request for restarts of what runs, a request for a failed unit, and no stop of what is planned or, outside the window, of what is out of policy and running |
| ReconcileLaws.Waiting | internal/agent/reconcile.go:266-306 | a unit for which one of these is missing is left alone, and what is answered says which |
| ReconcileLaws.PassSettles | internal/agent/reconcile.go:150-440 | after a pass whose commands succeed every unit that need not wait is up with its file written, or failed and left so, and nothing of nodary's runs that the plan does not name or spare |
| ReconcileReport.ReportUnits | internal/agent/reconcile.go:190-200 | the outcomes reported are those of the plan's units, in order and true of them at the end, and the restarts reported those asked for that went through |
| ReconcileReport.ReportPolicy | internal/agent/reconcile.go:221-231 | what is out of policy is refused when idle and reported as out of policy when running |
| ReconcileReport.ReportStops | internal/agent/reconcile.go:238-257 | what is reported stopped is exactly what was stopped, and the errors are the stops that failed or the one of a listing that did |
| ReconcileReport.NothingReported | internal/agent/reconcile.go:161-172 | a pass that ends at the template reports one error and touches no unit |
| ReconcileLaws.Converges | internal/agent/reconcile.go:150-440 | after a pass whose commands succeed, another over the same plan issues no command and writes no file |
| ReconcileLaws.AppliedExact | internal/agent/reconcile.go:318-360 | a unit ends up running the planned configuration exactly when it was not left on another one the file does not show |
| ReconcileLaws.FailedRestartSticks | internal/agent/reconcile.go:318-346 | a restart that fails while the unit stays up is never tried again |
| ReconcileLaws.KnownExact | internal/agent/reconcile.go:161-172 | after a pass the manager knows the plan's template exactly when it did before or the template on disk was another and the reload went through |
| ReconcileLaws.FailedReloadSticks | internal/agent/reconcile.go:161-172 | a reload that fails after the template was written is never tried again, however many passes follow |
| Manifest.ReadManifest | internal/agent/staging.go:207-245 | the scanning loop with its set of seen names is the parser the theorems are about |
| ManifestTerms.LineExact | internal/agent/staging.go:216-237 | what a line may be: blank or a comment, 64 hexadecimal digits with a space and a name, or bad |
| ManifestTerms.TrimForm | internal/agent/staging.go:216 | trimming takes away exactly the space at both ends |
| ManifestTerms.LowerExact | internal/agent/staging.go:226 | digests are taken in lower case |
| ManifestTerms.ListExact | internal/agent/staging.go:207-245 | lines make a list exactly when none is bad and none names a file another names, and it holds what they list, in order |
| Manifest.ManifestBack | internal/agent/staging.go:207-245 | the sorted list that was written is the list that is read |
| Staging.CheckStaged | internal/agent/staging.go:127-193 | the loop over the entries gives the verdict of the first fault |
| Staging.StagedExact | internal/agent/staging.go:127-193 | staged means: the manifest matches its pin and lists something, and every listed file is inside the directory with its digest |
| Staging.VerdictExact | internal/agent/staging.go:127-193 | what is not staged is absent or corrupt, and which: by the list, its pin, and the first file that is not as listed |
| Staging.WriteManifest | internal/agent/staging.go:296-334 | whatever order the directory is listed in, the sorted list of every file beside the weights is written and its digest, number and size returned; nothing is written when there is no file or one cannot be read, and a write that fails reports it |
| Staging.SameBytes | internal/agent/staging.go:286-289 | running it again over the same files lists them alike, however the directory is read |
| Staging.WrittenIsStaged | internal/agent/staging.go:296-334 | verifying right after writing answers staged for every file against the digest returned |
| Download.Unit.Go | internal/agent/remote.go:114-205 | the download passes through exactly the states the theorems are about |
| DownloadSteps.RunConsistent | internal/agent/remote.go:114-205 | at every step, so after any crash, the model's directory is absent or verifies in full, and staged is recorded only of one that does |
| DownloadSteps.WalkIsRun | internal/agent/remote.go:114-205 | the download as a machine that may die at any step passes through the same states |
| DownloadOutcomes.FreshExact | internal/agent/remote.go:114-205 | with nothing there before, a download ends in "staged" exactly when the list, every file, and the rename were well, and otherwise in "corrupt" |
| DownloadOutcomes.StatusExact | internal/agent/remote.go:78-110 | what is answered of a model, and when a download is started |
| DownloadRuns.AlwaysSafe | internal/agent/remote.go:78-231 | the same, at every moment outside a reset, over every interleaving of polls, work, crashes and resets in which each reset removes the directory and a recorded success and, where its stop failed, finds the unit having got nowhere |
| DownloadRuns.CutExact | internal/agent/remote.go:221-231 | a reset that ends anywhere leaves that in order exactly when no file was touched that the manifest vouches for, or all are gone and no success is recorded |
| DownloadRuns.CutReset | internal/agent/remote.go:221-231 | an agent that dies after a reset has removed one listed file leaves a model neither absent nor verified and answered as staged |
| DownloadRuns.StopExact | internal/agent/remote.go:221-231 | a reset whose stop fails leaves all in order exactly when no unit works or the one that does stands at its start, its end or its first file |
| DownloadRuns.ClearedExact | internal/agent/remote.go:221-231 | the same at the moment the scratch directory is cleared, wherever the unit has got to by then |
| DownloadRuns.IgnoredStop | internal/agent/remote.go:221-231 | from a node where nothing is, by one download and one reset whose stop fails between its two files: what is left is answered as staged over part of a model |
| DownloadRuns.ResetHeals | internal/agent/remote.go:221-231 | a reset that runs through leaves everything in order, whatever was there |
| DownloadRuns.CorruptStands | internal/agent/remote.go:78-110 | a corrupt verdict stands until a reset, and nothing is started over it |
| DownloadRuns.StagedIsTrue | internal/agent/plan.go:345-355 | outside a reset, after any run with none cut short, the planner's answer staged means bytes that verify |
| DownloadRuns.RotIsNotSeen | internal/agent/plan.go:345-355 | a file that rots after a recorded download fails verification and is still taken for staged |
| Prepare.Builder.RunPrepare | internal/agent/prepare.go:323-394 | the build passes through exactly the states the theorems are about |
| Prepare.RunMarked | internal/agent/prepare.go:323-394 | a build keeps the marker true at every step exactly when no marker stood before it or it fails before replacing the artifact |
| PrepareOutcomes.RunOutcome | internal/agent/prepare.go:323-394 | how a build ends, and what it leaves of artifact and marker, by what went well |
| PrepareOutcomes.StatusExact | internal/agent/prepare.go:193-222 | what is answered of a build, and when one is started |
| Prepare.AlwaysMarked | internal/agent/prepare.go:193-222 | with both questions of a poll asked at one moment, a marker always means a finished build, whatever crashes |
| Prepare.FinishedBetween | internal/agent/prepare.go:193-222 | from a node where nothing was built, by polls, builds and one crash: a build that finishes between the questions is built again over its marker, and what is left is a marker without a finished build that every later poll believes |
| Names.BeforeExact | internal/agent/prepare.go:92 | the order of sorted names: the lower has the smaller character where the two first differ, or stops where the other goes on |
| PrepareKey.KeyText | internal/agent/prepare.go:76-98 | the loops collect each GPU model once, sort them and write each part after its length |
| PrepareKey.KeyExact | internal/agent/prepare.go:76-98 | two builds share the hashed text exactly when model, weights, backend and image agree and arguments and GPU models do as one list |
| PrepareKey.SplitsCollide | internal/agent/prepare.go:86-88 | two different builds with one hashed text: a model as last argument, and the same model among the cards |
| PrepareKey.CardsExact | internal/agent/prepare.go:66-98 | an artifact tied to its cards has one key exactly on nodes with one set of GPU models, whatever their number and order, and one that is not has one key on all |

## Left out
- SQL, files, fsync, HTTP, TLS, systemctl and nerdctl: they are states and parameters of the model; a row or a read that fails is a damaged source item or a refused step.
- SHA-256, signatures, certificates and enrollment: library cryptography.
- The internals of strconv and math/big: `Floats` states what is relied on.
- Bytes that are not UTF-8, and `validUTF8`, `truncate`, `repairDetail` and `fromGo`: the model starts from Unicode strings and the closed value type; sizes counted in bytes by the source are counted in characters here.
- The nesting limit of the JSON decoder: ParseLine's first decode is taken to agree with the canonical parser on what that parser accepts.
- RecordLines.LineRoundTrip: the record comes back with its detail in canonical form, beyond 2^53 its integers in canonical spelling and its time as its text is read, because that is what the line keeps.
- ChainCompare.CompareSources: the result is stated for a database whose rows all carry one install, the only kind that passes (`PassedOneInstall`); the walk's switch of expected install between rows is in the method and not in the specification.
- A mutation body that mints the installation identifier itself is not modelled.
- AuditSteps: a transaction is one step, because the store serializes writers.
- The asynchronous HTTP sink, the syslog sink and closing them: a sink takes a record or does not, within one emission.
- Events: restarting the agent loses what is in memory, and a write to the spill file that stops half-way is taken not to have happened.
- Allocation: what a unit renders apart from its GPUs is one flag, and building the prepared artifact while planning is in `Prepare`.
- Reconcile: the egress assertion, and the wording of outcomes beyond their state; one environment file per unit name.
- Manifest.ManifestBack: stated for names without line breaks, outer white space or a leading star, which `sha256sum` lines cannot carry.
- DownloadRuns.AlwaysSafe: resets that are cut short, whose removal of the directory fails, or that meet a unit under way, are excluded, because it is false of them (`CutReset`, `IgnoredStop`); the scratch directory may be left in part, and manifest paths are ones that stay in the model's directory.
- Prepare.AlwaysMarked: two deployments of one key are one artifact; the source's removal of a scratch directory may fail and is then taken to leave part of it.
- PrepareKey: the key itself is the first 16 characters of a hash of the text.
- Idempotency keys, rolling restarts, policy, pagination, login throttling, maintenance windows, probes, inventory, CLI, UI, backups and bundles: short, or rest on packages that are not part of this model.
