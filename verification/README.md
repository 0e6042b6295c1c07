# TorqPro verification models

Dafny models of the parts of TorqPro that keep state over many requests, do arithmetic that
decisions rest on, or promise that output can be read back or regenerated. Each part is a
specification on values, methods or classes proved against it where the program updates things
in place, and theorems about the specification: what every request keeps, what whole runs
guarantee, and exactly when a documented promise holds.

`dafny verify dfyconfig.toml` checks everything.

## What is modelled

**Release control** (`backend/app.py`). `ReleaseTables` gives one step per handler over the
tables of packages, versions, calculations, traces and revisions, and `Run` composes them in any
order. A handler is one atomic step except `add`, whose two commits are two events with anything
in between (its re-read of the row it inserted belongs to the first). Deleting calculations is
modelled with SQLite's reuse of the highest id, because the table has no AUTOINCREMENT. The other
tables never lose a row, so a row's id is its position plus one. `VersionHistory` proves the
table invariant and that each dataset refines a pair of numbers: versions minted, version active.
`PackageHistory` follows the status of a package and what it means for its versions.
`VersionSignature` proves the three printed signatures equal and as informative as the active
map. `TraceHistory` and `RevisionHistory` follow calculations and revisions over whole runs.
`ReleaseDb` is the class whose methods are the handlers, each proved against its step.
`ReferenceData` is the quality gate's validator.

**Rate limiting** (`RateLimit`). Both in-place sliding-window queues, proved to answer, while
the clock does not go back, as if they kept the whole history.

**Torque and preload** (`Torque`, `JointAnalysis`). Over the reals. The tangent of helix plus
friction angle is the angle-sum identity, so nothing is assumed of trigonometry but numeric
bounds on pi and cos 30 degrees.

**Document ingestion** (`DocumentErrors`, `ContentValidation`, `Extraction`, `Documents`). The
upload guards, conversion with OCR fallback, the persisted lifecycle and the owner's paged
listing. What the detector, the ZIP reader, the converter and the OCR engine answer is arbitrary
input.

**CSV export** (`CsvExport`). The formula guard and the writer, against an independent reader for
section 2 of RFC 4180.

**Material ranking** (`MaterialRanking`), the **bolt and nut generator** (`LibraryRecords`,
`LegacyBackfill`, `GeneratedRecords`, `Regeneration`) and the **thread confidence upgrade**
(`ThreadUpgrade`). Rounding, decimal parsing, SHA-256 and descriptive wording are arbitrary
functions in the last two.

`Options`, `Text`, `Reals` and `Sorting` hold what the others share.

## Where the code and its documentation differ

- A deleted calculation leaves its traces and revisions behind, and its id can be given out again,
  even while the `add` that had it is still between its two commits. What is printed for a new
  calculation is always what was active at its trace read exactly when its id carries no trace rows
  and no unfinished `add` holds it (`TraceHistory.AddIsFaithfulExactly`). It can only be released on
  an approval of one of its own revisions exactly when its id carries no revision rows
  (`RevisionHistory.AddIsReviewedExactly`). Trace and revision rows are in the tables when the
  calculation is added; an unfinished `add` is not, only the server knows of it.
  `TraceHistory.ReusedIdMixesTraces`, `TraceHistory.HeldIdIsGivenOut` and
  `RevisionHistory.ReusedIdInheritsApproval` are runs in which each condition fails.
- `backend/documents/ingestion_service.py:43-50` says no ingestion leaves a row in "processing".
  One does exactly when a call outside every handler fails (`Extraction.Breaks`: the ZIP reader
  otherwise than with BadZipFile; a scanned document's page count, the OCR engine's version, or
  closing the document; the converter's version; the encoding of the text) or when the mark itself
  is not committed (`Documents.IngestedRowMeaning`).
- `backend/app.py:1163` refuses to activate a version whose package is not approved. A rollback does
  not ask: a version of a package that is not approved becomes active exactly by rolling its successor
  back (`PackageHistory.RevivedExactly`, with the run `PackageHistory.WithdrawnCanBeRevived`).
- `extraction_method` is never rewritten, so the column agrees with how a text was obtained exactly
  when the conversion said something (`Documents.MethodColumnExactly`); OCR text is stored as
  MarkItDown's (`Documents.OcrTextIsMislabelled`).
- `backend/calculation_engine/material_intelligence.py:308-310` calls the margin a reserve above
  the requirement. A requirement gives every matching record a margin of at least 1 exactly when
  it is non-negative (`MaterialRanking.MarginSoundExactly`). The endpoint refuses other minima
  (`backend/app.py:963-965`), so only direct callers can pass one.
- `tools/verify_thread_geometry_faz_2_8_2.py` upgrades by id. Only eligible records are upgraded
  exactly when no record needing an upgrade shares its id with one out of scope or not eligible
  (`ThreadUpgrade.UpgradesAreEarnedExactly`, with `ThreadUpgrade.SharedIdUpgradesUnverified`).
- The limiters compare wall-clock times, which can step back. A queue answers like the history it
  ends at every later reading, forward or back, exactly when it is the whole history and that is in
  order (`RateLimit.QueueCountsAlwaysExactly`). Having dropped times it can be too lenient
  (`RateLimit.ClockMustNotGoBack`), and holding times out of order too strict
  (`RateLimit.ClockGoneBackCanBeStrict`). While the recorded times are in order, one reading is
  answered alike exactly when nothing was dropped or the last time dropped is outside the window,
  and otherwise too leniently (`RateLimit.QueueCountsExactly`). The guarantees over whole runs take
  readings that do not decrease.
- A client of the document listing that steps by the limit it asked for gets the whole listing
  exactly when the cap of 100 makes no difference (`Documents.SteppingByTheRequestExactly`).

## Model

| member | source | states |
|---|---|---|
| `ReferenceData.ValidatePackageRecords` | backend/engineering_core/validation.py:35-54 | the nested loops accept exactly the packages of a known dataset with at least one record, every record an object in which some key of each required group is given and every given numeric key is a number; the report is the full error list cut at 100, and cutting never changes the verdict |
| `ReferenceData.CheckRecord` | backend/engineering_core/validation.py:44-53 | one record contributes exactly its own errors after those already found |
| `ReferenceData.PackageErrorsEmpty` | backend/engineering_core/validation.py:42-54 | there are no errors exactly when every record is valid |
| `ReferenceData.PackageErrorsExactly` | backend/engineering_core/validation.py:42-54 | the errors are exactly the faults of the rows: a row that is no object, a required group of a row with nothing given, a numeric key given as something else |
| `ReferenceData.PackageErrorsInOrder` | backend/engineering_core/validation.py:42-54 | the errors come in the order of the rows, so a report cut at 100 holds those of the first rows |
| `ReferenceData.ContentExactly` | backend/engineering_core/validation.py:15-54 | content is valid exactly when the dataset is one of the four, there are records, and each gives one key of every group the dataset asks for (named key by key) and numbers in its numeric keys |
| `ReferenceData.ToleranceExact` | backend/engineering_core/validation.py:57-72 | the percentage test passes exactly when 100 times the absolute deviation is at most the tolerance times the absolute reference |
| `VersionHistory.MintAppends` | backend/app.py:1110-1114 | approving a package appends version v(k+1) of its dataset; the uniqueness constraint never makes INSERT OR IGNORE drop it |
| `VersionHistory.StepKeepsVersions` | backend/app.py:1101-1177 | every request keeps: versions of a dataset are v1..vk in id order, all of confidence 4 and of an existing package of their dataset, at most one active |
| `VersionHistory.RunKeepsVersions` | backend/app.py:1101-1177 | the same after any run of requests |
| `VersionHistory.StepRefinesLine` | backend/app.py:1101-1177 | each request moves each dataset's pair (versions minted, version active) by mint, activate, step back, or not at all |
| `VersionHistory.RollbackRefines` | backend/app.py:1168-1177 | rolling back v_j activates v_(j-1) of that dataset and touches no other; it is refused with 400 exactly when j is 1 |
| `VersionHistory.RollbackChain` | backend/app.py:1168-1177 | n rollbacks of the active version of a dataset take v_j to v_(j-n) |
| `VersionHistory.RollbackChainEnds` | backend/app.py:1168-1177 | the chain from v_j succeeds j-1 times and is then refused |
| `VersionHistory.ActiveForever` | backend/app.py:1157-1177 | a dataset that has an active version has one after every later run |
| `VersionHistory.CoverageForever` | backend/app.py:1305-1307 | the test that all four datasets are active never goes from true back to false |
| `PackageHistory.StatusIsLastSet` | backend/app.py:1101-1117 | after any run a package is what it was, with the status that the last accepted request gave it |
| `PackageHistory.ActivatableExactly` | backend/app.py:1157-1166 | after any run a version can be activated exactly when its package was last set to approved and has confidence 4 |
| `PackageHistory.WithdrawnStaysOut` | backend/app.py:1163 | once a package is set to anything but approved, activating one of its versions is refused until it is approved again |
| `PackageHistory.RevivedExactly` | backend/app.py:1168-1177 | a version of a package that is not approved becomes active through a request exactly when its successor is rolled back |
| `PackageHistory.WithdrawnCanBeRevived` | backend/app.py:1168-1177 | a run in which a version becomes active after its package was rejected |
| `VersionSignature.EngineLibrary` | backend/app.py:1214-1247 | the loop over joined rows computes the dictionary rendering, and production readiness as coverage of the required datasets |
| `VersionSignature.RenderersAgree` | backend/app.py:1179-1184 | in every reachable state the active-data, engine-library and certificate signatures are one string |
| `VersionSignature.ReadRender` | backend/app.py:1297 | a rendered signature reads back as the pairs it was rendered from |
| `VersionSignature.SignatureDetermines` | backend/app.py:1294-1297 | two states print equal signatures exactly when the same version of each dataset is active in both |
| `TraceHistory.WriteTraceExactly` | backend/app.py:568-572 | the signature printed right after a trace is written is the active one exactly when the id carried no trace rows before |
| `TraceHistory.PrintStaysExactly` | backend/app.py:1413-1436 | over every run an existing calculation survives the same signature is printed for it, exactly when no unfinished `add` holds its id |
| `TraceHistory.PrintedForever` | backend/app.py:568-572 | so what is printed after a trace is written never changes exactly when no other unfinished `add` holds the same id |
| `TraceHistory.AddIsFaithfulExactly` | backend/app.py:565-572 | at the request that adds a calculation: with any requests before a trace is read for it and any after, releases print the signature active at that read, exactly when the id it was given carries no trace rows and no other unfinished `add` holds it |
| `TraceHistory.LoneWriteExactly` | backend/app.py:565-572 | for an id that no other unfinished `add` holds, any one such run is faithful exactly when the id carried no trace rows, so every run is or none |
| `TraceHistory.HistoryIsFaithful` | backend/app.py:565-572 | on every run without deletions releases print, for every calculation and at every later moment, the signature active when its trace was read |
| `TraceHistory.ReusedIdMixesTraces` | backend/app.py:583-588 | a run with one deletion in which a reused id prints the versions of two calculations |
| `TraceHistory.HeldIdIsGivenOut` | backend/app.py:565-588 | a run of an `add` and a deletion between its commits, after which the tables show no trace and yet no add that follows is always faithful |
| `TraceHistory.StepKeepsFresh` | backend/app.py:558-572 | without deletions ids are 1, 2, ... in order and each is traced at most once, by its own `add` |
| `RevisionHistory.LatestIsLast` | backend/app.py:1408-1412 | the highest revision number finds the revision inserted last, and that number is how many there are |
| `RevisionHistory.StepKeepsRevisions` | backend/app.py:1349-1399 | every request keeps: revision numbers of a calculation are 1..n without gaps, approved implies locked, approved or rejected implies a reviewer other than the author |
| `RevisionHistory.RunKeepsRevisions` | backend/app.py:1349-1399 | the same after any run of requests |
| `RevisionHistory.RunEvolves` | backend/app.py:1349-1399 | over any run snapshots, authors and numbers stay, locks are never lifted, draft and review are never re-entered from later states, and a locked calculation gains no revision |
| `RevisionHistory.ReadyMeans` | backend/app.py:1426-1448 | each calculation of a ready project is locked, its latest revision was reviewed by someone other than its author, and no later run adds a revision to it |
| `RevisionHistory.ReadyPersistsExactly` | backend/app.py:1446-1448 | a ready project stays ready through a request exactly when it is not an added calculation without an approved revision under its id, a rejection of a latest revision, or a deletion of the last calculation |
| `RevisionHistory.AddIsReviewedExactly` | backend/app.py:558-567 | at the request that adds a calculation: over every later run it survives, an approval standing for it is always one of a revision made since, exactly when the id it was given carried no revision rows |
| `RevisionHistory.LaterRevisionsRecord` | backend/app.py:1349-1358 | while a calculation survives, every revision made under its id records that calculation and was made by its owner |
| `RevisionHistory.UnusedIdIsReviewed` | backend/app.py:1380-1388 | on such an id a later approval is of the calculation itself, by someone other than its owner |
| `RevisionHistory.LeftoverCanBeApproved` | backend/app.py:1380-1388 | a revision row left under a reused id can be approved by someone else and then stands for the new calculation |
| `RevisionHistory.ReadyIsReviewed` | backend/app.py:1426-1448 | as a special case, on runs without deletions what a ready project releases is the approved snapshot, approved by someone other than the calculation's owner |
| `RevisionHistory.ReusedIdInheritsApproval` | backend/app.py:583-588 | a run with one deletion in which an unreviewed calculation makes its project ready |
| `ReleaseDb.StepKeepsOk` | backend/app.py:1076-1399 | every request keeps the invariants of versions, traces, revisions and ids together |
| `ReleaseDb.ReachableOk` | backend/app.py:1076-1399 | all of them hold in every reachable state |
| `ReleaseDb.AllPassed` | backend/app.py:1273-1284 | the stored pass marks add up to the number of golden cases exactly when every case is within its tolerance |
| `ReleaseDb.Summarise` | backend/app.py:1431-1446 | one item per calculation, with its id, the number and status of its last revision row or none, and the signature of its own trace rows; approved counts the approved items, approved plus open is the total, and approved is the total exactly when every latest revision is approved |
| `ReleaseDb.ReleaseIsFaithfulExactly` | backend/app.py:1413-1436 | over every run, the items that releases hold for a calculation just added carry the signature active when a trace was read for it, exactly when its id carries no trace rows and no other unfinished `add` holds it |
| `ReleaseDb.ReleaseHistoryIsFaithful` | backend/app.py:1413-1436 | without deletions that holds of every item of every release |
| `ReleaseDb.QualityGate` | backend/app.py:1252-1263 | the full scan reports one line per package, newest first, with its own verdict and the first hundred of its own findings; the count of passed is that of the lines that passed, and there is no failure exactly when every package is valid |
| `ReleaseDb.GatePasses` | backend/app.py:1298-1303 | the early-exit scan of the certificate agrees with it |
| `ReleaseDb.ProjectRows` | backend/app.py:1405 | selecting a project's rows and requiring all approved is the declarative readiness |
| `ReleaseDb.CoveredByPairs` | backend/app.py:1305-1307 | the subset test on active datasets is coverage of the four required ones |
| `ReleaseDb.ReleaseDb.CreateDataPackage` | backend/app.py:1076-1094 | accepted exactly for a known dataset, a confidence of 1 to 4, at most 50000 parsed records and a new hash, and then stored as given, as a draft; each refusal has its own code and stores nothing |
| `ReleaseDb.ReleaseDb.SetDataPackageStatus` | backend/app.py:1101-1117 | accepted exactly for a known status and package, approval only at confidence 4; then the package has that status and nothing else of any package changes; approval, and nothing else, appends exactly one version, numbered next of its dataset and inactive |
| `ReleaseDb.ReleaseDb.Activate` | backend/app.py:1157-1166 | accepted exactly for a version whose package is approved with confidence 4; the two UPDATE statements make it the only active one of its dataset and change nothing else |
| `ReleaseDb.ReleaseDb.Rollback` | backend/app.py:1168-1177 | accepted exactly when an earlier version of the dataset exists; the last such one becomes the only active one, whatever the status of its package |
| `ReleaseDb.ReleaseDb.NewProject` | backend/app.py:1336-1342 | accepted from everyone but viewers; the new project is the caller's and all others stay |
| `ReleaseDb.ReleaseDb.Add` | backend/app.py:558-567 | accepted exactly from non-viewers for no project or an own one; appends one row under the largest id in use plus one, which then awaits its traces |
| `ReleaseDb.ReleaseDb.AddTraces` | backend/app.py:568-572 | the second commit appends one trace row for each version active then, in id order, with its dataset, id, number and package |
| `ReleaseDb.ReleaseDb.Delete` | backend/app.py:583-588 | accepted exactly for an own calculation and not from viewers; exactly that row goes, its traces and revisions stay |
| `ReleaseDb.ReleaseDb.Clear` | backend/app.py:590-594 | exactly the caller's calculations go |
| `ReleaseDb.ReleaseDb.NewRevision` | backend/app.py:1349-1358 | accepted exactly for an own calculation that is not locked; appends a draft with the stored row as snapshot, numbered by how many there are |
| `ReleaseDb.ReleaseDb.Submit` | backend/app.py:1365-1372 | accepted exactly for a draft of an own, existing calculation; only that row changes |
| `ReleaseDb.ReleaseDb.Approve` | backend/app.py:1380-1388 | accepted from non-viewers exactly for a revision someone else made, whatever its status; it is then approved and locked, and only that row changes |
| `ReleaseDb.ReleaseDb.Reject` | backend/app.py:1390-1399 | accepted in the same cases; the revision is rejected, its lock stays, and only that row changes |
| `ReleaseDb.ReleaseDb.ReleasePackage` | backend/app.py:1426-1460 | the stored package holds one item for each calculation of the project, in id order, each with its last revision row and the signature of its own traces, and the two counts; it is ready exactly when the project has calculations and each one's highest revision is approved |
| `ReleaseDb.ReleaseDb.CreateGoldenCase` | backend/app.py:1273-1284 | a stored case passes exactly when it is within its tolerance |
| `ReleaseDb.ReleaseDb.CreateReleaseCertificate` | backend/app.py:1291-1316 | holds the active signature, how many golden cases there are and how many are within their tolerance; production-ready exactly when every package validates, all four datasets are active, and there is a golden case and each is within its tolerance |
| `RateLimit.Prune` | backend/app.py:177 | the popping loop is the eviction of expired times from the front |
| `RateLimit.CountRecentSelects` | backend/app.py:177-180 | the recent times are those recorded at most a window ago, and the count is how many there are |
| `RateLimit.QueueCountsExactly` | backend/app.py:176-180 | for one clock reading, forward or back, after times recorded in order: the pruned queue is as long as the number of recent times in the whole history exactly when nothing was ever dropped or the last time dropped is outside the window |
| `RateLimit.QueueCountsAlwaysExactly` | backend/app.py:176-180 | for a queue that is the end of any history, in order or not: that holds at every reading exactly when the queue is the whole history and the history is in order |
| `RateLimit.QueueCountsRecent` | backend/app.py:176-180 | in particular while the clock does not go back: what was evicted never matters again |
| `RateLimit.ClockGoingBackIsLenient` | backend/app.py:177 | while the recorded times are in order, a clock that goes back never makes a limiter stricter than the full history |
| `RateLimit.ApiLimiter.Request` | backend/app.py:171-181 | for readings that do not decrease, a request is refused exactly when the maximum number of accepted requests of its key lie in the window; only accepted ones are recorded, and for every key any max+1 consecutive ones span more than the window |
| `RateLimit.RecordKeepsSpacing` | backend/app.py:177-180 | recording a time when fewer than the maximum are recent keeps every max+1 consecutive ones more than a window apart, also when it is recorded later than it was checked |
| `RateLimit.ClockMustNotGoBack` | backend/app.py:177 | a clock that goes back lets through a request the full history would refuse |
| `RateLimit.ClockGoneBackCanBeStrict` | backend/app.py:177-180 | once an earlier time is recorded, a request is refused that the full history would allow |
| `RateLimit.LoginLimiter.Login` | backend/app.py:529-549 | for readings that do not decrease, an attempt is refused unread exactly when five failures since the last success are at most 300 s old; a success clears them, and any six consecutive failures span more than 300 s |
| `Torque.CoefficientSign` | backend/engineering_core/torque.py:26-30 | without bearing friction the coefficient is positive exactly when pitch times friction is below pi times d2 times cos 30 |
| `Torque.CoefficientPositive` | backend/calculation_engine/joint_analysis.py:205-214 | under that condition the coefficient is positive, so the guard of the inverse does not fire |
| `Torque.CoefficientBalance` | backend/engineering_core/torque.py:26-30 | with divisions and tangents multiplied out, pitch and thread friction act at half the pitch diameter and bearing friction at half the bearing diameter |
| `Torque.CoefficientIncreases` | backend/engineering_core/torque.py:26-30 | the coefficient grows strictly with thread friction and with bearing friction |
| `Torque.BoundsKeepBelowRightAngle` | backend/engineering_core/geometry.py:18-30 | a pitch that leaves a positive core diameter and friction up to 1 always meet the condition |
| `Torque.TorqueRoundTrip` | backend/calculation_engine/joint_analysis.py:176-215 | torque to preload and preload to torque undo each other |
| `Torque.TorqueOrder` | backend/calculation_engine/joint_analysis.py:188-194 | a torque is at least that of a preload exactly when its preload is at least that preload, and so below |
| `Torque.JointTorquesOrdered` | backend/engineering_core/joint.py:28-37 | ordered friction limits give positive torques min <= nom <= max, equal only for equal friction |
| `JointAnalysis.ComplianceAdds` | backend/vdi2230_core/stiffness.py:46-70 | one more segment adds its length over modulus times area to the compliance |
| `JointAnalysis.SeriesStiffness` | backend/calculation_engine/joint_analysis.py:391-406 | the stiffness loop returns the reciprocal of the summed compliances, and nothing without segments |
| `JointAnalysis.TorqueCoefficient` | backend/calculation_engine/joint_analysis.py:205-214 | positive on every request the endpoint accepts with a valid thread, and balances the request's own pitch, diameters, thread friction and bearing friction |
| `JointAnalysis.LoadFigures` | backend/calculation_engine/joint_analysis.py:361-451 | the stress area is that of the circle halfway between pitch and minor diameter, the preload its share of the yield load; bolt and clamp stiffness are those of the bolt's and the joint's own segments; phi is the bolt's share of the summed stiffness and lies strictly between 0 and 1; the bolt takes phi of the axial load, and the bolt's load minus the clamp's is the axial load |
| `JointAnalysis.TorqueWindow` | backend/calculation_engine/joint_analysis.py:514-595 | with phi known a torque is at least the lower bound exactly when the clamp left by its preload is at least the required one, and at most the upper bound exactly when its preload is at most rp02 times area times ratio; the window is called inverted exactly when no torque meets both |
| `JointAnalysis.TorqueAdvice` | backend/calculation_engine/joint_analysis.py:465-512 | the recommended torque, in Nm, is the target preload times the coefficient, and the implied preload takes the applied torque; the recommended torque is above the lower bound exactly when the residual clamp suffices and below the upper bound exactly when the target ratio is at most the maximum |
| `JointAnalysis.SafetyFigures` | backend/calculation_engine/joint_analysis.py:597-626 | the utilization is present exactly when stress and limits are given and in range, and times the limit is the stress; the factor is its reciprocal, present exactly for a positive stress |
| `JointAnalysis.SafetyExplained` | backend/calculation_engine/joint_analysis.py:597-635 | in terms of the request: the utilization times yield limit times stress area is the service load, with the axial share when it is known; it is given exactly with a preload, a fail threshold above any warn threshold, and no negative load; it fails exactly above the fail threshold and warns exactly between the two |
| `JointAnalysis.EvaluateSafety` | backend/vdi2230_core/result.py:56-155 | a verdict is given exactly on complete evidence and inputs given and in range, and each other status exactly on its own fault; fail exactly above the fail threshold, warn exactly above a given warn threshold otherwise |
| `JointAnalysis.Summarise` | backend/calculation_engine/joint_analysis.py:637-657 | each critical finding is raised exactly on its condition, coverage counts the quantities evaluated, and readiness is full exactly with both bounds and the utilization, a partial window exactly with a bound otherwise, partial exactly with something evaluated but no bound |
| `JointAnalysis.AnalyzeJoint` | backend/calculation_engine/joint_analysis.py:361-657 | a request is refused exactly when some figure is out of its bounds (backend/app.py:903-933); an accepted one fails exactly for a pitch too large for its diameter, and otherwise all of the above hold together |
| `DocumentErrors.SummaryNamesTheError` | backend/documents/ingestion_service.py:102-137 | two listed errors have equal persisted codes only if they are the same error |
| `ContentValidation.ExtensionExactly` | backend/documents/content_validation.py:120-149 | an extension is the lowercased text from the last dot on, and empty exactly without a dot or with nothing behind it |
| `ContentValidation.ExtensionAcceptedExactly` | backend/documents/content_validation.py:120-174 | a name is accepted as a format exactly when, lowercased, it ends in that format's suffix |
| `ContentValidation.ValidateArchiveSafety` | backend/documents/content_validation.py:439-508 | the accumulating loop accepts exactly when entry count, per-entry, total and ratio conditions hold over the whole list |
| `ContentValidation.NothingFromNothing` | backend/documents/content_validation.py:504-508 | the last branch is unreachable: without an entry from nothing, zero compressed means zero uncompressed |
| `ContentValidation.ArchiveOrderIrrelevant` | backend/documents/content_validation.py:480-508 | the verdict is the same for every order of the entries |
| `ContentValidation.AcceptableIsAccepted` | backend/documents/content_validation.py:560-616 | an upload meeting every condition passes, as the format of its suffix |
| `ContentValidation.AcceptedIsAcceptable` | backend/documents/content_validation.py:560-616 | only such an upload passes |
| `ContentValidation.GuardsExactly` | backend/documents/content_validation.py:560-616 | validation refuses an upload as a given error exactly when that is the first failing guard, in the order name, empty, size, content type, parts of the package, archive |
| `Extraction.ManyCharactersAreMeaningful` | backend/documents/ocr_adapter.py:198-210 | text with twenty visible characters is neither blank nor the word None once stripped |
| `Extraction.JoinedInOrder` | backend/documents/ocr_adapter.py:325 | joined text holds every part whole, in order, each behind the lengths of those before it and two newlines after each, and nothing else |
| `Extraction.RecognisePages` | backend/documents/ocr_adapter.py:280-330 | the page loop reports the first page that fails, refuses over fifteen pages, and otherwise returns every page's text in page order, blank lines between, stripped of the white space around it |
| `Extraction.MeaninglessExactly` | backend/documents/markitdown_adapter.py:103-117 | what the converter says counts as nothing exactly when it is no text, only spaces, or the word None between spaces |
| `Extraction.MeaningfulExactly` | backend/documents/ocr_adapter.py:198-210 | recognised text is accepted exactly with twenty visible characters, at least three fifths of them printable |
| `Extraction.OcrPdf` | backend/documents/ocr_adapter.py:236-340 | around it, opening is guarded; the page count, the engine's version and closing are not |
| `Extraction.OcrAcceptsExactly` | backend/documents/ocr_adapter.py:266-338 | OCR succeeds exactly on an open document of at most fifteen pages, all recognised, whose joined text is meaningful, when the unguarded calls answer |
| `Extraction.OcrCrashesExactly` | backend/documents/ocr_adapter.py:279-340 | and raises something of its own exactly when closing or the page count fails, or the version lookup after legible pages |
| `Extraction.OcrRefusedExactly` | backend/documents/ocr_adapter.py:236-340 | OCR is refused as unavailable, failed, over the page limit, timed out or empty exactly on its own condition, a failing page counting only if it is the first |
| `Extraction.OcrReadsVisiblePage` | backend/documents/ocr_adapter.py:198-210 | one recognised page of twenty visible characters is enough |
| `Extraction.ExtractedTextIsReal` | backend/documents/markitdown_adapter.py:357-462 | whatever converter and engine answer, extracted text is meaningful, hashed and counted as stored, of an acceptable upload, and from OCR exactly when the conversion said nothing, and then of a PDF |
| `Extraction.RefusedExactly` | backend/documents/markitdown_adapter.py:357-462 | an extraction is refused as a given error exactly when that is the first guard the upload fails, or the upload is acceptable and its conversion fails so |
| `Extraction.FailureIsNotEmptiness` | backend/documents/markitdown_adapter.py:361-391 | after a failed or meaningful conversion the OCR engine has no influence |
| `ContentValidation.ValidationCrashesExactly` | backend/documents/content_validation.py:403-408 | validation breaks off with a foreign exception exactly when the ZIP reader raises one other than BadZipFile on a plausible upload |
| `Extraction.CrashesExactly` | backend/documents/markitdown_adapter.py:357-462 | an extraction ends in something other than a result or an ingestion error exactly when one of the calls outside every handler fails: ZIP reader, page count, engine version, closing, converter version, text encoding |
| `Documents.DocumentStore.CreateProcessingRecord` | backend/documents/repository.py:164-221 | appends one processing row with all result columns null, or nothing when the write is lost; invariant kept |
| `Documents.DocumentStore.Guard` | backend/documents/repository.py:268-277 | a missing row and a row no longer processing are told apart |
| `Documents.DocumentStore.MarkExtracted` | backend/documents/repository.py:241-296 | the guarded update is the specified step, or changes nothing when the write is lost; invariant kept |
| `Documents.DocumentStore.MarkFailed` | backend/documents/repository.py:300-333 | the same for a failure |
| `Documents.DocumentStore.IngestDocument` | backend/documents/ingestion_service.py:180-257 | adds exactly one row once it can be created, the one the extraction's outcome and the fate of the mark determine, leaves all others untouched, and reports accordingly |
| `Documents.RunKeepsRows` | backend/documents/repository.py:164-333 | over every run the columns are null or set exactly as the status says, creation columns never change, and a terminal row never changes |
| `Documents.FinishedOnce` | backend/documents/repository.py:268-333 | in any run a row accepts one mark if it ends terminal and was not before, and none otherwise |
| `Documents.IngestionAmongOthers` | backend/documents/ingestion_service.py:222-257 | whatever other requests commit in between, an ingestion's mark is accepted and its row ends as if it had run alone |
| `Documents.IngestedRowMeaning` | backend/documents/ingestion_service.py:234-257 | the row records whose upload it was; it is left processing exactly when a call outside every handler fails or the mark is lost; extracted rows hold meaningful, hashed and counted text of an acceptable upload with its claimed extension, the converter's or else every recognised page in order; it fails exactly when a guard or the conversion refuses the upload |
| `Documents.FailureStored` | backend/documents/ingestion_service.py:102-137 | a refused upload whose mark is committed ends as a failed row with the code of its reason |
| `Documents.ReplyMatchesRow` | backend/documents/ingestion_service.py:43-50 | a caller is told of success, with the id, exactly when its row is extracted and can be read back; of the reason when its failed row can be read back; of a foreign exception when a call outside every handler fails; and otherwise of the persistence error or the exception that lost the write |
| `Documents.MethodColumnExactly` | backend/documents/repository.py:280-294 | in the row an ingestion leaves, the method column keeps its first value over every later run, and agrees with how that ingestion obtained its text exactly when the conversion said something |
| `Documents.OcrTextIsMislabelled` | backend/documents/markitdown_adapter.py:423-429 | a scan on which OCR succeeds is stored with its text and the wrong method |
| `Documents.OwnedExactly` | backend/documents/repository.py:371-395 | the listing holds exactly the owner's rows, once each, newest first with id as tiebreak |
| `Documents.ListOwnedExactly` | backend/documents/repository.py:370-396 | a page holds the owner's rows from the offset on, as many as asked for but at least one and at most a hundred, and a negative offset counts as none |
| `Documents.PagesAreTheListing` | backend/documents/repository.py:380-395 | for any requested limit, the pages stepped by the clamped limit concatenate to that listing |
| `Documents.SteppingByTheRequestExactly` | backend/documents/repository.py:388-389 | stepping by the requested limit collects the listing exactly when the limit is at most 100 or the owner has at most 100 rows |
| `Documents.SteppingByTheRequestSkips` | backend/documents/repository.py:388-389 | otherwise no page ever shows the row at position 100 |
| `Documents.ListingOrderForever` | backend/documents/repository.py:374-378 | whatever happens later, rows listed now keep their relative order |
| `Documents.OwnedReadExactly` | backend/documents/repository.py:336-360 | a read succeeds exactly for the rows of the reader's own listing |
| `CsvExport.GuardedIsSafe` | backend/governance/joint_revision_csv.py:70-97 | no guarded cell's first non-whitespace character is a trigger, and guarding twice is guarding once |
| `CsvExport.SafeCellExactly` | backend/governance/joint_revision_csv.py:70-97 | a cell is empty for a missing value, the text behind one apostrophe when its first visible character is one of the four triggers, and the text itself otherwise |
| `CsvExport.GuardCollidesExactly` | backend/governance/joint_revision_csv.py:91-97 | two texts export alike exactly when they are equal or one is the guarded form of the other |
| `CsvExport.FormulaCellsExactly` | backend/governance/joint_revision_csv.py:100-124 | a cell of a row starts like a formula exactly when it is the id and the id is negative |
| `CsvExport.QuotedExactly` | backend/governance/joint_revision_csv.py:127-143 | a field is written as it is exactly when it holds no comma, quote or line break and is not an empty record |
| `CsvExport.BuildCsvText` | backend/governance/joint_revision_csv.py:127-143 | the writer loop emits the header and one row per projection, in order; what it emits reads back as stated below |
| `CsvExport.Serialize` | backend/governance/joint_revision_csv.py:146-159 | the byte-order mark is prepended once, and the document reads back as stated below |
| `CsvExport.ExportReadsBack` | backend/governance/joint_revision_csv.py:100-159 | an RFC 4180 reader gets back the header and, for each projection in order, a record of its id in decimal and the guarded source system, source status, lifecycle group, canonical status, outcome and safe reason, with commas, quotes and line breaks inside |
| `CsvExport.ExportDetermines` | backend/governance/joint_revision_csv.py:127-159 | equal exports come from equally many projections with the same ids and guarded texts |
| `MaterialRanking.TighteningOnlyRemoves` | backend/calculation_engine/material_intelligence.py:198-222 | matching a tighter requirement after a looser one is matching the tighter one: tightening only strikes records off |
| `MaterialRanking.MarginRatio` | backend/calculation_engine/material_intelligence.py:355-374 | the appended ratios and their minimum are the margin |
| `MaterialRanking.MarginExactly` | backend/calculation_engine/material_intelligence.py:355-374 | for every requirement the margin is the least number that times a stated nonzero minimum gives the record's value, and absent when there is none |
| `MaterialRanking.MarginPresentExactly` | backend/calculation_engine/material_intelligence.py:355-374 | among matching records a margin is present exactly when the requirement states a nonzero number |
| `MaterialRanking.MarginIsReserve` | backend/calculation_engine/material_intelligence.py:308-311 | for a non-negative requirement the margin is the greatest factor by which it could be raised with the record still matching |
| `MaterialRanking.MarginAtLeastOne` | backend/calculation_engine/material_intelligence.py:355-374 | so every candidate's margin is at least 1 |
| `MaterialRanking.MarginAtLeastOneExactly` | backend/calculation_engine/material_intelligence.py:355-374 | for any requirement, a matching record's margin is at least 1 exactly when it meets every negative minimum exactly |
| `MaterialRanking.NegativeMinimumBreaksMargin` | backend/calculation_engine/material_intelligence.py:360-363 | a matching record with margin -1, under a minimum the endpoint refuses and only a direct caller can state |
| `MaterialRanking.MarginSoundExactly` | backend/calculation_engine/material_intelligence.py:308-311 | a requirement gives every matching record a margin of at least 1 exactly when it is non-negative |
| `MaterialRanking.RecommendMaterials` | backend/calculation_engine/material_intelligence.py:377-477 | the loops compute the ranked candidates; available exactly when some record has every stated minimum and names the family; insufficient data exactly without records, comparison only exactly when all are reference-only or all are pending |
| `MaterialRanking.RankingExact` | backend/calculation_engine/material_intelligence.py:430-462 | the candidates are a permutation of the records that meet the requirement, with their margins, all present or all absent; by falling margin and among equal margins by id, or in source order when none |
| `MaterialRanking.RankingIgnoresSourceOrder` | backend/calculation_engine/material_intelligence.py:451-461 | with distinct ids the ranking depends on the set of records only |
| `LibraryRecords.StampTwice` | tools/generate_faz2_4_1b_bolt_nut_records.py:74-78 | writing the same fields and restamping the checksum changes nothing |
| `LibraryRecords.Backfill` | tools/generate_faz2_4_1b_bolt_nut_records.py:333-373 | the in-place loop updates each legacy record and no other and counts them, or fails exactly when a legacy record lacks what it reads |
| `LibraryRecords.Generate` | tools/generate_faz2_4_1b_bolt_nut_records.py:446-558 | the append loops make one record per plan, or fail with the first that cannot be made |
| `LibraryRecords.FillLegacyTwice` | tools/generate_faz2_4_1b_bolt_nut_records.py:319-328 | a backfill that reads none of what it writes is idempotent and leaves all other fields alone |
| `LibraryRecords.StageIdempotent` | tools/generate_faz2_4_1b_bolt_nut_records.py:705-738 | a file the generator has written is a fixed point of it |
| `LibraryRecords.StageExactly` | tools/generate_faz2_4_1b_bolt_nut_records.py:717-755 | a file is saved exactly when it can be filled in and rebuilt, has a description, its kept records have ids, and no id is given twice or clashes; it then holds the kept and the new records, the new version, and a description extended once |
| `LibraryRecords.StageKeeps` | tools/generate_faz2_4_1b_bolt_nut_records.py:705-714 | records it did not generate are all kept, in order, filled in at most, and come before the generated ones |
| `LegacyBackfill.LookupExactly` | tools/generate_faz2_4_1b_bolt_nut_records.py:81-89 | looking a thread up finds the last library entry of its diameter and series, and nothing exactly when there is none |
| `LegacyBackfill.PlainThread` | tools/generate_faz2_4_1b_bolt_nut_records.py:301-316 | "M" and a diameter is the coarse thread of that diameter |
| `LegacyBackfill.PitchedThread` | tools/generate_faz2_4_1b_bolt_nut_records.py:301-316 | with a pitch it is fine exactly when the library's fine thread of that diameter has that pitch |
| `LegacyBackfill.BoltFilledExactly` | tools/generate_faz2_4_1b_bolt_nut_records.py:319-373 | the bolt backfill passes over every record but a legacy ISO 4017 or 4762, raises exactly on one without a diameter or a class, and otherwise fills in exactly these columns from the record's own diameter, head, class and standing |
| `LegacyBackfill.NutFilledExactly` | tools/generate_faz2_4_1b_bolt_nut_records.py:376-443 | the nut backfill likewise, from the record's thread, the library's stress area, its class, width and locking type |
| `LegacyBackfill.BoltReadsApart` | tools/generate_faz2_4_1b_bolt_nut_records.py:333-371 | the bolt backfill reads none of the fields it writes |
| `LegacyBackfill.NutReadsApart` | tools/generate_faz2_4_1b_bolt_nut_records.py:396-441 | nor does the nut backfill |
| `GeneratedRecords.BoltCatalogueExactly` | tools/generate_faz2_4_1b_bolt_nut_records.py:446-558 | which bolts are generated: five series at every size, structural ones at seven, four more at six sizes, and a fine-thread ISO 4017 where the library has the thread |
| `GeneratedRecords.NutCatalogueExactly` | tools/generate_faz2_4_1b_bolt_nut_records.py:639-702 | which nuts are generated: three series at every size, structural ones at seven, three more at six sizes |
| `GeneratedRecords.LayInOrder` | tools/generate_faz2_4_1b_bolt_nut_records.py:446-558 | diameter by diameter, at each the series in the order offered |
| `GeneratedRecords.BuiltBoltExactly` | tools/generate_faz2_4_1b_bolt_nut_records.py:120-298 | a bolt is built exactly when the library has its coarse thread and its head can be copied from a complete template or estimated with some weight; it then has the id, standard and family of its series and the columns of its plan, its thread, its class and that head, each spelled out |
| `GeneratedRecords.BuiltNutExactly` | tools/generate_faz2_4_1b_bolt_nut_records.py:568-636 | a nut is built exactly when the library has its coarse thread; it then has the id, standard and family of its series and the columns of its plan and that thread, each spelled out |
| `Regeneration.LegacyFieldsKept` | tools/generate_faz2_4_1b_bolt_nut_records.py:319-328 | a backfilled record agrees with the original on every other field |
| `Regeneration.BoltsAreTagged` | tools/generate_faz2_4_1b_bolt_nut_records.py:99-117 | every generated bolt carries the tag that the next run strips, the fine-thread ISO 4017 ones too |
| `Regeneration.BoltsBuiltExactly` | tools/generate_faz2_4_1b_bolt_nut_records.py:446-565 | building the bolts gets through exactly when every ISO 4017 and ISO 4762 record has a diameter and every planned bolt its coarse thread and its head |
| `Regeneration.NutsBuiltExactly` | tools/generate_faz2_4_1b_bolt_nut_records.py:639-702 | building the nuts gets through exactly when the library has the coarse thread of every planned nut |
| `GeneratedRecords.IdInjective` | tools/generate_faz2_4_1b_bolt_nut_records.py:453-552 | an id determines its series and its diameter |
| `Regeneration.GeneratedBoltIdsDistinct` | tools/generate_faz2_4_1b_bolt_nut_records.py:726 | the duplicate-id assertion cannot fail, whatever the thread library holds |
| `Regeneration.GeneratedNutIdsDistinct` | tools/generate_faz2_4_1b_bolt_nut_records.py:745 | the same for nuts |
| `Regeneration.StrippingProtectsTemplates` | tools/generate_faz2_4_1b_bolt_nut_records.py:722-725 | after stripping no template is a generated record; without it, at every niche diameter with a fine thread, a bolt the generator itself built would replace the original ISO 4017 template |
| `Regeneration.BoltFileExactly` | tools/generate_faz2_4_1b_bolt_nut_records.py:717-739 | after a run the bolt file holds the records it did not generate, in order, legacy ones filled in and otherwise unchanged, and then one record for every planned bolt, under its id and with its columns |
| `Regeneration.SavedHeaders` | tools/generate_faz2_4_1b_bolt_nut_records.py:729-755 | a saved file has the new version and its own note appended to the description unless the mark is there; a bolt file without a description is never saved, a nut file is given one |
| `Regeneration.NutFileExactly` | tools/generate_faz2_4_1b_bolt_nut_records.py:740-755 | the nut file likewise |
| `Regeneration.Library.Regenerate` | tools/generate_faz2_4_1b_bolt_nut_records.py:717-755 | the run saves bolts, then nuts, as specified, and stops where the original raises, with the bolts saved when only the nuts fail |
| `Regeneration.RegenerationIdempotent` | tools/generate_faz2_4_1b_bolt_nut_records.py:705-755 | a second run changes neither file and ends the same way, also when the first stopped between them |
| `ThreadUpgrade.EligibleExactly` | tools/verify_thread_geometry_faz_2_8_2.py:221-366 | eligible is one of the five corroborated coarse sizes whose stored diameters are within 0.0005 and stress area within 0.002 or 0.00002 of itself of the derived ones, all positive and in falling order |
| `ThreadUpgrade.AnalyzeLoop` | tools/verify_thread_geometry_faz_2_8_2.py:370-428 | one verdict per record of the fine series and the coarse sizes from 68 up, by series and diameter with ties as they stood, each with its id, eligibility, need for action and resulting confidence; or an abort exactly when a record in scope has sizes that give no thread |
| `ThreadUpgrade.Tally` | tools/verify_thread_geometry_faz_2_8_2.py:449-470 | unchanged and upgraded add up to the records reviewed, and count the verdicts they name |
| `ThreadUpgrade.ApplyKeepsAnalyzable` | tools/verify_thread_geometry_faz_2_8_2.py:474-545 | applying upgrades neither breaks nor repairs the analysis |
| `ThreadUpgrade.ApplyInPlace` | tools/verify_thread_geometry_faz_2_8_2.py:485-525 | the loop rewrites exactly the records whose id was found to need action |
| `ThreadUpgrade.GeometryNeverChanges` | tools/verify_thread_geometry_faz_2_8_2.py:474-521 | identity, sizes and geometry never change, unnamed records not at all, and named ones get confidence 3, reference-only, still pending, with the revision date, notes, source and a fresh checksum |
| `ThreadUpgrade.NothingLeftToDo` | tools/verify_thread_geometry_faz_2_8_2.py:386-410 | after applying its findings the analysis asks for nothing and reports the same records, order and eligibility, duplicate ids or not |
| `ThreadUpgrade.UpgradeIdempotent` | tools/verify_thread_geometry_faz_2_8_2.py:474-545 | analysing and applying twice leaves what once left |
| `ThreadUpgrade.NamedExactly` | tools/verify_thread_geometry_faz_2_8_2.py:485-487 | a record is rewritten exactly when some record with its id is in scope, eligible and not at target |
| `ThreadUpgrade.UpgradesAreEarnedExactly` | tools/verify_thread_geometry_faz_2_8_2.py:394-410 | in any library only records in scope and eligible are upgraded exactly when no record needing an upgrade shares its id with one that is not both |
| `ThreadUpgrade.UpgradesAreEarned` | tools/verify_thread_geometry_faz_2_8_2.py:394-410 | so with distinct ids only records that were themselves found eligible are upgraded |
| `ThreadUpgrade.SharedIdUpgradesUnverified` | tools/verify_thread_geometry_faz_2_8_2.py:490-500 | with a shared id an unverified record is upgraded too |

## Left out

- HTTP, authentication, JWT, password hashing, audit log, CORS, diagnostics, licence and deployment handlers: plumbing around the modelled state.
- SQLite itself: tables are sequences, ORDER BY is a stable sort, and rows tied on the sort key keep insertion order.
- Columns that nothing modelled reads: most timestamps, notes, titles, `activated_by`, submission times.
- Package and record numbers made from the clock: their uniqueness is not modelled.
- The content of calculations and packages beyond what validation and snapshots need; parsing of uploaded JSON and CSV is an input.
- Calibration cases, translations, AI gateway, assembly and friction reports: finite tables and formatting that would add only easy members.
- `backend/governance/service.py` and `store.py`, `joint_revision_query`: the projections are an input of the export.
- Floating-point rounding: torques, margins and times are reals. The archive ratio is exact, because a ratio above 100 of at most 100 MiB is not lost in a double.
- Unicode lower-casing: `lower` is modelled on the ASCII letters, which decide whether a supported suffix matches.
- Encoding: UTF-8 is the identity on characters of the export; which extracted texts have an encoding is an input.
- Extraction.CrashesExactly: running out of memory and interrupts, which can raise anywhere, are not among the failures.
- Documents.DocumentStore.IngestDocument: an uncommitted write is taken to be rolled back when its exception leaves the request's connection; failures before the row exists are one input.
- Injected `ocr_fn`, `detector=None` and lazily built converter objects: extraction is modelled with the production callables.
- JointAnalysis.AnalyzeJoint: the texts of warnings, traces and missing-input lists are not modelled.
- ReleaseDb.QualityGate: error texts are tags, not the Turkish messages.
- MaterialRanking.RecommendMaterials: the reported margin is not rounded to six decimals, and capability lists and messages are left out.
- Documents.PagesAreTheListing: a listing is given by id, owner and creation time of its rows; the other columns are read off the row with that id.
- RateLimit.LoginLimiter.Login: logins for one name are sequential, as in one worker without awaits in between; names arrive stripped and lower-cased, and the user lookup is an input.
- Regeneration.RegenerationIdempotent: records are maps, so the order of keys inside a saved record is not captured; notes, metadata and other descriptive columns are an arbitrary function of series and diameter.
- Thread library entries, and id, series, size and geometry of thread records, are taken to be present and of their type.
- ThreadUpgrade.AnalyzeLoop: missing keys, the schema check, the duplicate-combination report and the markdown rendering are left out.
