# Project Aegis: verified core

A Dafny model of the parts of Project Aegis that scan, parse and record: the Markdown scanners, the YAML key
walk, the synthetic target ledgers, the liability book and claim source, the CI evidence reader, the consumer
manifest verifier and the pull-request body checker. `dafny verify dfyconfig.toml` checks all of it.

Code that works step by step is a class or a method with loops, proved against a specification function or
predicate. The theorems are lemmas about those specifications, and other lemmas say in plain conditions what the
smaller tests mean that specification and loop share. They hold for every text, payload, tree or table,
and for every sequence of calls, crashes and lost acknowledgements.

| file | what it models |
|---|---|
| `LinkScanner.dfy` | the two-cursor link scanner equals the regular expression it replaced, in linear work |
| `CodeSpans.dfy` | blanking code spans: the one correct pairing of backtick runs, idempotence |
| `UnwrapLinks.dfy` | joining wrapped links and the offset map back to the source lines |
| `LinkMatches.dfy` | the links of a line, and which of them survive when the line is joined to others |
| `SealTable.dfy`, `EffectLedger.dfy`, `ValidatorLedger.dfy` | the append-only target ledgers, over every run |
| `Containment.dfy` | the containment specification and the check a validator request must pass |
| `CiVerdict.dfy` | from job payload and pages to one fail-closed exit code |
| `TableText.dfy` | escaping into table cells, splitting rows, reading cells back |
| `NameOrder.dfy`, `Manifest.dfy` | UTF-8 name order, the manifest printer and parser, the verdict on served bytes |
| `RowCoverage.dfy`, `SkillsTables.dfy` | source-row accounting and crediting of records to tables |
| `LiabilityBook.dfy`, `ClaimSource.dfy` | checkpoint and recovery, the one-use claim |
| `YamlWalk.dfy` | the explicit-stack search for repeated mapping keys |
| `PyText.dfy`, `Options.dfy` | the Python string facts used above, and missing values |

## Findings

* Given an oversized page, `truncated` can be false although the API advertised more jobs than were read.
  `CiVerdict.TruncationExact` states exactly when, by page sizes and totals; `CiVerdict.OverflowHidesShortfall` is a
  concrete case. With at most 100 jobs on each page the flag is exact.
* A job whose name is not a string can raise `TypeError` instead of giving a status. `CiVerdict.TypeErrorIff` says exactly
  when: always, if a name is a list or an object or names of two different kinds stand outside the roster (null beside a
  number raises even in a red run, `CiVerdict.MixedNamesRaise`); otherwise only if nothing is red, a candidate is supplied
  and the head is not known to differ from it (`CiVerdict.NamelessJobRaises`). A red run, a missing candidate or a stale
  head still gets FAILED, UNBOUND or STALE when all strangers are nameless, or all have numbers for names.
* A candidate spelled `not_supplied` is reported UNBOUND even when the run head is spelled the same
  (`CiVerdict.UnboundOrStaleIff`, and `CiVerdict.MarkerCandidateUnbound` for the case).
* Elements of the job list that are not objects never count against a run; `CiVerdict.CompleteIff` has them ignored.
* The comments on paging promise a truncation mark whenever fewer jobs were read than advertised, and the comment on
  table recognition asks only for a first cell named Skill. The model follows the code: the mark has the exception above,
  and all four header cells must match.
* The manifest round trip fails for a row whose name comes first in order and starts with U+FEFF: the text is then refused
  for its byte order mark. `Manifest.ManifestRoundTrip` includes this in its exact condition; `Manifest.BomNameRefused`
  is such a row.
* The manifest parser promises rows or a `ManifestError`, and can raise `ValueError` instead: counts are tested with
  `str.isdigit` and converted with `int`, which do not agree. A superscript two passes the test and makes `int` raise, an
  Arabic-Indic three is read as 3, and an ASCII number longer than the interpreter's limit (4300 digits by default) raises
  too. `Manifest.ParseRaisesIff` says exactly which manifests raise, `Manifest.SuperscriptRaises` is one, and
  `Manifest.Verify` that the process then ends with 1, the code of a finding, and reports none.
* A header or delimiter line of a skills table may itself be a Row source record, because the text before the first
  pipe is not a cell; `SkillsTables.RecordMayBeHeader` and `SkillsTables.RecordMayBeDelimiter` give such lines. Records are still never credited twice, because
  a data row must start with a pipe.
* The comment on joining lines says that a link complete on its own line is still found in the joined text. It need not
  be: an angle bracket opened on the line before can swallow it (`UnwrapLinks.AngleSwallowsLink`), and a stray `[` there
  makes the link start, and be reported, on that line (`UnwrapLinks.StrayBracketMovesLink`). `UnwrapLinks.LinksOfLine` says
  exactly when no link of a line is lost: when the links found across its edges keep clear of its own.

## Model

| member | source | states |
|---|---|---|
| LinkScanner.IterLinkTargets | scripts/validate-skills.py:1703-1761 | for every body the two-cursor scanner yields exactly the targets of the leftmost non-overlapping matches; label work is at most three times the length, target work at most the length plus the number of `](` |
| LinkScanner.MatchIsUnique | scripts/validate-skills.py:1706-1711 | a start position has at most one match, so lazy or greedy label makes no difference |
| LinkScanner.LinkFound | scripts/validate-skills.py:1736-1750 | any label before the first `](` and a terminated run make the next match of the search |
| LinkScanner.LinkRejected | scripts/validate-skills.py:1737-1761 | passing over a closer without label, or whose run stops early, loses no match |
| LinkScanner.Unterminated | scripts/validate-skills.py:1751-1755 | the early return at the end of the body loses no match |
| LinkScanner.ScanTarget | scripts/validate-skills.py:1740-1746 | resuming at the second cursor finds the same run end; its work is paid for by how far the cursor moves |
| LinkScanner.LabelEndsAt | scripts/validate-skills.py:1736-1739 | decides whether a label at or behind `pos` ends at the closer |
| LinkScanner.TargetsArePlain | scripts/validate-skills.py:1743-1750 | a yielded target is never empty and holds no white space and no closing parenthesis |
| LinkScanner.PlainTargetIsFound | scripts/validate-skills.py:1736-1750 | every such text, behind a label without brackets, is yielded |
| YamlWalk.DuplicateMappingKeys | scripts/validate-skills.py:1396-1421 | the stack walk ends and returns, sorted and once each, exactly the keys that some mapping at any depth repeats |
| YamlWalk.VisitMapping | scripts/validate-skills.py:1412-1418 | one mapping yields exactly its repeated non-merge scalar keys and all its keys and values |
| YamlWalk.PopSettles | scripts/validate-skills.py:1408-1420 | popping a node and pushing its children keeps the set of keys still to be found, whatever the order |
| YamlWalk.ChildrenAreSmaller | scripts/validate-skills.py:1407-1420 | the stacked subtrees shrink by one node per turn |
| SealTable.RecordNonexecutionSeal | tools/aegis_delivery_control/adapters.py:107-172 | the outcome does not depend on the row the OR lookup fetches; the receipt names its attestation and the claim is then sealed |
| SealTable.RecordKeeps | tools/aegis_delivery_control/adapters.py:129-167 | each of the five identities keeps naming at most one seal, no seal is dropped, only unexecuted claims are added |
| SealTable.SealReplays | tools/aegis_delivery_control/adapters.py:139-146 | an identical attestation changes nothing and gets the same receipt marked replayed |
| SealTable.SealRebindingRefused | tools/aegis_delivery_control/adapters.py:129-141 | an attestation that shares one identity with another seal is refused and changes nothing |
| SealTable.IdentitiesAreUnique | tools/aegis_delivery_control/adapters.py:129-141 | two rows of a table with the same seal, claim, source, reservation or attestation id are one row |
| SealTable.NewIsRecorded | tools/aegis_delivery_control/adapters.py:142-172 | an attestation for this ledger with five new identities, of an unexecuted claim, is stored and answered, field by field |
| SealTable.ForeignIsRefused | tools/aegis_delivery_control/adapters.py:117-158 | another contact kind, another target or an executed claim is refused and changes nothing |
| SealTable.ReceiptRepeatsAttestation | tools/aegis_delivery_control/adapters.py:139-172 | every field of a receipt is its attestation's, and its hash that of the stored body |
| EffectLedger.Ledger.SealNonexecution | tools/aegis_delivery_control/adapters.py:435-454 | the transaction does exactly what recording the attestation specifies, or nothing |
| EffectLedger.Ledger.ExecuteCommitted | tools/aegis_delivery_control/adapters.py:506-607 | the checks in order, then one insert that commits whole or rolls back |
| EffectLedger.Ledger.Reconcile | tools/aegis_delivery_control/adapters.py:609-614 | reads the stored receipt back, or nothing |
| EffectLedger.RunKeepsInvariant | tools/aegis_delivery_control/adapters.py:435-607 | every run keeps the unique columns unique and only ever adds rows |
| EffectLedger.NeverBothExecutedAndSealed | tools/aegis_delivery_control/adapters.py:561-575 | in no run does a claim have both an effect row and a nonexecution seal |
| EffectLedger.SealedForever | tools/aegis_delivery_control/adapters.py:561-568 | after a seal the claim reconciles to nothing forever and every later contact is denied |
| EffectLedger.LostAcknowledgement | tools/aegis_delivery_control/adapters.py:586-602 | a crash after the commit or a lost receipt changes the acknowledgement only |
| EffectLedger.CommittedForever | tools/aegis_delivery_control/adapters.py:586-614 | after a commit reconcile returns forever the receipt that a lost acknowledgement would have carried, and the claim cannot be sealed |
| EffectLedger.AtMostOneCommit | tools/aegis_delivery_control/adapters.py:569-585 | in one run two commits never have the same claim or the same receipt id |
| EffectLedger.EveryRowHasItsCall | tools/aegis_delivery_control/adapters.py:519-585 | every row of a reachable ledger repeats, field by field, a call of the run that every check before the ledger let pass |
| EffectLedger.PrecheckMeans | tools/aegis_delivery_control/adapters.py:474-547 | the checks let a call pass exactly when it is in order, each condition written out |
| EffectLedger.EveryRowWasInOrder | tools/aegis_delivery_control/adapters.py:474-585 | every row of a reachable ledger comes from a call in order: fresh, bound, issued, admitted, request, intent and capability in agreement |
| EffectLedger.InOrderCommits | tools/aegis_delivery_control/adapters.py:506-607 | a call in order with a new claim and receipt id is stored and acknowledged, field by field, and reconciles |
| EffectLedger.OthersAreDenied | tools/aegis_delivery_control/adapters.py:519-585 | any other call is denied and stores nothing |
| EffectLedger.LedgerReasons | tools/aegis_delivery_control/adapters.py:551-590 | what a call in order is told when its claim is sealed or executed or its receipt id in use, and that a crash before the commit stores nothing |
| EffectLedger.CheckReasons | tools/aegis_delivery_control/adapters.py:519-547 | each denial of a call out of order names a condition that fails |
| EffectLedger.SealIdentitiesAreFinal | tools/aegis_delivery_control/adapters.py:129-146 | after any later events a recorded attestation replays with its receipt and a rebinding one is refused |
| ValidatorLedger.Ledger.ExecuteCommitted | tools/aegis_delivery_control/adapters.py:990-1112 | the checks in order, then the contact guarded by cessation, seal and earlier result, with the three failure-hook positions |
| ValidatorLedger.Ledger.SealNonexecution | tools/aegis_delivery_control/adapters.py:832-851 | the seal transaction over the result table |
| ValidatorLedger.Ledger.SealCessation | tools/aegis_delivery_control/adapters.py:853-937 | replay, rebinding refusal or one new row, whichever row the OR lookup fetches |
| ValidatorLedger.Ledger.Reconcile | tools/aegis_delivery_control/adapters.py:1114-1140 | reads the stored result back, or nothing |
| ValidatorLedger.LookupDecides | tools/aegis_delivery_control/adapters.py:867-889 | any row the cessation lookup can fetch leads to the same reply |
| ValidatorLedger.RunKeepsInvariant | tools/aegis_delivery_control/adapters.py:832-1112 | every run keeps uniqueness, exclusion and the truth of every cessation row, and only adds rows |
| ValidatorLedger.NeverBothExecutedAndSealed | tools/aegis_delivery_control/adapters.py:1044-1058 | in no run does a claim have both a result and a nonexecution seal |
| ValidatorLedger.SealedForever | tools/aegis_delivery_control/adapters.py:1044-1051 | after a nonexecution seal no result of the claim ever appears |
| ValidatorLedger.CommittedForever | tools/aegis_delivery_control/adapters.py:1076-1140 | a committed result is what reconcile returns forever, acknowledged or not |
| ValidatorLedger.CessationStaysTrue | tools/aegis_delivery_control/adapters.py:890-926 | what a cessation row recorded about the result is true in every later state, and no later contact of the claim writes |
| ValidatorLedger.CessationReceiptStaysTrue | tools/aegis_delivery_control/adapters.py:939-954 | the same for the receipt handed out, first time or replayed |
| ValidatorLedger.CessationReplays | tools/aegis_delivery_control/adapters.py:876-889 | a resubmitted cessation changes nothing and repeats its receipt, marked replayed |
| ValidatorLedger.CessationRebindingRefused | tools/aegis_delivery_control/adapters.py:878-887 | with an injective digest an attestation sharing an identity with another is refused |
| ValidatorLedger.SealedAndCeasedAgree | tools/aegis_delivery_control/adapters.py:890-906 | a claim both sealed and ceased has a cessation that names no result |
| ValidatorLedger.EveryResultHasItsCall | tools/aegis_delivery_control/adapters.py:1059-1071 | every result of a reachable ledger repeats a call of the run that every check let pass, and names the containment digest of that call |
| ValidatorLedger.EveryResultIsContained | tools/aegis_delivery_control/adapters.py:306-347 | every result of a reachable ledger comes from a call with exactly the allowed actions, no child process, tool or network, a result within bounds, and each path in its own root and in no other |
| ValidatorLedger.PrecheckMeans | tools/aegis_delivery_control/adapters.py:957-1016 | the checks let a call pass exactly when it is in order and contained, each condition written out |
| ValidatorLedger.EveryResultWasInOrder | tools/aegis_delivery_control/adapters.py:957-1071 | every result of a reachable ledger comes from a call in order |
| ValidatorLedger.InOrderCommits | tools/aegis_delivery_control/adapters.py:1017-1112 | a call in order with a new claim and result id is stored and acknowledged, field by field |
| ValidatorLedger.OthersAreDenied | tools/aegis_delivery_control/adapters.py:1017-1058 | any other call that no hook interrupts is denied and stores nothing |
| ValidatorLedger.LedgerReasons | tools/aegis_delivery_control/adapters.py:1017-1058 | what a call in order is told when support, cessation, seal or result stand against it, in that order |
| ValidatorLedger.CessationIdentitiesAreUnique | tools/aegis_delivery_control/adapters.py:867-887 | two cessations with the same cessation, claim, source or attestation id are one |
| ValidatorLedger.NewCessationIsRecorded | tools/aegis_delivery_control/adapters.py:890-954 | a cessation with four new identities is stored with the result its claim has, or none, and answered field by field |
| ValidatorLedger.ReplayRepeatsRow | tools/aegis_delivery_control/adapters.py:876-889 | a replayed cessation gets the receipt its stored row gives, field by field |
| Containment.PermittedPathsAreIsolated | tools/aegis_delivery_control/contracts.py:1009-1044 | the isolated roots and the containment test together: the three paths of a permitted request are apart, and none lies in the root of another |
| Containment.OneRoot | tools/aegis_delivery_control/adapters.py:281-290 | a path is contained in at most one of two isolated roots |
| Containment.BeneathMeans | tools/aegis_delivery_control/adapters.py:281-290 | the containment test means: relative, never climbing, and the root's parts first; strictly below where the root itself is not allowed |
| Containment.ValidSpecMeans | tools/aegis_delivery_control/contracts.py:1009-1044 | a specification is valid exactly when its three roots are relative and isolated and everything else is denied or bounded |
| Containment.PartsAreNames | tools/aegis_delivery_control/adapters.py:284-285 | the parts of a path are its pieces between slashes without empty ones and single dots |
| ValidatorLedger.SealIdentitiesAreFinal | tools/aegis_delivery_control/adapters.py:129-146 | replay and refusal of nonexecution attestations after any later events |
| CodeSpans.BlankCodeSpans | scripts/ci/check-markdown-links.py:104-134 | blanks exactly the characters, line feeds aside, of the pairing of the text |
| CodeSpans.PairingUnique | scripts/ci/check-markdown-links.py:104-134 | a text has at most one pairing in the sense of section 6.1 of CommonMark 0.31 |
| CodeSpans.MatchingRun | scripts/ci/check-markdown-links.py:85-101 | the nearest later maximal run of that length, or none |
| CodeSpans.RunLength | scripts/ci/check-markdown-links.py:121-123 | measures a maximal run |
| CodeSpans.BlankRange | scripts/ci/check-markdown-links.py:130-132 | overwrites one span in place and nothing else |
| CodeSpans.SurvivingRun | scripts/ci/check-markdown-links.py:125-133 | blanking neither merges nor cuts runs: what is left were runs outside every span |
| CodeSpans.BlankingIdempotent | scripts/ci/check-markdown-links.py:104-134 | blanking twice is blanking once; length and every line feed are kept |
| CodeSpans.OneSpanBlanked | scripts/ci/check-markdown-links.py:104-134 | a text with one pair of backticks, its pairing and what it turns into |
| UnwrapLinks.Unwrap | scripts/ci/check-markdown-links.py:184-250 | the joined lines and maps are those of consecutive maximal groups that cover the input |
| UnwrapLinks.JoinFrom | scripts/ci/check-markdown-links.py:224-246 | joins on exactly while the text so far is open and the next line continues the paragraph |
| UnwrapLinks.GroupEndUnique | scripts/ci/check-markdown-links.py:226-246 | the first line of a group determines its last |
| UnwrapLinks.LinesPartitioned | scripts/ci/check-markdown-links.py:220-250 | the maps, read in order, name the lines 1 to n once each |
| UnwrapLinks.StartsIncrease | scripts/ci/check-markdown-links.py:225-245 | the offsets in one map strictly increase from 0 |
| UnwrapLinks.PartsTileTheText | scripts/ci/check-markdown-links.py:242-245 | every part is exactly the slice from its offset, with one space before the next |
| UnwrapLinks.PartsAre | scripts/ci/check-markdown-links.py:236-244 | a continuation contributes its quote-stripped trimmed text, the first line its text trimmed at the end only |
| UnwrapLinks.SourceLineAt | scripts/ci/check-markdown-links.py:174-181 | the number of the last leading entry that starts at or before the offset |
| UnwrapLinks.LineNamed | scripts/ci/check-markdown-links.py:174-181 | that number is the source line whose own text, or the space joining it, stands at the offset |
| UnwrapLinks.OwnerUnique | scripts/ci/check-markdown-links.py:174-181 | a character of a joined line belongs to one source line |
| UnwrapLinks.EveryLineIsSeen | scripts/ci/check-markdown-links.py:225-246 | when lines are joined, each of them owns the character at its entry's offset, and that character is its own |
| UnwrapLinks.GroupingUnique | scripts/ci/check-markdown-links.py:184-250 | the lines determine the groups, the joined texts and the maps |
| UnwrapLinks.LinksOfLine | scripts/ci/check-markdown-links.py:211-213 | exactly when every link complete on a line is found again, in its place, in the joined text |
| UnwrapLinks.FirstLineKeepsLinks | scripts/ci/check-markdown-links.py:211-213 | the first line of a group loses no link when it has no `<` |
| UnwrapLinks.LinkIsReportedOnItsLine | scripts/ci/check-markdown-links.py:215-218 | the offset of a line's link in the joined text leads back to the number of that line |
| UnwrapLinks.AngleSwallowsLink | scripts/ci/check-markdown-links.py:211-213 | two lines whose join loses a complete link |
| UnwrapLinks.StrayBracketMovesLink | scripts/ci/check-markdown-links.py:211-218 | two lines whose join has the link start on the wrong line |
| LinkMatches.LinkUnique | scripts/ci/check-markdown-links.py:32-32 | a start position has at most one match of the link pattern |
| LinkMatches.FoundAre | scripts/ci/check-markdown-links.py:322-322 | what the search finds are matches that do not overlap |
| LinkMatches.UncoveredIsFound | scripts/ci/check-markdown-links.py:322-322 | a match whose start no found match covers is found |
| LinkMatches.SurvivalIff | scripts/ci/check-markdown-links.py:211-213 | every match of a slice is a match of the whole text exactly when the matches found across its edges overlap none of them |
| LinkMatches.KeptWithoutReach | scripts/ci/check-markdown-links.py:211-213 | nothing of a slice is lost when no match reaches into it and no angle bracket opened in it closes behind it |
| LinkMatches.OrdinaryLink | scripts/ci/check-markdown-links.py:32-32 | a label without brackets and a destination without brackets or parentheses are one match |
| LinkMatches.AngleLinkFound | scripts/ci/check-markdown-links.py:32-32 | in angle brackets a destination may hold parentheses |
| UnwrapLinks.LinkTextOpenMeans | scripts/ci/check-markdown-links.py:148-157 | open link text means some `[` with no `]` behind it |
| UnwrapLinks.LinkTargetOpenMeans | scripts/ci/check-markdown-links.py:160-171 | open link target means: behind the last `](` nothing is closed or a parenthesis opens, and some `[` has no `])` behind it |
| UnwrapLinks.BlockStartMeans | scripts/ci/check-markdown-links.py:40-40 | at most three blanks, then a heading, fence, list item, quote or comment, each written out |
| UnwrapLinks.QuoteMarkerGoes | scripts/ci/check-markdown-links.py:45-45 | up to three blanks, `>` and an optional blank or tab are removed |
| UnwrapLinks.UnquotedStays | scripts/ci/check-markdown-links.py:45-45 | a line without such a marker keeps all of its text |
| UnwrapLinks.QuotedLinesJoin | scripts/ci/check-markdown-links.py:232-245 | an open line and a quoted continuation become one line without the marker, whatever its form |
| UnwrapLinks.PlainLinesJoin | scripts/ci/check-markdown-links.py:232-245 | an open line and an ordinary one become one line |
| CiVerdict.DeriveJobRows | tools/aegis_delivery_control/ci_durations.py:505-570 | one row per roster job, from the first payload job of that name |
| CiVerdict.DurationMeaning | tools/aegis_delivery_control/ci_durations.py:265-270 | the whole seconds between two parseable stamps, 0 for a reversed window, nothing otherwise |
| CiVerdict.CompleteIff | tools/aegis_delivery_control/ci_durations.py:613-692 | COMPLETE, and exit 0, exactly when the run is completed, green, attempt 1 and head-bound, no stranger or truncation is present, and every roster job is demonstrated or allowed to be skipped |
| CiVerdict.RowsCleanMeaning | tools/aegis_delivery_control/ci_durations.py:592-610 | required jobs, unexpected skips and the dependency rule together mean: skipped only where the event allows |
| CiVerdict.PassRanItsJobs | tools/aegis_delivery_control/ci_durations.py:113-136 | a pull request pass ran `changes`, `validate-skills` and `gate-guard` green, a push pass all but `gate-guard`, any other event all six |
| CiVerdict.PullRequestPasses | tools/aegis_delivery_control/ci_durations.py:113-136 | a pull request passes exactly when three named jobs ran green and three others ran green or were skipped, beside what is asked of the run |
| CiVerdict.PushPasses | tools/aegis_delivery_control/ci_durations.py:113-136 | a push passes exactly when five named jobs ran green and `gate-guard` ran green or was skipped |
| CiVerdict.OtherEventPasses | tools/aegis_delivery_control/ci_durations.py:113-136 | on any other event a pass needs all six jobs green |
| CiVerdict.RowMeans | tools/aegis_delivery_control/ci_durations.py:505-570 | missing, unresolved, skipped or executed, and the recorded conclusion, by the first job of that name |
| CiVerdict.UnexpectedNames | tools/aegis_delivery_control/ci_durations.py:592-610 | the marker names exactly the jobs skipped outside the event's allowed set, unless `changes` failed |
| CiVerdict.FailedIff | tools/aegis_delivery_control/ci_durations.py:632-652 | FAILED, and exit 4, exactly when the run completed without success or a roster job ended red, and the job names can be sorted |
| CiVerdict.RedMeans | tools/aegis_delivery_control/ci_durations.py:632-648 | red means: completed without success, or one of six named jobs with one of five conclusions |
| CiVerdict.TypeErrorIff | tools/aegis_delivery_control/ci_durations.py:653-687 | exactly which payloads raise instead of getting a status |
| CiVerdict.UnboundOrStaleIff | tools/aegis_delivery_control/ci_durations.py:653-659 | UNBOUND exactly without a usable candidate, STALE exactly when the recorded head differs from it, when nothing before decides |
| CiVerdict.DeltaMeans | tools/aegis_delivery_control/ci_durations.py:754-758 | the set of names cannot be sorted exactly when a name is a list or an object or two names outside the roster are of different kinds, and not joined exactly when one is not a string |
| CiVerdict.NamelessJobRaises | tools/aegis_delivery_control/ci_durations.py:685-686 | one green nameless job in a green run raises |
| CiVerdict.MixedNamesRaise | tools/aegis_delivery_control/ci_durations.py:755-756 | a null name beside a number raises whatever the run says |
| CiVerdict.MarkerCandidateUnbound | tools/aegis_delivery_control/ci_durations.py:653-655 | a candidate spelled like the absence marker is UNBOUND although it matches the head |
| CiVerdict.FetchJobs | tools/aegis_delivery_control/ci_durations.py:1117-1163 | at most ten pages; the read ends at the first page with a reason to stop and returns all jobs and the last total, and fails exactly when a malformed page comes first |
| CiVerdict.ReasonsToStop | tools/aegis_delivery_control/ci_durations.py:1150-1156 | a page ends the read when it holds at most 99 jobs, is the tenth, or completes the advertised total |
| CiVerdict.TruncationExact | tools/aegis_delivery_control/ci_durations.py:1157-1162 | the flag misses a shortfall exactly when a short page before the tenth ended the read and the pages before it exceeded 100 jobs by at least what that page lacks; with pages of at most 100 jobs it never does |
| CiVerdict.OverflowHidesShortfall | tools/aegis_delivery_control/ci_durations.py:1150-1162 | an input for which the flag misses a shortfall |
| CiVerdict.ReadOutcome | tools/aegis_delivery_control/ci_durations.py:1131-1156 | a read that ends with a page has no other end and does not fail |
| CiVerdict.RunCommand | tools/aegis_delivery_control/ci_durations.py:1166-1236 | each exit code exactly: 3 for an unreadable payload, 2 for an unconfirmed attempt, then 0, 4 or 1 as the read certifies the run, shows it red, or neither |
| TableText.PassesSubstitute | tools/aegis_delivery_control/ci_durations.py:240-247 | the three passes amount to escaping each character on its own |
| TableText.EscapeRoundTrip | tools/aegis_delivery_control/ci_durations.py:221-251 | escaping has a left inverse on every text it does not truncate |
| TableText.EscapedStaysInCell | tools/aegis_delivery_control/ci_durations.py:221-251 | truncated or not, no line break and no unguarded pipe or dangling backslash |
| TableText.EscapedPipesAreEscaped | tools/aegis_delivery_control/ci_durations.py:247-250 | every pipe has an odd number of backslashes before it |
| TableText.EscapedIsPrintable | tools/aegis_delivery_control/ci_durations.py:240-251 | no control, DEL or Unicode separator stays; a cut text keeps 300 characters and says how many are missing |
| TableText.RowKeepsItsShape | tools/aegis_delivery_control/ci_durations.py:830-834 | a job row splits into one cell per column between two empty ones, and untruncated values can be read back |
| TableText.SplitCells | scripts/ci/check_pr_body_skills.py:222-244 | cuts at exactly the pipes that no backslash takes away |
| TableText.SplitThenJoin | scripts/ci/check_pr_body_skills.py:222-244 | the cells joined by pipes are the line |
| TableText.JoinThenSplit | scripts/ci/check_pr_body_skills.py:222-244 | guarded cells joined by pipes split into the same cells; the last may end in a backslash |
| TableText.CellsAreGuarded | scripts/ci/check_pr_body_skills.py:222-244 | no cell of any line holds a pipe that no backslash takes away |
| TableText.SplitMeans | scripts/ci/check_pr_body_skills.py:222-244 | the cells are the one way to write the line as guarded texts joined by pipes |
| LiabilityBook.Book.Open | tools/aegis_delivery_control/capabilities.py:178-187 | opens exactly on valid bounds |
| LiabilityBook.Book.Intake | tools/aegis_delivery_control/capabilities.py:197-214 | accepts, replays or denies a receipt; a denial changes nothing |
| LiabilityBook.Book.Checkpoint | tools/aegis_delivery_control/capabilities.py:216-217 | the receipts in the order they were taken |
| LiabilityBook.Book.Recover | tools/aegis_delivery_control/capabilities.py:219-227 | the replay loop gives a new book in the replayed state, or fails |
| LiabilityBook.RecoverCheckpoint | tools/aegis_delivery_control/capabilities.py:216-227 | after any offers, recovering the checkpoint succeeds with the same receipts, liability and slot and answers every later receipt alike |
| LiabilityBook.RecoverAccepts | tools/aegis_delivery_control/capabilities.py:219-227 | exactly which tuples recover accepts |
| LiabilityBook.StoredReceiptsAreValid | tools/aegis_delivery_control/capabilities.py:197-214 | the receipts of a reachable book are named, of its operation, within the cap, and distinct |
| LiabilityBook.IntakeIff | tools/aegis_delivery_control/capabilities.py:197-214 | exactly which receipts a reachable book accepts, and what each does to it |
| LiabilityBook.LiabilityMeaning | tools/aegis_delivery_control/capabilities.py:189-195 | within the cap; the worst case while no receipt settles the bill, then that receipt's amount |
| LiabilityBook.SettledForever | tools/aegis_delivery_control/capabilities.py:208-213 | a settled book never changes |
| ClaimSource.Source.ClaimIt | tools/aegis_delivery_control/capabilities.py:90-99 | the atomic claim step |
| ClaimSource.Source.RecoverAcknowledgement | tools/aegis_delivery_control/capabilities.py:101-104 | tells the prior winner without a new claim |
| ClaimSource.Source.AuthorizeContact | tools/aegis_delivery_control/capabilities.py:106-111 | re-reads the state before contact |
| ClaimSource.OneWinner | tools/aegis_delivery_control/capabilities.py:93-99 | of all claims in a run at most one wins |
| ClaimSource.WinnerStays | tools/aegis_delivery_control/capabilities.py:93-99 | the winner never changes |
| ClaimSource.HolderWon | tools/aegis_delivery_control/capabilities.py:90-99 | the holder won by a step of the run, with the right token and in time |
| ClaimSource.OnlyTheWinner | tools/aegis_delivery_control/capabilities.py:101-111 | recovery and contact are granted to the winner only |
| ClaimSource.ClosedForever | tools/aegis_delivery_control/capabilities.py:82-111 | after a revocation or supersession no claim wins and no contact is authorized, whatever the clock says |
| ClaimSource.FirstClaimWins | tools/aegis_delivery_control/capabilities.py:82-99 | the first claim in time with the right token wins |
| ClaimSource.WinnerIsServed | tools/aegis_delivery_control/capabilities.py:101-111 | a winner keeps recovery while the source is available, and contact until it is closed or expires |
| NameOrder.ByteOrderIsCodeOrder | scripts/verify_consumer_live.py:135-136 | ordering names by UTF-8 bytes is ordering them by code points |
| NameOrder.EncodingIsUtf8 | scripts/verify_consumer_live.py:135-136 | the bytes of a character are those of section 3 of RFC 3629, and give it back |
| NameOrder.NameOrderTotal | scripts/verify_consumer_live.py:135-141 | any two names compare, and only equal names tie |
| NameOrder.SortForgetsOrder | scripts/verify_consumer_live.py:139-144 | sorting rows with distinct names forgets their order |
| NameOrder.SortedSet | scripts/verify_consumer_live.py:284-286 | each name once, in order |
| Manifest.ParseManifest | scripts/verify_consumer_live.py:151-211 | the parser with its checks in order, and the exception of `int` |
| Manifest.RowErrors | scripts/verify_consumer_live.py:195-208 | which of a row's checks fails first |
| Manifest.TabsDecide | scripts/verify_consumer_live.py:190-194 | a line without exactly three tabs has the wrong number of fields |
| Manifest.ManifestRoundTrip | scripts/verify_consumer_live.py:139-211 | printing and parsing gives the sorted rows and the aggregate back exactly when the rows are publishable and no number is longer than `int` converts |
| Manifest.BomNameRefused | scripts/verify_consumer_live.py:160-161 | a well-formed row named U+FEFF is printed and then refused |
| Manifest.ParseRaisesIff | scripts/verify_consumer_live.py:160-209 | exactly which manifests end the parser with the exception of `int`: a number of the one aggregate comment, or the counts of the first data line that does not parse |
| Manifest.RowsRaiseIff | scripts/verify_consumer_live.py:187-209 | the loop over the data lines raises exactly when some line does after lines that all parse |
| Manifest.ForeignDigit | scripts/verify_consumer_live.py:202-209 | what a whole manifest with one count spelled as a digit beyond ASCII gives, by what `int` does |
| Manifest.SuperscriptRaises | scripts/verify_consumer_live.py:202-209 | a manifest whose one count is a superscript two raises |
| Manifest.ParsedIsGood | scripts/verify_consumer_live.py:189-211 | a parsed manifest has well-formed rows, distinct names, in order |
| Manifest.ShaMeans | scripts/verify_consumer_live.py:99-99 | 64 lower-case hexadecimal digits |
| Manifest.IntOfDigits | scripts/verify_consumer_live.py:202-209 | ASCII digits convert unless the interpreter has a limit and there are more |
| Manifest.CountLfMeans | scripts/verify_consumer_live.py:147-148 | the measured line feeds are the bytes 10 |
| Manifest.SerializeForgetsOrder | scripts/verify_consumer_live.py:139-144 | serialization is invariant under permutation of rows with distinct names |
| Manifest.RowSetFindings | scripts/verify_consumer_live.py:288-299 | exactly the required names without a row and the recorded names not required |
| Manifest.FetchAll | scripts/verify_consumer_live.py:301-325 | measures every served file and reports exactly the missing and the unreadable ones |
| Manifest.PerFileFindings | scripts/verify_consumer_live.py:255-277 | exactly one finding for each value in which a served row differs from its record, with both values |
| Manifest.Verify | scripts/verify_consumer_live.py:280-354 | exit 0 exactly when names, served measurements and the manifest's own aggregate agree; exactly when 2 and 3; 1 without a finding exactly for the uncaught exception; otherwise it reports exactly the findings there are |
| Manifest.PublishedSiteAgrees | scripts/verify_consumer_live.py:280-354 | a site that serves what was measured passes against the manifest written from it |
| RowCoverage.BlockRowCoverage | scripts/ci/check_pr_body_skills.py:276-342 | no error exactly when all parts are well formed and pairwise disjoint; the total is then the sum of their sizes, and always the number of distinct source rows accepted; the errors are those of the loop's turns |
| RowCoverage.NoErrorMeaning | scripts/ci/check_pr_body_skills.py:286-341 | the loop's errors against the pairwise definition |
| RowCoverage.CountMeaning | scripts/ci/check_pr_body_skills.py:342-342 | without error the two sets count what the parts add up to |
| RowCoverage.OrderDoesNotMatter | scripts/ci/check_pr_body_skills.py:276-342 | acceptance and count do not depend on the order of parts |
| RowCoverage.RangeIsRead | scripts/ci/check_pr_body_skills.py:293-296 | two numbers with `..` between them are a range |
| RowCoverage.SingleIsRead | scripts/ci/check_pr_body_skills.py:322-324 | a number without dots is one ordinal |
| RowCoverage.NameIsRead | scripts/ci/check_pr_body_skills.py:297-304 | anything else is a name |
| RowCoverage.CommaSplits | scripts/ci/check_pr_body_skills.py:288-291 | a token is the list of its trimmed non-empty comma-separated parts |
| RowCoverage.RangeCounts | scripts/ci/check_pr_body_skills.py:292-320 | the one token `lo..hi` is accepted exactly within the bounds and names the `hi - lo + 1` rows from `lo` to `hi` |
| RowCoverage.ErrorsMean | scripts/ci/check_pr_body_skills.py:286-341 | each error names a part and says rightly what is wrong with it |
| SkillsTables.FindTables | scripts/ci/check_pr_body_skills.py:398-417 | real tables with all their data rows, in ordered disjoint intervals, none missed |
| SkillsTables.TableListUnique | scripts/ci/check_pr_body_skills.py:398-417 | there is only one such list |
| SkillsTables.CollectTokens | scripts/ci/check_pr_body_skills.py:439-454 | the tokens of the records up to the first line that stops the search |
| SkillsTables.DataRowStops | scripts/ci/check_pr_body_skills.py:441-454 | a data row always stops the search |
| SkillsTables.HeaderIff | scripts/ci/check_pr_body_skills.py:345-359 | of the lines written from lower-case cells exactly the one with the four documented titles is a header |
| SkillsTables.CollapseJoinsWords | scripts/ci/check_pr_body_skills.py:355-355 | words are compared with single blanks between them |
| SkillsTables.DelimiterIff | scripts/ci/check_pr_body_skills.py:361-366 | a line written from trimmed cells is a delimiter exactly when they are four delimiter cells |
| SkillsTables.DelimiterCellIff | scripts/ci/check_pr_body_skills.py:361-366 | at least three hyphens with an optional colon at either end |
| SkillsTables.DataRowIff | scripts/ci/check_pr_body_skills.py:247-272 | exactly which cells make a data row: four, a first one that is no title and no placeholder, and not all rules |
| SkillsTables.DataRowShape | scripts/ci/check_pr_body_skills.py:42-42 | a data row starts with a pipe and has at least five |
| SkillsTables.RecordIff | scripts/ci/check_pr_body_skills.py:44-48 | a record is a comment that starts with `Row source:` and whose first `-->` ends the line |
| SkillsTables.RecordMayBeHeader | scripts/ci/check_pr_body_skills.py:351-359 | a line that is both a Row source record and a table header |
| SkillsTables.RecordMayBeDelimiter | scripts/ci/check_pr_body_skills.py:361-366 | a line that is both a Row source record and a delimiter line |
| SkillsTables.OwedNoteIsRead | scripts/ci/check_pr_body_skills.py:57-59 | the owed note as published, with its capitals, is recognized |
| SkillsTables.NoRecordCreditedTwice | scripts/ci/check_pr_body_skills.py:430-454 | no record is credited to two tables that publish rows |
| SkillsTables.SkillsFieldFailures | scripts/ci/check_pr_body_skills.py:420-471 | no failure exactly when every table that publishes rows is covered by its own records; the failures, in order, are those of the tables |
| SkillsTables.CoveredNamesEnough | scripts/ci/check_pr_body_skills.py:462-470 | a covered table's records name at least as many distinct source rows as it publishes |

## Left out

- ValidatorLedger.Ledger.ExecuteCommitted: the authority's and the state store's answers and the ledger's support record are inputs.
- Containment.PermittedPathsAreIsolated: decoding the canonical JSON of a specification and the size of the rendered result are parameters.
- EffectLedger.Ledger.ExecuteCommitted: the authority's and the state store's answers are inputs; storage.py and authority.py are not part of this model.
- Manifest.ParseManifest: the digits beyond ASCII and `int` on them are parameters, and the bytes are given as decoded text or as undecodable.
- CiVerdict.DeriveJobRows: the skip reason, coverage, exit codes, artifact and log fields of a row are not carried; no status depends on them.
- CiVerdict.CompleteIff: scalar payload fields that hold a list or an object raise an exception in the source; here a field other than the job's name is a string or absent.
- CiVerdict.RunCommand: the marker's reason text, artifact exit codes, step details and the printed report.
- TableText.RowKeepsItsShape: the other lines of the table; values are given as text.
- SkillsTables.SkillsFieldFailures: comment stripping before the lines, and reading the `row=` field out of one record line.
- RowCoverage.BlockRowCoverage: the texts of the errors; `int(...)` is a parameter.
- LinkMatches.SurvivalIff: the targets of the matches, and what the checker does with them; a line holds no line feed.
- UnwrapLinks.Unwrap: the Unicode table of decimal digits in list markers is a parameter.
- YamlWalk.DuplicateMappingKeys: composing the text; a document whose aliases make a cycle is not a finite tree.
- `yaml_indirection` of scripts/validate-skills.py walks the same stack with another per-mapping test.
- SQLite, file ownership, ledger migration and canonical roots: tables are values that a transaction replaces whole.
- Thread interleavings inside one locked method: every operation of the claim source is one atomic step.
- SHA-256, ISO-8601 parsing, Unicode lower case: parameters.
- Surrogate code points: a Dafny character is a Unicode scalar value.
- Network transports, redirects, tokens and fixtures.
- tools/aegis_delivery_control/engine.py, dispatch.py and cli.py.
- Heuristic prose detectors in scripts/validate-skills.py and scripts/audit-skill-contracts.py.
