# Verified model of the Budge-IT backend

Budge-IT ingests bank statements, categorises each line, spots transfers between a user's own accounts,
and reports income and spending. This project models the backend's decision logic in Dafny and proves
what it promises.

| file | what it models |
|---|---|
| `Matching.dfy`, `Transfers.dfy` | transfer pairing: the unique stable matching, and the bucketed code that computes it |
| `Marking.dfy`, `ScanOrder.dfy`, `Totals.dfy` | eligibility filter and retagging, when the order of the unordered query matters, and what marking does to the reported totals |
| `Text.dfy`, `Like.dfy`, `Engine.dfy`, `Levenshtein.dfy` | normalisation, rule matching and SQL LIKE, keyword tiers over an unordered map, edit distance |
| `Ledger.dfy`, `LedgerRuns.dfy`, `Account.dfy` | one user's rows and rules: the ledger as a materialised view of the rule list, runs that break it, and the operations that change it |
| `AdminClaim.dfy` | "first login becomes administrator" under any interleaving |
| `Queue.dfy`, `Cluster.dfy`, `Recovery.dfy`, `Replicas.dfy` | the upload job queue of any number of replicas across crashes and boots: what safe boots keep, recovery, and what an unsafe boot breaks |
| `Session.dfy` | signed session tokens |
| `Amount.dfy`, `Csv.dfy` | statement amounts and the CSV row parser |
| `Rounding.dfy` | why a binary64 amount times 100, rounded, is the exact number of cents |
| `Common.dfy` | small shared types, white space, decimal digits |

Code that changes state step by step is imperative here too: loops over arrays, and a class for the
ledger whose methods are proved to be steps of `Ledger`. The two protocols are step systems. Amounts are
integer cents and dates integer days; the keyed hash, the date layouts and the Unicode tables are
parameters.

## What the proofs found

- The category of a text can depend on Go's map order; `Engine.OrderIrrelevantIff` says exactly when it
  does not. "UBER EATS" is ambiguous under the two built-in rows it hits.
- A keyword of at most three bytes lives exactly if it is one word of kept upper-case characters
  (`Engine.ShortKeywordLivesIff`), so the keyword "BP " can match in neither tier.
- The pairing depends on the order of a query that has none, exactly when list order decides some pair
  (`ScanOrder.ScanIndependentIff`). Then marking twice may tag a row that has no partner left:
  `LedgerRuns.MarkingTwiceTagsAStray` is a run from an empty account in which Net goes from -5 over -5 to 0.
- The documentation says retagging has the "same contains-semantics the rule engine applies at ingest"
  (`backend/internal/store/store.go:341-342`). That holds for every pattern except the empty one, which is
  reachable from a description without letters or digits.
- The ledger does not always follow the rules. `Ledger.RecategorizeCoherentIff`, for a re-categorisation that
  completes or stops after any of its statements, and `Ledger.IngestCoherentIff` give the exact conditions.
  `LedgerRuns` has a run from an empty account for each way to break it: a re-used pattern under a newer
  rule, a pattern foreign to the row, the empty pattern, a rule that assigns "Uncategorized", and an error
  after the first or the second statement.
- The deployment runs at least two replicas (`deploy/base/backend-hpa.yaml:13`), and each boot recovers every
  unfinished upload, those of live replicas included. If no boot scans an upload that a live replica holds,
  everything a single process guarantees holds for all replicas together. From every boot that does, some
  continuation finishes the upload (`done` if its file parses) and then turns it into `processing` or, from
  `done`, into `error`; and unless the holder was about to report an error, another one ingests its rows
  once too often although no extraction was cut off.
- A staged statement is purged only when its upload is done, and only once. `Cluster.StagedIff` says exactly when a file
  stays: always for an upload that ended in an error, and for good if the purge was refused or cut off by a crash, or if the
  worker never learnt that its mark-done had committed. Nothing sweeps such files up later.
- A currency symbol that contains a point ("Rs.") makes every amount unreadable.

## Model

| member | source | states |
|---|---|---|
| Matching.StableIsUnique | backend/internal/categorize/transfers.go:81-97 | closest dates first, each transaction in at most one pair, has one answer: two matchings in which a pair is chosen exactly when no earlier chosen pair shares an end are equal |
| Matching.StableIsDisjoint | backend/internal/categorize/transfers.go:42 | in such a matching no transaction is in two pairs |
| Matching.GreedyIsStable | backend/internal/categorize/transfers.go:92-97 | repeatedly taking the least remaining pair and dropping its rivals gives exactly the stable set, for any set of candidate pairs |
| Matching.PairsIgnoreCategories | backend/internal/categorize/transfers.go:70-79 | the pairing does not depend on current categories |
| Matching.AtLeastHalfOfAny | backend/internal/categorize/transfers.go:70-97 | the pairing has at least half as many pairs as any disjoint set of admissible pairs whatsoever |
| Matching.HalfIsAttained | backend/internal/categorize/transfers.go:81-97 | the factor two is attained by a concrete ledger |
| Matching.AdmissibleIff | backend/internal/categorize/transfers.go:69-80 | a debit and a credit may pair exactly if cents agree, uploads differ and the signed date difference lies in -3..3 |
| Matching.BeforeIff | backend/internal/categorize/transfers.go:81-90 | which of two such pairs is picked first, in signed date differences and list positions |
| Matching.PairsIff | backend/internal/categorize/transfers.go:38-43 | the pairing is the one set of such pairs in which no row is used twice and every pair left out shares a row with one picked before it |
| Transfers.Bucket | backend/internal/categorize/transfers.go:45-49 | each bucket is the subsequence of transactions with that many cents, in order, and no transaction is missed |
| Transfers.Split | backend/internal/categorize/transfers.go:52-60 | a bucket splits into its debits and its credits, both in order |
| Transfers.Enumerate | backend/internal/categorize/transfers.go:69-80 | the nested loops list every pair of a debit and a credit of different statements at most three days apart in either direction, once each, and nothing else |
| Transfers.OrderAgrees | backend/internal/categorize/transfers.go:81-90 | sorting a bucket's local index pairs is sorting by (gap, debit position, credit position) in the whole list |
| Transfers.PickedIff | backend/internal/categorize/transfers.go:94-96 | the used-set test lets a pair through exactly when the pair belongs to the one global matching |
| Transfers.Pick | backend/internal/categorize/transfers.go:92-103 | the picking loop yields exactly the part of the global matching in its bucket, and the ids of its untagged ends |
| Transfers.MatchTransfers | backend/internal/categorize/transfers.go:44-106 | for any map order, the result lists the ids of the rows that end a pair and are not tagged yet, once for each such row; and so in plain terms (`Transfers.ReportsPlainly`) |
| Transfers.ReportsPlainly | backend/internal/categorize/transfers.go:38-43 | the reported list, stated with a pairing, literal days and the literal tag, is the one stated through the matching |
| Transfers.DistinctIds | backend/internal/categorize/transfers.go:42-43 | with distinct ids nothing is reported twice, and an id is reported exactly when its row is an untagged end |
| Marking.RuledByUser | backend/internal/categorize/transfers.go:29-36 | true exactly when some rule that applies assigns another category than Transfers |
| Marking.FilterInPlace | backend/internal/jobs/worker.go:214-219 | overwriting the candidate array's own prefix keeps exactly the eligible rows, in order |
| Marking.MarkTransfers | backend/internal/jobs/worker.go:199-229 | the rows that no rule with a non-empty pattern occurring in the merchant claims for another category are paired up; exactly those in a pair become Transfers, all other rows are unchanged |
| Marking.RuledRowsUntouched | backend/internal/categorize/transfers.go:26-28 | marking never changes a row that a rule of another category applies to |
| ScanOrder.ScanIndependentIff | backend/internal/store/store.go:363-365 | for rows with distinct ids, every scan order gives the same pairing exactly when each admissible pair that is not chosen shares an end with a strictly closer chosen one |
| ScanOrder.NoTiesAnyScan | backend/internal/categorize/transfers.go:81-90 | if no two admissible pairs that share an end are equally close, every scan order gives the same pairing and matches the same ids |
| ScanOrder.MarkingIsIdempotent | backend/internal/jobs/worker.go:195-229 | marking again changes nothing if the rows are scanned in the same order, and in any order if list order decided no pair |
| LedgerRuns.MarkingTwiceTagsAStray | backend/internal/store/store.go:363-388 | a run from an empty account with two markings, the scan reordered between them, tags a debit without a partner; Net is -5, -5, then 0 |
| Totals.Summary | backend/internal/store/store.go:453-476 | adding up the monthly groups gives the inflow, outflow and net over all counted rows |
| Totals.GroupsExist | backend/internal/store/store.go:455-460 | every ledger has such a grouped result, with one row for each month that has a counted row |
| Totals.MarkingDrop | backend/internal/store/store.go:383-388 | marking lowers a direction's total by what the pairs whose end there was untagged move |
| Totals.NetChange | backend/internal/store/store.go:470-474 | Net rises by the pairs whose credit alone was tagged before and falls by those whose debit alone was |
| Totals.NetConserved | backend/internal/jobs/worker.go:195-198 | if no matched row was tagged before, inflow and outflow drop by the same cents, those of the matching, and Net stays |
| Text.Normalize | backend/internal/categorize/engine.go:107-123 | the builder loop returns the maximal runs of letters, digits, `&`, `.` and `/` of the upper-cased text, with one space between any two |
| Text.NormalizedIff | backend/internal/categorize/engine.go:105-106 | a text is the normal form exactly if it arises that way, whatever cutting is used |
| Text.WordStays | backend/internal/categorize/engine.go:112 | a word of upper-case letters, digits, `&`, `.` and `/`, such as "AT&T", normalises to itself |
| Text.FieldsIff | backend/internal/categorize/engine.go:140-153 | the fields of a text are what is left when it is cut at white space |
| Text.RunsAreUnique | backend/internal/categorize/engine.go:110-121 | any cutting of a text into kept words and non-kept separators, non-empty between words, is the one the scan finds |
| Text.RunsCut | backend/internal/categorize/engine.go:110-121 | every text has such a cutting |
| Text.Idempotent | backend/internal/categorize/engine.go:105-106 | normalising twice is normalising once |
| Text.FieldsRejoin | backend/internal/categorize/engine.go:153 | the fields of a normalised text are its words and rejoin to it |
| Text.NormalizedIsTidy | backend/internal/categorize/engine.go:105-123 | no leading, trailing or doubled space, and none of `%`, `_`, `\` |
| Like.ContainsMeansOccurs | backend/internal/categorize/engine.go:133 | the search succeeds exactly when the pattern occurs at some position |
| Like.LikeIsContains | backend/internal/store/store.go:344-346 | for a pattern without metacharacters, the full wildcard matcher on `%p%` is substring search |
| Like.PercentIff | backend/internal/store/store.go:344-346 | in the wildcard matcher `%` stands for any text |
| Like.QuotedMatchesItself | backend/internal/store/store.go:344-346 | a pattern whose characters are all quoted matches that text alone |
| Like.RetagAgreesIff | backend/internal/store/store.go:341-349 | retagging and the engine agree on all merchants exactly when the pattern is not empty |
| Like.MetacharactersDisagree | backend/internal/store/store.go:344-346 | an unnormalised pattern with `_` would break the agreement |
| Engine.NewEngine | backend/internal/categorize/engine.go:97-103 | the engine's rules are the given ones with normalised patterns, in order |
| Engine.Categorize | backend/internal/categorize/engine.go:126-171 | for any map order: the category of the first rule that claims the text; else of a keyword that claims it, if any does; else of a keyword one of whose words it resembles, if any; else Uncategorized |
| Engine.AnswersIff | backend/internal/categorize/engine.go:126-178 | the allowed answers, stated with substrings, words, edit scripts and literal lengths |
| Engine.ShortWordsAreUncategorized | backend/internal/categorize/engine.go:156-164 | a text that no rule and no keyword claims and whose words all have fewer than five bytes is Uncategorized |
| Engine.EveryOrderAllowed | backend/internal/categorize/engine.go:138-169 | no visiting order leads outside the allowed answers |
| Engine.EveryAllowedReached | backend/internal/categorize/engine.go:138-169 | every allowed answer is returned under some visiting order |
| Engine.OrderIrrelevantIff | backend/internal/categorize/engine.go:131-169 | all pairs of visiting orders of the two passes give the same category exactly when a rule decides, the text is blank, or all keywords of the deciding tier agree |
| Engine.UberEatsIsAmbiguous | backend/internal/categorize/engine.go:28-54 | under any table with the two rows for UBER and UBER EATS, "UBER EATS" comes back as Transport in one visiting order and as Dining in another |
| Engine.SpacedShortKeywordIsDead | backend/internal/categorize/engine.go:138-163 | a keyword of at most three bytes with a space, such as "BP ", matches in neither tier |
| Engine.ShortKeywordLivesIff | backend/internal/categorize/engine.go:138-163 | a keyword of at most three bytes can decide some text, in either tier, exactly when it is one non-empty word of kept upper-case characters |
| Levenshtein.Compute | backend/internal/categorize/engine.go:180-205 | the two swapped rows return the length of a shortest script of single-byte insertions, deletions and substitutions |
| Levenshtein.FillRow | backend/internal/categorize/engine.go:194-201 | the inner loop turns row i-1 of the table into row i |
| Levenshtein.Achievable | backend/internal/categorize/engine.go:180-205 | some script turns a into b in that many steps |
| Levenshtein.Minimal | backend/internal/categorize/engine.go:180-205 | no script, with edits at any positions in any order, is shorter |
| Levenshtein.Symmetry | backend/internal/categorize/engine.go:180-205 | the distance is symmetric |
| Levenshtein.ZeroIffEqual | backend/internal/categorize/engine.go:180-205 | it is zero exactly on equal strings |
| Levenshtein.Triangle | backend/internal/categorize/engine.go:180-205 | it satisfies the triangle inequality |
| Levenshtein.LengthBounds | backend/internal/categorize/engine.go:180-187 | it is at least the length difference and at most the longer length |
| Levenshtein.FuzzyHitsAreClose | backend/internal/categorize/engine.go:154-178 | what the fuzzy tier accepts differs in length by at most two bytes, one for short keywords |
| Levenshtein.FuzzyHitIff | backend/internal/categorize/engine.go:154-178 | token and keyword hit exactly if both have at least five bytes and an edit script of at most one edit, two from eight bytes on, turns one into the other |
| Levenshtein.FuzzyHitsOfOneKeyword | backend/internal/categorize/engine.go:165-178 | two tokens accepted for one keyword are within twice the threshold of each other |
| Ledger.FirstMatchUpserted | backend/internal/store/store.go:424-435 | after an upsert a re-used pattern keeps its age, so rules newer than it still win |
| Ledger.UpsertEffect | backend/internal/store/store.go:424-430 | an upsert stores the pattern once with the new category, at its old place if known and first otherwise; the other rules keep category and order |
| Ledger.RecategorizeCoherentIff | backend/internal/api/api.go:299-318 | a re-categorisation that stops after any of its three statements, or completes, leaves every row on its newest matching rule exactly when the guard for that point held |
| Ledger.FirstStatementCoherentIff | backend/internal/api/api.go:299-314 | stopping after the first statement: exactly when the existing rules already give the row the new category, or none matches it |
| Ledger.TwoStatementsCoherentIff | backend/internal/api/api.go:311-318 | stopping after the second: exactly when no rule that outranks the stored one claims the row, and every other row the stored rule now decides has the category already |
| Ledger.ContainedPatternIsSafe | backend/internal/api/api.go:304-318 | a non-empty pattern contained in the target's merchant is safe unless a newer rule claims a row it matches |
| Ledger.IngestCoherentIff | backend/internal/jobs/worker.go:173-188 | an ingest keeps coherence exactly when no credit line is claimed by a rule that assigns Uncategorized |
| Ledger.MarkingKeepsCoherence | backend/internal/categorize/transfers.go:26-28 | transfer marking always keeps coherence |
| Ledger.StepCoherentIff | backend/internal/api/api.go:283-331 | one step of any kind from a coherent ledger, a cut-off re-categorisation included, stays coherent exactly when its guard held |
| Ledger.CoherentThroughoutIff | backend/internal/api/api.go:304-318 | over every run from an empty account the ledger is a view of the rules throughout exactly when every step met its guard |
| Ledger.ClearedStatementsComeBack | backend/internal/api/api.go:322-331 | after clearing, an ingested row that a rule decides has the category that rows of its merchant had before, except that a credit cannot come back Uncategorized |
| LedgerRuns.ReusedPatternBreaks | backend/internal/store/store.go:424-430 | a re-used pattern under a newer overlapping rule breaks coherence, from a reached ledger |
| LedgerRuns.ForeignPatternBreaks | backend/internal/api/api.go:307-315 | a requested pattern the row does not contain breaks coherence, from a reached ledger |
| LedgerRuns.EmptyPatternBreaks | backend/internal/api/api.go:307-315 | the empty pattern retags every row although no rule will apply, from a reached ledger |
| LedgerRuns.UncategorizedRuleBreaks | backend/internal/jobs/worker.go:174-177 | a rule that assigns Uncategorized is overridden on credits, from a reached ledger |
| LedgerRuns.CutAfterRowBreaks | backend/internal/api/api.go:299-314 | an error after the first of the three statements breaks coherence, from a reached ledger |
| LedgerRuns.CutAfterRuleBreaks | backend/internal/api/api.go:311-318 | an error after the second breaks coherence, from a reached ledger |
| Account.Account.RecategorizeTransaction | backend/internal/store/store.go:333-339 | retags the one row and returns its merchant, or reports an error: no such row, refused, or done with the reply lost |
| Account.Account.Recategorize | backend/internal/api/api.go:283-320 | the handler is the recategorisation step of the ledger, cut off where its first error falls; 404 for a missing row or a first error, then two kinds of 500 |
| Account.Account.Extract | backend/internal/jobs/worker.go:162-193 | the worker inserts one row per parsed line, with its upload and the given id, date, cents, direction, normalised merchant and an allowed category, Income for uncategorised credits |
| Ledger.RowSaysIff | backend/internal/jobs/worker.go:172-188 | an inserted row is what its line says, the normalised description and an allowed answer of the engine, with Income for an uncategorised credit, in plain terms |
| Account.Account.MarkTransfers | backend/internal/jobs/worker.go:199-229 | the job is the marking step of the ledger |
| AdminClaim.NeverTwoAdmins | backend/internal/store/store.go:41-44 | under every interleaving of logins, aborts and deletions at most one row is administrator |
| AdminClaim.ReportsAgree | backend/internal/store/store.go:41-44 | logins told they are administrator, whose accounts still exist, name one account |
| AdminClaim.SeatIsTaken | backend/internal/store/store.go:69-101 | a finished login leaves an administrator in place unless one was deleted since it began |
| AdminClaim.NeverTwoAccounts | backend/internal/store/store.go:32-35 | under every interleaving each email has at most one account |
| AdminClaim.OwnAccount | backend/internal/store/store.go:37-39 | a finished login whose account exists is logged in to the account of its own email; two of them share an account exactly if they share the email |
| AdminClaim.ReportIsAccurate | backend/internal/store/store.go:83-101 | the statement that finishes a login reports what its row then says |
| AdminClaim.AdministratorIsRecognised | backend/internal/store/store.go:56-63 | a login of the administrator's email begun after the claim is logged in to that account as administrator, if it finishes while the account exists |
| AdminClaim.PlainOnceClaimed | backend/internal/store/store.go:41-44 | a login begun while there is an administrator never enters the claim transaction, unless an administrator is deleted |
| AdminClaim.CommitKeeps | backend/internal/store/store.go:89-100 | committing keeps the protocol invariant, and leaves an administrator unless one was deleted since the login began |
| AdminClaim.NextKeepsInv | backend/internal/store/store.go:45-101 | every statement of every login, also one whose reply is lost, keeps the invariant: one account per email, one lock holder, stable pending rows, standing reports |
| AdminClaim.TwoWinnersWithoutLock | backend/internal/store/store.go:79-81 | without the lock statement two first logins can both win |
| Cluster.NeverHeldTwice | backend/internal/jobs/worker.go:41-80 | in a safe run an upload is held at most once by the channels, recovery lists and goroutines of all replicas together, and each channel stays within its capacity |
| Cluster.OneReplicaIsSafe | backend/internal/jobs/worker.go:69-76 | every run of a single replica is safe |
| Cluster.FinalStays | backend/internal/jobs/worker.go:98-121 | in a safe run a done or error upload never changes again, row counts included, unless deleted |
| Cluster.IngestConserves | backend/internal/jobs/worker.go:106-122 | in a safe run ledger rows are committed extractions times rows in the file; a done upload reports that row count and holds exactly one copy unless an extraction was cut off from its mark-done |
| Cluster.Recoverable | backend/internal/store/store.go:217-235 | an unfinished upload still has its uploaded file staged and is listed exactly once by a recovery scan, even if it was dropped from the queue |
| Cluster.StagedIff | backend/internal/jobs/worker.go:123-129 | in a safe run the file of a done upload is still staged exactly while a worker has yet to purge it, or if a crash, a refused purge or a lost mark-done cut the purge off; any other upload has its file |
| Cluster.PurgedForGood | backend/internal/jobs/worker.go:123-129 | once a purge has reached the store the uploaded file is gone, in every later state and across crashes |
| Cluster.UnpurgedStep | backend/internal/jobs/worker.go:119-129 | those three are the only causes, and each is one |
| Cluster.StatusShowsProgress | backend/internal/jobs/worker.go:98-122 | an upload is pending, with no row in the ledger, until a worker takes it, processing while it is extracted, and done once marked |
| Cluster.DoneIsNotRedone | backend/internal/jobs/worker.go:98-100 | in any run, unsafe boots included: once an upload is done and no worker is past the check for that, its row never changes again |
| Queue.FirstInFirstOut | backend/internal/jobs/worker.go:35-48 | while a process lives its channel holds at most 256 uploads, and workers pick up, in order and without a gap, those that were offered while it held fewer |
| Queue.NextKeepsInv | backend/internal/jobs/worker.go:84-193 | every statement of handlers and workers, acknowledged, lost or refused, keeps the invariant of all replicas together: who holds what, the conservation law, and where each staged file is |
| Cluster.ActIsPoolStep | backend/internal/jobs/worker.go:41-80 | a statement of one replica is a statement of the pool of all queued ids and goroutines |
| Cluster.MoveKeepsInv | backend/internal/jobs/worker.go:69-76 | so does a crash of one replica at any point, and a boot whose scan names no upload that a live replica holds |
| Recovery.EveryUploadCanFinish | backend/internal/jobs/worker.go:50-80 | from any state of a safe run, if all replicas crash and one boots with any scan order, a run without further failures finishes every upload, completes every parseable one and purges its file |
| Replicas.UnsafeBootRegresses | backend/internal/jobs/worker.go:98-121 | from every boot that scans an upload a live replica holds, some continuation finishes it, done if its file parses, and one statement later it is no longer so |
| Replicas.UnsafeBootDuplicates | backend/internal/jobs/worker.go:106-122 | and unless the holder was about to report an error, another ingests the rows of a parseable file at least once more than conservation allows |
| Replicas.ScaleUpIsUnsafe | deploy/base/backend-hpa.yaml:13-14 | such a boot is reached when a second replica starts while the first handles its first upload |
| Session.Base64RoundTrip | backend/internal/auth/session.go:64-74 | decoding undoes encoding for every byte string |
| Session.CanonicalIff | backend/internal/auth/session.go:68-74 | a text that decodes is the encoding of what it decodes to exactly when it has no line break and its spare low bits are zero, so the tag has to cover the encoded text |
| Session.EncodeIs | backend/internal/auth/session.go:64-66 | the encoding is base64url without padding: the bits of the bytes, highest first, six to a symbol of the literal alphabet, the last symbol filled with zeros |
| Session.DecodeIff | backend/internal/auth/session.go:68-74 | a text without line breaks decodes to the bytes whose encoding it is once its spare bits are cleared, and to an error if there are none |
| Session.BreakIsSkipped | backend/internal/auth/session.go:69 | a line break anywhere makes no difference |
| Session.ParseIntIff | backend/internal/auth/session.go:40-43 | an expiry is read exactly if it is a decimal numeral with an optional sign whose value has 64 bits |
| Session.FormatIntIs | backend/internal/auth/session.go:25 | it is written as the numeral without leading zeros |
| Session.IntRoundTrip | backend/internal/auth/session.go:25-43 | every 64-bit expiry is read back from its decimal form, which holds no dot |
| Session.SplitJoins | backend/internal/auth/session.go:32 | joining the parts of a split gives the text back |
| Session.SplitOfDotted | backend/internal/auth/session.go:32 | splitting a joined list of dot-free parts gives the parts back |
| Session.TokenRoundTrip | backend/internal/auth/session.go:24-56 | a token verifies to exactly the signed identity through the second in which it expires and is rejected as expired afterwards, in nanoseconds |
| Session.MalformedIff | backend/internal/auth/session.go:32-35 | a token is malformed exactly when it does not hold three dots |
| Session.VerifyIff | backend/internal/auth/session.go:36-55 | what becomes of any other token, in the order of the checks: wrong tag, unreadable expiry, expired, undecodable field, accepted |
| Session.PayloadIsInjective | backend/internal/auth/session.go:25 | the payload determines user id, email and expiry |
| Session.AcceptedIsTagged | backend/internal/auth/session.go:32-39 | whatever is accepted is a payload followed by that payload's own tag |
| Session.OnlyIssuedTokens | backend/internal/auth/session.go:36-55 | an accepted token that starts with an issued payload is that issued token and yields its identity |
| Amount.CleanAmount | backend/internal/ingest/csv.go:44-68 | the loop reads the digits and points of the cell as a decimal, with a sign from parentheses or any minus |
| Amount.PrintedAmountsRoundTrip | backend/internal/ingest/csv.go:41-43 | any cents value printed with symbol, comma grouping and any of five sign styles is read back with its sign |
| Amount.PrintIs | backend/internal/ingest/csv.go:41-43 | the five styles: symbol, sign, digits in groups of three without leading noughts, two decimals |
| Amount.SymbolRoundTripsIff | backend/internal/ingest/csv.go:52-59 | among symbols without digits, exactly those with neither point nor minus round-trip all amounts |
| Amount.CleanedOfTrim | backend/internal/ingest/csv.go:45 | surrounding white space does not matter |
| WhiteSpace.SpaceIs | backend/internal/ingest/csv.go:45 | the white space characters, by code point |
| WhiteSpace.TrimIff | backend/internal/ingest/csv.go:45 | trimming removes the white space at both ends and nothing else |
| Amount.NegativeIff | backend/internal/ingest/csv.go:44-58 | a readable amount is negative exactly if it holds a minus or stands in parentheses |
| Amount.UnreadableIff | backend/internal/ingest/csv.go:60-66 | an amount is an error exactly when it has no digit or more than one point |
| Amount.ZeroIff | backend/internal/ingest/csv.go:181-183 | a readable amount is zero exactly when all its digits are noughts |
| Csv.IndexHeader | backend/internal/ingest/csv.go:98-102 | each header name maps to its last column |
| Csv.ColumnOfIsLast | backend/internal/ingest/csv.go:99-102 | the column found carries the name and no later one does |
| Csv.FindPrefersEarlierNames | backend/internal/ingest/csv.go:103-110 | earlier alternatives win wherever their columns stand |
| Csv.HeaderColumns | backend/internal/ingest/csv.go:98-119 | the six columns, with the literal names of each in any mix of ASCII cases and with white space around them, in order of preference |
| Csv.CellIs | backend/internal/ingest/csv.go:128-133 | a cell is the trimmed text of its column, and empty where the row is too short |
| Csv.DescribesIff | backend/internal/ingest/csv.go:139 | the description is the cell without white space, asterisks and white space at its ends |
| Csv.ParseFlagIff | backend/internal/ingest/csv.go:70-80 | a flag says debit exactly if it is D, DR, DBIT or DEBIT, and credit if it is C, CR, CRDT or CREDIT, in any mix of ASCII cases and with white space around |
| Csv.BlankIff | backend/internal/ingest/csv.go:138-142 | a description is empty after trimming exactly when the cell is asterisks, white space, asterisks |
| Csv.AmountComesFrom | backend/internal/ingest/csv.go:147-180 | the first filled cell of amount, debit and credit column decides value, error and direction; one of the literal flag words beats the sign |
| Csv.OutcomeIff | backend/internal/ingest/csv.go:127-184 | a row is rejected exactly without date, description or readable amount, skipped exactly if otherwise fine with only noughts, else emitted with what its cells hold |
| Csv.ParseCSV | backend/internal/ingest/csv.go:85-189 | the transactions come from rows at increasing positions, each accepted as it stands, and every other row is rejected or skipped; or the error of an empty file, an unusable header, or no transaction with the number of rejected rows |
| Csv.RowsAccountedFor | backend/internal/ingest/csv.go:127-184 | emitted transactions, rejected rows and skipped rows add up to the data rows |
| Csv.EmittedAreProper | backend/internal/ingest/csv.go:16-22 | every emitted amount is positive and every description non-empty |
| Csv.StatementsRoundTrip | backend/internal/ingest/csv.go:82-84 | a statement that prints a list of entries, signed, with flag words or in two columns, is read back as that list |
| Rounding.NearestError | backend/internal/categorize/transfers.go:47 | one round-to-nearest step errs by at most 2^-53 of the value |
| Rounding.BucketKeyIsExact | backend/internal/categorize/transfers.go:47 | for every stored amount the bucket key is exactly its number of cents |
| Rounding.BucketKeyExists | backend/internal/categorize/transfers.go:47 | for every stored amount both roundings exist |
| Rounding.NearestExists | backend/internal/categorize/transfers.go:47 | every non-negative number has a nearest double |

## Left out

- Account.Account.MarkTransfers: the rule reads and the update are one step; reads that race with an ingest are not modelled.
- Account.Account.Extract: rows are inserted as one atomic batch, and the ids the database generates are a parameter; OCR statements are left out because their parser rests on an external service and a regular expression.
- Text.Normalize: a string is a sequence of characters and the Unicode tables are any tables with idempotent upper-casing; invalid UTF-8 is not modelled.
- Amount.CleanAmount: the value is the exact decimal; binary64 rounding, overflow and underflow of the literal are not modelled (`Rounding` covers stored amounts).
- Csv.ParseCSV: starts after the library's record reader; date layouts are a parameter, and header and flag case folding is ASCII.
- Totals.Summary: the grouped query result is a parameter with its meaning stated; drift of floating-point sums is not modelled.
- Ledger.CoherentThroughoutIff: one user, rules created at distinct times, and nothing else between the statements of one re-categorisation.
- ScanOrder.ScanIndependentIff: about who is paired with whom; two pairings may tag the same rows.
- AdminClaim.NeverTwoAccounts: emails are taken after trimming and lower-casing; the unique constraint on them is the table's.
- AdminClaim.NeverTwoAdmins: no out-of-band promotion; statements see committed rows, the lock is held to the end of the transaction, writers of one row wait for each other.
- Cluster.NeverHeldTwice: a recovery scan is one statement together with the boot; workers and request handlers are interchangeable goroutines, which allows more behaviour than the code; liveness is not claimed beyond `Recovery.EveryUploadCanFinish`, because it needs a fair scheduler.
- Cluster.IngestConserves: CSV uploads only.
- Replicas.UnsafeBootRegresses: some continuation, not every one: the holder may also finish before the scan result is worked on.
- The two protocols are step systems on values rather than classes with methods, because their subject is interleaving and crashes.
- `sort.Slice` is represented by an insertion sort with the same contract.
- The built-in keyword table is a parameter; the ambiguity lemma asks for two of its rows.
- PostgreSQL, object storage and the keyed hash are represented by maps, sequences and a function parameter.
- HTTP routing, cookies, metrics, telemetry, configuration, category lists, admin pages and the frontend: nothing hard to prove.
- Nothing was executed: the model is related to the Go code by reading it.
