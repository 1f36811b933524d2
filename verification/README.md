# Four cores, modelled and proved

A Dafny model of the cores of four codebases kept under `tasks/`. Money is integer cents, dates are
day numbers, byte strings are sequences of integers below 256.

**Bank statement matching** (`EditDistance`, `Normalize`, `NormalForm`, `BatchSearch`, `BatchChoice`, `ReconModel`,
`MatchingRules`, `TieBreaks`, `Ledger`, `Customers`, `Scoring`, `Runs`, `Engine`, `Oracle`, `Agreement`, `Reporting`). The
rules A1 to B3 are written once as a relation between the available invoices, the references that are gone, a line and
its outcome (`MatchingRules.Decides`), with sets in place of scans and indexes. The engine, which scans the whole ledger
for every line and keeps a `consumed` set beside a store, and the index-driven matcher of the fixture generator are both
methods proved to stay within that relation. With unique IBANs the relation allows one outcome per line, so both decide
every statement alike. Safety over runs and re-runs and the conservation of cents follow from the relation alone. The B3
search is a parameter of a run (`World.finder`); a run asks of it only that it pays invoices of the list it is given,
none twice, agreeing with the amount, and both searches of the repository are proved to do so.

**Claims on an occurrence** (`OccurrenceLedger`, `OccurrenceTotals`, `Batches`, `ClaimFigures`, `Payments`,
`PaymentFigures`, `Reruns`, `BusinessDays`). The reference computation threads paid amount, absorbed deductible and usage
per category through a fold of nested minima and maxima. Its closed form makes the result independent of claim order, of
how items are split over claims, of other occurrences in between and of batch boundaries. For the application's own run
over its payments table it is proved exactly when it is idempotent and independent of claim order. Business-day loops are
proved to end and to compute what they promise.

**The fixed-width loan ledger** (`Decimals`, `Copybook`, `Records`, `RecordBytes`, `Totals`, `LoanBatch`, `LoanFigures`,
`OutputFiles`, `Reconciler`, `ReconFigures`). Fitting numbers to a PICTURE clause, zoned and packed encodings, record
layouts, dataset framing, running totals that are fitted at every step, and the reconciler, whose clean verdict means
equal multisets of records. That verdict is therefore symmetric in the two files.

**Signed bundles and their registry** (`Wire`, `Manifests`, `Bundles`, `BundleContents`, `BundleReader`, `BundleFormat`,
`BundleRoundTrip`, `BundleRegistry`, `VersionOrder`). Writer and reader of the FWB container undo each other, every byte
sequence that loads is characterised, the signed range is header plus body, and the registry keeps a strictly increasing
chain of versions per name.

`Common`, `Strings` and `Sums` hold an option type, minimum and maximum, the order of strings, and finite sums.

The modules follow the form of the code: pure code is functions and lemmas, code that updates objects or runs loops is
classes and methods whose contracts tie the new state to a specification function or relation; the lemmas are about
those. What the specification functions amount to in cents, days, characters and bytes is stated without them in
`TieBreaks`, `BatchChoice`, `NormalForm`, `ClaimFigures`, `PaymentFigures`, `RecordBytes`, `LoanFigures`,
`ReconFigures`, `BundleContents`, `BundleFormat` and `VersionOrder`. `Lawful` and `ReadsBack` (`Manifests`) list what is
assumed of UTF-8, HMAC and JSON; `LawfulExists` shows that it can be met. CRC-32 and SHA-256 are arbitrary functions.

## Where the code differs from what one might expect

- The two B3 searches differ: the engine searches subsets of at most 12 invoices, the reference matcher contiguous runs
  of any list (`FindersDiffer`, `FindersAgree`). The equivalence holds for any finder they share.
- The application's `add_business_days` counts the start day, the reference computation does not
  (`StartDayCounted`); for zero days counting does not undo searching (`SearchInvertsCount`).
- A batch run leaves rows of other batches alone only if none of them already uses one of its payment ids: the ids
  `PAY-<batch>-<claim>` of different batches can coincide (`OthersUntouchedIffNoClash`), and then a re-run can differ
  (`ClashBreaksRerun`). `RerunIsIdempotent` and `OrderIndependent` say exactly on which tables it cannot. For months no
  batch ever clashes exactly when every row under a possible payment id belongs to the batch its id names
  (`IssuedNeverClash`); the history the application starts from meets that (`ShippedHistoryIssued`) and runs keep it
  (`RunKeepsIssued`).
- Neither encoder nor decoder of zoned numbers keeps a minus sign, and the decoder refuses a signed field of one
  character (`DisplayRoundTrip`). A PIC without an integer digit gets one digit too many, which `Layout.encode` then
  rejects (`EncodeSucceeds`).
- An empty version can be published as the first of its name and blocks the name afterwards (`EmptyVersionBlocks`), and
  a hyphen counts as one more dot (`SameVersionTwice`).
- `parse_sections` ignores its payload length and section count and stops silently at the first incomplete section;
  the model does the same (`SectionsTile`), and `BuiltConforms` shows that built bundles nevertheless obey the format.

## Model

| member | source | states |
|---|---|---|
| `EditDistance.Levenshtein` | tasks/recon-nightly-timeout-2291/environment/app/recon/matching/fuzzy.py:5-21 | the matrix loop returns a number of edits that some insert/delete/substitute script achieves and no script undercuts |
| `EditDistance.DistanceIsLeastCost` | tasks/recon-nightly-timeout-2291/environment/app/docs/matching_rules.md:125-126 | the recurrence value is the least length of any edit script between the two strings |
| `EditDistance.ScriptAtLeastDistance` | tasks/recon-nightly-timeout-2291/environment/app/docs/matching_rules.md:125-126 | lower bound: no script that transforms one string into the other is shorter |
| `EditDistance.CheapestScript` | tasks/recon-nightly-timeout-2291/environment/app/recon/matching/fuzzy.py:13-20 | upper bound: a script of exactly that length can be read off the matrix |
| `EditDistance.DistanceIsMetric` | tasks/recon-nightly-timeout-2291/environment/app/recon/matching/fuzzy.py:5-21 | zero iff equal, symmetric, triangle inequality, between the length difference and the longer length |
| `Normalize.Norm` | tasks/recon-nightly-timeout-2291/tests/fixtures/generate_fixtures.py:52-71 | the one-pass scanner computes exactly the four-pass normal form, on every text |
| `Normalize.ScannerStep` | tasks/recon-nightly-timeout-2291/environment/app/recon/matching/normalize.py:9-15 | stripping zeros per maximal digit run and then filtering fuses into one step: a whole run or one other character |
| `Normalize.PiecewiseNormal` | tasks/recon-nightly-timeout-2291/environment/app/docs/matching_rules.md:23-28 | digit runs are delimited by any non-digit: outside a run, a text may be normalised piece by piece |
| `Normalize.FormattingVariants` | tasks/recon-nightly-timeout-2291/environment/app/docs/matching_rules.md:30-42 | any separator and any zero padding of a digit group lead to the same normal form |
| `NormalForm.TransliteratedExact` | tasks/recon-nightly-timeout-2291/environment/app/docs/matching_rules.md:21-22 | the seven replacements one after the other are one pass: each umlaut and the sharp s become two letters, every other character stays |
| `NormalForm.NormalOfCharacter` | tasks/recon-nightly-timeout-2291/environment/app/docs/matching_rules.md:28 | a character that is not a digit stays iff it is one of A to Z |
| `NormalForm.NormalOfDigits` | tasks/recon-nightly-timeout-2291/environment/app/docs/matching_rules.md:24-25 | a digit run loses exactly its leading zeros; of zeros alone one stays |
| `NormalForm.SpaceRemoved` | tasks/recon-nightly-timeout-2291/environment/app/recon/matching/normalize.py:30-31 | an IBAN is compared without white space, character by character, and in upper case |
| `BatchSearch.CombinationsSound` | tasks/recon-nightly-timeout-2291/environment/app/recon/matching/batch.py:35 | the enumeration visits only strictly increasing index tuples |
| `BatchSearch.CombinationsComplete` | tasks/recon-nightly-timeout-2291/environment/app/recon/matching/batch.py:35 | every strictly increasing index tuple is visited |
| `BatchSearch.CombinationsOrdered` | tasks/recon-nightly-timeout-2291/environment/app/recon/matching/batch.py:35 | tuples at different positions differ and are visited in strictly lexicographic order, so each one once |
| `BatchSearch.FindBatch` | tasks/recon-nightly-timeout-2291/environment/app/recon/matching/batch.py:23-42 | the loops over sizes and combinations compute the finder whose exactness is the next row |
| `BatchSearch.FindBatchExact` | tasks/recon-nightly-timeout-2291/environment/app/recon/matching/batch.py:23-42 | within the cap the result is the first batch by size then lexicographic order; nothing is returned iff the list is over the cap or no batch exists |
| `BatchChoice.BatchChosen` | tasks/recon-nightly-timeout-2291/environment/app/recon/matching/batch.py:23-42 | at most twelve invoices, two or more of them within 60 days and a cent of the amount: the tuple returned is the smallest and then the one with the smaller position where two first differ, and nothing is returned iff there is none |
| `BatchChoice.RunChosen` | tasks/recon-nightly-timeout-2291/environment/app/docs/matching_rules.md:148-160 | two to forty neighbours within 60 days and a cent of the amount: the run that starts first and then ends first, nothing iff there is none |
| `BatchSearch.FindRun` | tasks/recon-nightly-timeout-2291/tests/fixtures/generate_fixtures.py:753-763 | the nested loops over contiguous runs, which keep the least key, compute the run finder |
| `BatchSearch.RunFinderExact` | tasks/recon-nightly-timeout-2291/tests/fixtures/generate_fixtures.py:753-763 | the run with the earliest start and then the shortest length, and nothing iff no valid run exists |
| `BatchSearch.RunImpliesBatch` | tasks/recon-nightly-timeout-2291/environment/app/recon/matching/batch.py:23-42 | within the cap, whenever the contiguous search finds a run the subset search finds a batch of no greater size |
| `BatchSearch.FindersAgree` | tasks/recon-nightly-timeout-2291/environment/app/recon/matching/batch.py:23-42 | within the cap both searches give the same answer iff there is no batch at all or the first run is also the first batch |
| `BatchSearch.FindersDiffer` | tasks/recon-nightly-timeout-2291/environment/app/docs/matching_rules.md:161-175 | on the worked example a payment of 320.00 pays invoices 501 and 512 by the subset search and nothing by the contiguous search |
| `BatchSearch.BatchFinderSound` | tasks/recon-nightly-timeout-2291/environment/app/recon/matching/batch.py:23-42 | the subset search pays invoices of the given list, none twice, agreeing with the amount: it may be the finder of a run |
| `BatchSearch.RunFinderSound` | tasks/recon-nightly-timeout-2291/tests/fixtures/generate_fixtures.py:750-765 | the contiguous search may be the finder of a run as well |
| `ReconModel.SortedByAge` | tasks/recon-nightly-timeout-2291/environment/app/recon/matching/batch.py:19-20 | sorting by (due date, id) gives an oldest-first list of the same invoices |
| `ReconModel.SortedUnique` | tasks/recon-nightly-timeout-2291/environment/app/recon/matching/batch.py:19-20 | with distinct ids there is only one oldest-first list of a set of invoices |
| `Ledger.Repository.AllInvoiceIds` | tasks/recon-nightly-timeout-2291/environment/app/recon/store/repository.py:63-68 | exactly the ids of the table, ascending |
| `Ledger.Repository.GetInvoice` | tasks/recon-nightly-timeout-2291/environment/app/recon/store/repository.py:77-83 | the row under the id, or nothing |
| `Ledger.Repository.OpenInvoicesForCustomer` | tasks/recon-nightly-timeout-2291/environment/app/recon/store/repository.py:85-94 | exactly the open invoices of the customer, oldest first |
| `Ledger.Repository.MarkMatched` | tasks/recon-nightly-timeout-2291/environment/app/recon/store/repository.py:165-180 | flips exactly the matched invoices to paid, writes one row per invoice under (line, invoice), changes nothing for an unmatched line |
| `Customers.IbanLookup` | tasks/recon-nightly-timeout-2291/environment/app/recon/customers/master.py:32-37 | an IBAN in the table maps to one of its owners; one that is not has no owner |
| `Customers.IdentifyByIban` | tasks/recon-nightly-timeout-2291/environment/app/recon/customers/master.py:50-53 | names an owner of the normalised IBAN iff there is one |
| `Customers.NameLookup` | tasks/recon-nightly-timeout-2291/environment/app/recon/customers/master.py:40-46 | the owners table holds every customer id that carries a normalised name |
| `Customers.IdentifyByName` | tasks/recon-nightly-timeout-2291/environment/app/recon/customers/master.py:56-59 | names the owner of the normalised name iff it has exactly one |
| `MatchingRules.NamedByIbanUnique` | tasks/recon-nightly-timeout-2291/environment/app/docs/matching_rules.md:80-82 | IBAN identification has one answer for every line iff every IBAN belongs to at most one customer |
| `Scoring.BestTakesBest` | tasks/recon-nightly-timeout-2291/environment/app/recon/matching/scoring.py:11-21 | among the candidates of a rule and later rules, the key minimum is the invoice of that rule which beats all others |
| `TieBreaks.KeyOrder` | tasks/recon-nightly-timeout-2291/environment/app/recon/matching/scoring.py:8-13 | candidates are ranked by rule in the order A1, A2, B1, B2, B3, then by amount difference, distance, due date and id |
| `Scoring.ChoiceIgnoresOrder` | tasks/recon-nightly-timeout-2291/environment/app/recon/matching/scoring.py:20-21 | with pairwise different keys the chosen candidate does not depend on enumeration order |
| `Scoring.SinglesDecide` | tasks/recon-nightly-timeout-2291/environment/app/recon/matching/decision.py:15-23 | a candidate list that covers a rule set exactly yields that set's best invoice, and is empty iff the set is |
| `Engine.ScanReferences` | tasks/recon-nightly-timeout-2291/environment/app/recon/matching/candidates.py:32-54 | the scan of the whole ledger yields exactly the A1 and A2 candidates among available invoices, and the flag iff a token names an unavailable one |
| `Engine.ScanDecides` | tasks/recon-nightly-timeout-2291/environment/app/recon/matching/candidates.py:46-53 | although A1 and A2 candidates are mixed, the minimum decides by A1 if A1 has any candidate, else by A2 |
| `Engine.RuleB1` | tasks/recon-nightly-timeout-2291/environment/app/recon/matching/candidates.py:61-68 | exactly the available invoices of the IBAN customer that agree in amount |
| `Engine.RuleB2` | tasks/recon-nightly-timeout-2291/environment/app/recon/matching/candidates.py:71-79 | exactly the available invoices of the name customer that agree in amount within the date window |
| `Engine.RuleB3` | tasks/recon-nightly-timeout-2291/environment/app/recon/matching/candidates.py:82-89 | hands the customer's available invoices, oldest first, to the finder and wraps its answer |
| `Engine.FindCandidates` | tasks/recon-nightly-timeout-2291/environment/app/recon/matching/candidates.py:92-113 | the first rule in A1..B3 order with a candidate decides the line as the rules document says |
| `Engine.ProcessLine` | tasks/recon-nightly-timeout-2291/environment/app/recon/pipeline/stages.py:18-42 | the outcome is one the rules allow for the ledger and the consumed ids; consumed grows by exactly the matched ids |
| `Engine.RunPipeline` | tasks/recon-nightly-timeout-2291/environment/app/recon/pipeline/run.py:46-54 | a run decides every line by the rules with earlier matches taken away (`DecidesRun`, which the `TieBreaks` rows below spell out in integer comparisons), pays exactly what it matched, and records one row per matched invoice |
| `Engine.RunStep` | tasks/recon-nightly-timeout-2291/environment/app/recon/pipeline/run.py:50-54 | one turn keeps the run relation: at the loop head everything consumed is paid, so the ledger alone decides |
| `Engine.BookedExact` | tasks/recon-nightly-timeout-2291/environment/app/docs/matching_rules.md:228-232 | every processed line is stored under its id, the last one where ids repeat |
| `Engine.ConsumedIsPaid` | tasks/recon-nightly-timeout-2291/environment/app/recon/pipeline/run.py:48-54 | at each loop head every consumed invoice is paid |
| `MatchingRules.ConsumedTestRedundant` | tasks/recon-nightly-timeout-2291/environment/app/recon/matching/candidates.py:42-58 | when everything consumed is paid, dropping the consumed test changes neither the available invoices nor the references that are gone |
| `MatchingRules.DecisionUnique` | tasks/recon-nightly-timeout-2291/environment/app/docs/matching_rules.md:106-109 | with unique IBANs a line has exactly one outcome the rules allow |
| `MatchingRules.RunUnique` | tasks/recon-nightly-timeout-2291/environment/app/recon/pipeline/run.py:48-54 | with unique IBANs a statement has exactly one sequence of outcomes |
| `TieBreaks.RuleOrder` | tasks/recon-nightly-timeout-2291/environment/app/docs/matching_rules.md:104-142 | an available invoice that meets the condition of a rule keeps every later rule and the reason codes from deciding the line, in cents, days and edits |
| `TieBreaks.LeftOver` | tasks/recon-nightly-timeout-2291/environment/app/docs/matching_rules.md:142-222 | without a candidate of A1 to B2 the owner of the IBAN, else the only owner of the name, is searched for a batch, oldest first; the reason says whether a token is a gone reference; debits and only debits carry their reason |
| `TieBreaks.ExactTaken` | tasks/recon-nightly-timeout-2291/environment/app/docs/matching_rules.md:187-197 | every other A1 candidate has a larger (amount difference, due date, id) than the invoice taken |
| `TieBreaks.FuzzyTaken` | tasks/recon-nightly-timeout-2291/environment/app/docs/matching_rules.md:187-197 | every other A2 candidate has a larger (amount difference, least edit distance, due date, id) than the invoice taken |
| `TieBreaks.PayersInvoiceTaken` | tasks/recon-nightly-timeout-2291/environment/app/docs/matching_rules.md:187-197 | B1 and B2 take an invoice of the identified customer, and every other agreeing one (for B2 due within 14 days of the booking) has a larger (amount difference, due date, id) |
| `TieBreaks.PaidTwice` | tasks/recon-nightly-timeout-2291/environment/app/docs/matching_rules.md:207-210 | of two equal B1 payments of one customer in a run the first takes the nearer invoice, and of two equally near ones the one due first |
| `TieBreaks.LeastOverTokens` | tasks/recon-nightly-timeout-2291/environment/app/docs/matching_rules.md:120-121 | the distance of an invoice is attained by some token and undercut by none |
| `TieBreaks.IbanOwner` | tasks/recon-nightly-timeout-2291/environment/app/docs/matching_rules.md:80-82 | the owners of an IBAN are exactly the customers that list it, compared in normal form |
| `TieBreaks.NameOwner` | tasks/recon-nightly-timeout-2291/environment/app/docs/matching_rules.md:83-86 | the owners of a name are exactly the customers that bear it as legal name or alias, compared in normal form |
| `Oracle.BuildIndex` | tasks/recon-nightly-timeout-2291/tests/fixtures/generate_fixtures.py:679-699 | the six indexes hold exactly the open invoices by reference, amount and customer, the paid references, and the customer tables |
| `Oracle.OracleA1` | tasks/recon-nightly-timeout-2291/tests/fixtures/generate_fixtures.py:717-724 | look-up by token finds exactly the A1 candidates of the ledger scan |
| `Oracle.OracleA2` | tasks/recon-nightly-timeout-2291/tests/fixtures/generate_fixtures.py:725-736 | looking only at amounts within the tolerance finds exactly the A2 candidates of the ledger scan |
| `Oracle.OracleB3` | tasks/recon-nightly-timeout-2291/tests/fixtures/generate_fixtures.py:750-753 | the finder gets the same oldest-first list as in the engine |
| `Oracle.OracleLine` | tasks/recon-nightly-timeout-2291/tests/fixtures/generate_fixtures.py:711-771 | the indexed decision of one line is one the rules allow |
| `Oracle.Run` | tasks/recon-nightly-timeout-2291/tests/fixtures/generate_fixtures.py:678-772 | the indexed matcher decides a whole statement by the same relation `DecidesRun` and consumes exactly the matched ids |
| `Agreement.MatchersAgree` | tasks/recon-nightly-timeout-2291/tests/fixtures/generate_fixtures.py:678-772 | for any shared B3 finder, any engine run and any indexed run over the same ledger with unique IBANs decide every line alike and consume the same invoices |
| `Agreement.RunBoth` | tasks/recon-nightly-timeout-2291/environment/app/recon/pipeline/run.py:46-54 | run side by side the two matchers return equal outcome lists, and the store ends with exactly the indexed matcher's matches paid |
| `Runs.DecisionSound` | tasks/recon-nightly-timeout-2291/environment/app/docs/matching_rules.md:97-109 | a match takes available invoices only, none twice, and their sum agrees with the line |
| `Runs.PaidIsTaken` | tasks/recon-nightly-timeout-2291/environment/app/recon/store/repository.py:165-180 | flipping matched invoices to paid is the same as removing them from the available ones and adding their references to the gone ones |
| `Runs.RunTakesOnce` | tasks/recon-nightly-timeout-2291/environment/app/recon/pipeline/stages.py:35-42 | over a run no invoice occurs in two matches nor twice in one |
| `Runs.RunIsSafe` | tasks/recon-nightly-timeout-2291/environment/app/recon/pipeline/run.py:48-54 | a run matches only open invoices, and paid afterwards = paid before + matched |
| `Runs.HistoryIsSafe` | tasks/recon-nightly-timeout-2291/environment/app/recon/pipeline/run.py:48-54 | across any sequence of runs and re-runs no invoice is matched twice, only initially open ones are matched, and final paid = initial paid + matched |
| `Runs.RunRecordsOnce` | tasks/recon-nightly-timeout-2291/environment/app/recon/store/repository.py:171-177 | starting with every recorded match paid, no invoice gets a second match row, no row is replaced, and every recorded match is paid again at the end |
| `Runs.HistoryRecordsOnce` | tasks/recon-nightly-timeout-2291/environment/app/recon/store/repository.py:171-177 | the same across any sequence of runs and re-runs: one row per invoice, none ever replaced, every recorded match paid |
| `Reporting.Summarize` | tasks/recon-nightly-timeout-2291/environment/app/recon/reporting/writer.py:48-59 | every counter counts what its name says; matched + unmatched = lines, per-rule counts sum to matched, per-reason counts to unmatched |
| `Reporting.BalanceDrop` | tasks/recon-nightly-timeout-2291/environment/app/recon/matching/candidates.py:47-89 | taking matches away lowers the available balance by the matched line amounts, up to one tolerance per match |
| `Reporting.CentConservation` | tasks/recon-nightly-timeout-2291/environment/app/recon/reporting/writer.py:48-54 | over a run the open balance of the ledger drops by the reported matched amount, within tolerance times matched lines |
| `Batches.BatchClaimsInOrder` | tasks/claims-adjudication-audit-recalc/tests/oracle.py:145-148 | exactly the claims of the batch, in ascending (loss, received, id) order |
| `ClaimFigures.ProcessingOrder` | tasks/claims-adjudication-audit-recalc/tests/oracle.py:145-148 | of two claims of the batch the earlier one has the smaller loss date, then received date, then claim id |
| `OccurrenceLedger.HalfUp` | tasks/claims-adjudication-audit-recalc/tests/oracle.py:17-24 | the nearest whole number, halves up |
| `Batches.SettleClaim` | tasks/claims-adjudication-audit-recalc/tests/oracle.py:168-209 | one claim is settled as `Settle` says, whose every figure the `ClaimFigures` rows below state in plain arithmetic |
| `Batches.ComputeBatch` | tasks/claims-adjudication-audit-recalc/tests/oracle.py:151-216 | under each claim id the result of the fold over the books opened without the batch's own rows; the `ClaimFigures` rows below state every figure of those results |
| `ClaimFigures.ResultHeads` | tasks/claims-adjudication-audit-recalc/tests/oracle.py:168-177 | identity, status, version and days late of every result; without a version in force every figure is zero |
| `ClaimFigures.AttributedFigures` | tasks/claims-adjudication-audit-recalc/tests/oracle.py:179-194 | gross is the sum of the items; each category gets what is claimed in it or what its sublimit leaves after the rows of other batches and the results before; the reduction is the rest |
| `ClaimFigures.MoneyFigures` | tasks/claims-adjudication-audit-recalc/tests/oracle.py:196-203 | deductible = min(max(0, D - absorbed), covered) and indemnity = min(covered - deductible, max(0, L - paid)), with absorbed and paid summed over the rows of other batches and the results before |
| `ClaimFigures.InterestFigures` | tasks/claims-adjudication-audit-recalc/tests/oracle.py:120-125 | interest is zero without rate, indemnity or delay; otherwise 365 * 100 * den * interest is within half a unit, halves up, of indemnity * num * days, so that 365 days cost exactly num/den percent |
| `Batches.ByClaimExact` | tasks/claims-adjudication-audit-recalc/tests/oracle.py:167-209 | with distinct claim ids the returned dictionary holds exactly the results, each under its id |
| `OccurrenceTotals.CategoryClosedForm` | tasks/claims-adjudication-audit-recalc/tests/oracle.py:183-191 | after any claims each category holds its capped total, a function of the prior amount and the sum only |
| `OccurrenceTotals.MoneyClosedForm` | tasks/claims-adjudication-audit-recalc/tests/oracle.py:192-201 | absorbed and paid are the capped growth for the covered total of all claims together |
| `OccurrenceTotals.ClosedForm` | tasks/claims-adjudication-audit-recalc/tests/oracle.py:168-215 | closed form of an occurrence for arbitrary history: categories, absorbed and paid all at once |
| `OccurrenceTotals.ConsistentClosedForm` | tasks/claims-adjudication-audit-recalc/tests/oracle.py:168-215 | from a consistent history: absorbed = min(D, A0 + covered), category = min(sublimit, prior + sum), paid = min(L, P0 + covered - newly absorbed), and the history stays consistent |
| `OccurrenceTotals.OnlyTotalsMatter` | tasks/claims-adjudication-audit-recalc/tests/oracle.py:168-215 | two claim sequences with equal totals per category leave an occurrence in the same state, whatever is interleaved |
| `OccurrenceTotals.OrderIndependent` | tasks/claims-adjudication-audit-recalc/tests/oracle.py:168-215 | any order of the same claims leaves the occurrence in the same state |
| `OccurrenceTotals.SplitIndependent` | tasks/claims-adjudication-audit-recalc/tests/oracle.py:168-215 | splitting a claim's items over an original and a later supplemental claim changes nothing for the occurrence |
| `Batches.RecomputeIsStable` | tasks/claims-adjudication-audit-recalc/tests/oracle.py:153-165 | recomputing a batch whose own rows are already in the history returns the same results |
| `Batches.CarryOver` | tasks/claims-adjudication-audit-recalc/tests/oracle.py:157-165 | opening the books on the appended rows of a batch is carrying its final books over |
| `Batches.BatchByBatch` | tasks/claims-adjudication-audit-recalc/tests/oracle.py:151-216 | adjudicating batch by batch with appended history gives the same results and books as one pass over all claims |
| `Payments.CoveredTotalOf` | tasks/claims-adjudication-audit-recalc/environment/app/tessera/adjudication/engine.py:37-46 | the per-category totals add up to the individually capped lines |
| `Payments.PaymentsTable.PriorActivity` | tasks/claims-adjudication-audit-recalc/environment/app/tessera/payments/ledger.py:12-22 | sums indemnity and deductible over exactly the claim's rows of other batches |
| `Payments.RecordFacts` | tasks/claims-adjudication-audit-recalc/environment/app/tessera/payments/ledger.py:44-57 | insert or replace: afterwards the payment is stored, any other row of its claim and batch is gone, every other row is as before |
| `Payments.PaymentsTable.RunBatch` | tasks/claims-adjudication-audit-recalc/environment/app/tessera/adjudication/engine.py:100-109 | the table and the results are those of adjudicating and recording the claims one after the other; the `PaymentFigures` rows below state every figure of them |
| `Payments.RunClosedForm` | tasks/claims-adjudication-audit-recalc/environment/app/tessera/adjudication/engine.py:100-109 | the table after a run, whatever it held before: one row per claim, the payment of its result; every row that is neither overwritten nor of a claim of the batch is untouched |
| `Payments.ResultsClosedForm` | tasks/claims-adjudication-audit-recalc/environment/app/tessera/adjudication/engine.py:105-107 | every claim gets the result computed from the rows of other batches that the claims before it have left standing |
| `PaymentFigures.RunFigures` | tasks/claims-adjudication-audit-recalc/environment/app/tessera/adjudication/engine.py:52-75 | every figure of every result of a run in plain arithmetic, with the prior sums over the rows of other batches that earlier payments of the run have left standing |
| `PaymentFigures.RunCategories` | tasks/claims-adjudication-audit-recalc/environment/app/tessera/adjudication/engine.py:36-46 | each category of a result is the sum over its lines of the lesser of value and sublimit |
| `PaymentFigures.MoneyConserved` | tasks/claims-adjudication-audit-recalc/environment/app/tessera/adjudication/engine.py:62-73 | gross = sublimit reduction + deductible + indemnity + what the limit cut; paid never passes the limit unless it already had |
| `PaymentFigures.RecordedFigures` | tasks/claims-adjudication-audit-recalc/environment/app/tessera/payments/ledger.py:25-41 | after a run the row PAY-batch-claim carries exactly the figures of the claim's result |
| `Reruns.OrderIndependent` | tasks/claims-adjudication-audit-recalc/environment/app/tessera/adjudication/engine.py:100-109 | all orders of claims with these ids give each claim the same result, and leave the same table, iff no claim counts on a row of another batch that another claim overwrites, worthless rows aside |
| `Reruns.RerunIsIdempotent` | tasks/claims-adjudication-audit-recalc/environment/app/tessera/adjudication/engine.py:100-109 | for claims with these ids a second run always returns equal results, and always leaves the table equal, iff no claim counts on a row of another batch that it or a later claim overwrites, worthless rows aside |
| `Reruns.RepeatableIffStable` | tasks/claims-adjudication-audit-recalc/environment/app/tessera/adjudication/engine.py:100-109 | a second run returns equal results iff it leaves the table equal |
| `Reruns.OthersUntouchedIffNoClash` | tasks/claims-adjudication-audit-recalc/environment/app/tessera/payments/ledger.py:25-26 | rows of other batches are untouched iff none of them already uses the payment id of a claim of the batch |
| `Reruns.IssuedNeverClash` | tasks/claims-adjudication-audit-recalc/environment/app/tessera/payments/ledger.py:25-26 | no batch with a name of n characters clashes, whichever of the claims it holds, iff every row under a possible payment id belongs to the batch its id names |
| `Reruns.ShippedHistoryIssued` | tasks/claims-adjudication-audit-recalc/environment/app/data/payments_history.csv:2-4 | the initial table of the application meets that condition for months, for every set of claims |
| `Reruns.ShippedHistoryIsTable` | tasks/claims-adjudication-audit-recalc/environment/app/tessera/storage/schema.sql:50-61 | the initial table is keyed by id with one row per claim and batch |
| `Reruns.NoClashIsSafe` | tasks/claims-adjudication-audit-recalc/environment/app/tessera/adjudication/engine.py:100-109 | without a clash of payment ids re-runs and other orders are both safe |
| `Reruns.RunKeepsIssued` | tasks/claims-adjudication-audit-recalc/environment/app/tessera/payments/ledger.py:25-41 | runs keep that condition, so from such a table no later run of a batch with a name of that length clashes |
| `Reruns.ClashBreaksRerun` | tasks/claims-adjudication-audit-recalc/environment/app/tessera/payments/ledger.py:44-57 | a concrete table, with a row of a batch named 2024, on which a second run of batch 2024-06 returns different results |
| `Payments.OneRowPerClaim` | tasks/claims-adjudication-audit-recalc/environment/app/tessera/payments/ledger.py:44-57 | whatever the table held before, after a run each batch claim has exactly one row for claim and batch, under its payment id |
| `Payments.RunKeepsTable` | tasks/claims-adjudication-audit-recalc/environment/app/tessera/payments/ledger.py:44-57 | every run keeps the table keyed by id with at most one row per claim and batch |
| `BusinessDays.AddBusinessDays` | tasks/claims-adjudication-audit-recalc/environment/app/tessera/calendar/business_days.py:13-24 | a negative count is an error, zero stays at the start, otherwise the n-th business day counting the start day |
| `BusinessDays.OpenInWeek` | tasks/claims-adjudication-audit-recalc/environment/app/tessera/calendar/business_days.py:9-10 | of the seven days from a Monday on the first five are business days unless they are holidays, the last two never |
| `BusinessDays.BusinessDaysBetween` | tasks/claims-adjudication-audit-recalc/environment/app/tessera/calendar/business_days.py:31-39 | the number of business days from start to end, both included |
| `BusinessDays.SearchInvertsCount` | tasks/claims-adjudication-audit-recalc/environment/app/tessera/calendar/business_days.py:13-39 | count(start, e) >= n iff e >= search(start, n), for every e, holds iff n >= 1 |
| `BusinessDays.NthIsThreshold` | tasks/claims-adjudication-audit-recalc/environment/app/tessera/calendar/business_days.py:31-39 | the n-th business day is where the count reaches n, with any holiday set |
| `BusinessDays.NthUnique` | tasks/claims-adjudication-audit-recalc/tests/oracle.py:100-107 | there is one n-th business day, so the contracts of the searches fix their result |
| `BusinessDays.AddOpenDays` | tasks/claims-adjudication-audit-recalc/tests/oracle.py:100-107 | the n-th business day after start, holidays excluded; the loop ends for every finite holiday set |
| `BusinessDays.StartDayCounted` | tasks/claims-adjudication-audit-recalc/environment/app/tessera/calendar/business_days.py:19-24 | the two searches differ by exactly the start day, and only when it is a business day |
| `BusinessDays.RollForward` | tasks/cobol-loan-accrual-port-parity/environment/app/pyledger/dates.py:73-79 | the least business day not before the input |
| `Copybook.QuantizeTruncates` | tasks/cobol-loan-accrual-port-parity/environment/app/pyledger/copybook.py:90-91 | excess low-order digits are truncated, never rounded, and the sign is kept |
| `Copybook.FitMeaning` | tasks/cobol-loan-accrual-port-parity/environment/app/pyledger/copybook.py:84-99 | the stored number is the truncated one modulo the PIC's capacity, signed only for a signed PIC; an error when the decimal context has too few digits |
| `RecordBytes.ContextDigits` | tasks/cobol-loan-accrual-port-parity/environment/app/pyledger/copybook.py:84-91 | the error of the decimal context occurs iff the cut number has more than 28 digits |
| `Copybook.FitIdempotent` | tasks/cobol-loan-accrual-port-parity/environment/app/pyledger/copybook.py:84-99 | storing a stored value again changes nothing |
| `Copybook.DigitTextExact` | tasks/cobol-loan-accrual-port-parity/environment/app/pyledger/copybook.py:102-105 | the digit text has the field's width iff the PIC has an integer digit, otherwise one zero too many; its value is the number |
| `Copybook.DisplayDecoded` | tasks/cobol-loan-accrual-port-parity/environment/app/pyledger/copybook.py:110-128 | zoned encoding then decoding gives the stored magnitude, or is refused for a lone signed character |
| `Copybook.DisplayRoundTrip` | tasks/cobol-loan-accrual-port-parity/environment/app/pyledger/copybook.py:110-128 | the zoned round trip holds iff the PIC is unsigned, or the number is not negative and the field has two characters |
| `Copybook.ReadNibbles` | tasks/cobol-loan-accrual-port-parity/environment/app/pyledger/copybook.py:141-144 | the nibble loop lists high and low nibble of every byte |
| `Copybook.UnpackPack` | tasks/cobol-loan-accrual-port-parity/environment/app/pyledger/copybook.py:141-164 | unpacking undoes packing for every even-length nibble list |
| `Copybook.Comp3RoundTrip` | tasks/cobol-loan-accrual-port-parity/environment/app/pyledger/copybook.py:140-164 | packed decimal gives back every stored number of either sign, and fills its field iff there is an integer digit or an even digit count |
| `RecordBytes.ZonedBytes` | tasks/cobol-loan-accrual-port-parity/environment/app/pyledger/copybook.py:123-128 | the bytes of a zoned number: ASCII digits of the magnitude, the last one of a signed field the character of {ABCDEFGHI at that digit |
| `RecordBytes.PackedBytes` | tasks/cobol-loan-accrual-port-parity/environment/app/pyledger/copybook.py:157-164 | the half-bytes of a packed number: the digits of the magnitude, then 13 for a negative number, 12 for another one of a signed field, 15 on an unsigned field |
| `RecordBytes.ZonedRead` | tasks/cobol-loan-accrual-port-parity/environment/app/pyledger/copybook.py:110-120 | over every byte sequence: a zoned field is read iff its characters are digits, the last one of a signed field in either zone or plain and not alone; the zone does not count |
| `RecordBytes.TextStored` | tasks/cobol-loan-accrual-port-parity/environment/app/pyledger/copybook.py:194-197 | a text can be stored iff the characters that fit are ASCII |
| `RecordBytes.MissingValue` | tasks/cobol-loan-accrual-port-parity/environment/app/pyledger/copybook.py:232-237 | a field without a value is filled with blanks or zero |
| `Records.FieldRoundTrip` | tasks/cobol-loan-accrual-port-parity/environment/app/pyledger/copybook.py:186-201 | a field encodes iff its value can be stored, never shorter than its width, and decodes to the stored value iff that value survives its field |
| `Records.MakeLayout` | tasks/cobol-loan-accrual-port-parity/environment/app/pyledger/copybook.py:207-219 | offsets are the running sum of the lengths, the record length is the total |
| `Records.FieldsTile` | tasks/cobol-loan-accrual-port-parity/environment/app/pyledger/copybook.py:169-184 | every byte of a record belongs to exactly one field |
| `Records.Encode` | tasks/cobol-loan-accrual-port-parity/environment/app/pyledger/copybook.py:232-237 | the loop appends the field encodings in order, checks the total length and adds the terminator; the next two rows state every byte of the result |
| `RecordBytes.DisplayCharacter` | tasks/cobol-loan-accrual-port-parity/environment/app/pyledger/copybook.py:194-201 | every character of a DISPLAY field of an encoded record: text padded with blanks or cut, or the digits of the stored number with the positive zone at the end of a signed field |
| `RecordBytes.PackedHalf` | tasks/cobol-loan-accrual-port-parity/environment/app/pyledger/copybook.py:194-201 | every half-byte of a packed field of an encoded record |
| `Records.EncodeSucceeds` | tasks/cobol-loan-accrual-port-parity/environment/app/pyledger/copybook.py:232-237 | encoding succeeds iff every value can be stored and every numeric field has room for its digit text |
| `Records.EveryFieldBack` | tasks/cobol-loan-accrual-port-parity/environment/app/pyledger/copybook.py:183-201 | in an encoded record each slice decodes to the stored value iff that value survives its field |
| `Records.RecordRoundTrip` | tasks/cobol-loan-accrual-port-parity/environment/app/pyledger/copybook.py:227-237 | decoding an encoded record gives under every name what its last field of that name stored |
| `Records.ReadRecords` | tasks/cobol-loan-accrual-port-parity/environment/app/pyledger/copybook.py:239-250 | splitting succeeds exactly on concatenations of terminated records of the right length, and returns those records |
| `Totals.FitDropsMultiples` | tasks/cobol-loan-accrual-port-parity/environment/app/pyledger/copybook.py:84-99 | fitting an amount drops whole multiples of the PIC's capacity and nothing else |
| `Totals.SignedTotal` | tasks/cobol-loan-accrual-port-parity/environment/app/pyledger/batch.py:91-93 | a signed running total is the exact sum up to a multiple of its capacity, whatever overflowed |
| `Totals.UnsignedTotal` | tasks/cobol-loan-accrual-port-parity/environment/app/pyledger/batch.py:92 | an unsigned running total of amounts that are not negative is the sum modulo its capacity |
| `Totals.ExactTotals` | tasks/cobol-loan-accrual-port-parity/environment/app/pyledger/batch.py:91-93 | every running total is exact iff no exact partial sum is beyond the capacity |
| `Totals.TotalsDefined` | tasks/cobol-loan-accrual-port-parity/environment/app/pyledger/copybook.py:90-91 | amounts that leave room in the decimal context never stop a run |
| `LoanBatch.GroupByAccount` | tasks/cobol-loan-accrual-port-parity/environment/app/pyledger/transactions.py:39-43 | every account gets exactly its transactions, in order |
| `LoanFigures.OpenAccounts` | tasks/cobol-loan-accrual-port-parity/environment/app/pyledger/batch.py:105-108 | the run keeps the accounts in order and leaves out exactly those of status Z |
| `LoanFigures.AccountTransactions` | tasks/cobol-loan-accrual-port-parity/environment/app/pyledger/transactions.py:39-43 | an account's transactions are selected one by one, in order |
| `LoanFigures.OnePosting` | tasks/cobol-loan-accrual-port-parity/environment/app/pyledger/transactions.py:46-58 | what one entry counts: nothing when voided, its amount for P, the negated amount for R, an error for any other type |
| `LoanFigures.PostedAmounts` | tasks/cobol-loan-accrual-port-parity/environment/app/pyledger/transactions.py:46-58 | postings are read off entry by entry, and any error stops them |
| `LoanBatch.PaidInPeriod` | tasks/cobol-loan-accrual-port-parity/environment/app/pyledger/transactions.py:46-58 | the fitted fold over payments less reversals, voided entries ignored, an error for an unknown type |
| `LoanBatch.BalanceAfterPosting` | tasks/cobol-loan-accrual-port-parity/environment/app/pyledger/transactions.py:46-63 | the new balance is principal less net postings up to a multiple of the field's capacity |
| `LoanBatch.BatchTotals.Accumulate` | tasks/cobol-loan-accrual-port-parity/environment/app/pyledger/batch.py:88-93 | all five figures after one result, also when an amount cannot be stored and the run stops half way |
| `LoanBatch.RunBatch` | tasks/cobol-loan-accrual-port-parity/environment/app/pyledger/batch.py:96-117 | finishes iff every open account can be processed and every running total can be stored; then closed accounts are skipped and counted, every other account contributes its result, and the figures are those of the results |
| `LoanBatch.RunFinishes` | tasks/cobol-loan-accrual-port-parity/environment/app/pyledger/batch.py:96-117 | a run finishes when every open account can be processed and interest and fee leave room in the decimal context |
| `LoanBatch.TrailerFigures` | tasks/cobol-loan-accrual-port-parity/environment/app/pyledger/batch.py:88-93 | record count exact, hash total = sum mod 10^11, fees = sum mod 10^13, accrued and balance up to multiples of their capacity |
| `LoanBatch.BalanceConserved` | tasks/cobol-loan-accrual-port-parity/environment/app/pyledger/batch.py:107-115 | the total balance is the open principal less all net postings, up to multiples of 10^13 cents |
| `OutputFiles.OutputLayouts` | tasks/cobol-loan-accrual-port-parity/environment/app/pyledger/layouts.py:77-114 | detail and trailer layouts both tile 80 bytes with the record type at offset 70 |
| `ReconFigures.LayoutFigures` | tasks/cobol-loan-accrual-port-parity/environment/app/pyledger/layouts.py:77-114 | position, length, sign and decimals of every field of both layouts |
| `ReconFigures.LineExact` | tasks/cobol-loan-accrual-port-parity/environment/app/pyledger/recon.py:53-65 | the file is cut into lines of 81 bytes, the record is the first 80 |
| `ReconFigures.KindExact` | tasks/cobol-loan-accrual-port-parity/environment/app/pyledger/recon.py:66-69 | a D at byte 70 makes a detail, a T a trailer |
| `ReconFigures.KeyExact` | tasks/cobol-loan-accrual-port-parity/environment/app/pyledger/recon.py:70 | two account keys are equal iff their ten characters are, those that are not ASCII taken as equal |
| `ReconFigures.StructuredExact` | tasks/cobol-loan-accrual-port-parity/environment/app/pyledger/recon.py:53-79 | well formed iff whole 81-byte lines, each ending in a line feed and typed D or T, no two details with one key, exactly one trailer |
| `ReconFigures.LineErrorsExact` | tasks/cobol-loan-accrual-port-parity/environment/app/pyledger/recon.py:62-76 | a line is reported as not terminated or of unknown type iff it is, with its number and type |
| `ReconFigures.DuplicatesExact` | tasks/cobol-loan-accrual-port-parity/environment/app/pyledger/recon.py:69-74 | an account is reported as a duplicate iff two details have its key |
| `ReconFigures.DifferencesExact` | tasks/cobol-loan-accrual-port-parity/environment/app/pyledger/recon.py:99-107 | field mismatches of a record are counted once per field whose bytes differ |
| `ReconFigures.MismatchesCounted` | tasks/cobol-loan-accrual-port-parity/environment/app/pyledger/recon.py:91-109 | mismatched records are the accounts in both files whose records are different bytes |
| `ReconFigures.FieldsCounted` | tasks/cobol-loan-accrual-port-parity/environment/app/pyledger/recon.py:99-109 | field mismatches are summed over the accounts in both files |
| `ReconFigures.MissingStep` | tasks/cobol-loan-accrual-port-parity/environment/app/pyledger/recon.py:91-95 | an account is listed as missing, behind those before it, iff the other file has no detail of it |
| `ReconFigures.MissingExact` | tasks/cobol-loan-accrual-port-parity/environment/app/pyledger/recon.py:91-95 | the accounts of a file are looked up one by one, in order |
| `OutputFiles.FieldsDecide` | tasks/cobol-loan-accrual-port-parity/environment/app/pyledger/recon.py:101-112 | no field differs iff the two records are the same bytes |
| `OutputFiles.NoErrors` | tasks/cobol-loan-accrual-port-parity/environment/app/pyledger/recon.py:53-79 | splitting reports nothing iff lines are whole and terminated, typed detail or trailer, one detail per account key and one trailer |
| `Reconciler.SplitRecords` | tasks/cobol-loan-accrual-port-parity/environment/app/pyledger/recon.py:53-79 | dictionary, key order and trailers are those of the records, and exactly the specified errors are appended |
| `Reconciler.Reconcile` | tasks/cobol-loan-accrual-port-parity/environment/app/pyledger/recon.py:82-131 | all counters and lists of the result, and: clean iff both files are well formed and hold the same multiset of 80-byte records |
| `Reconciler.RecordsDistinct` | tasks/cobol-loan-accrual-port-parity/environment/app/pyledger/recon.py:68-76 | in a well-formed file no record appears twice |
| `Reconciler.SameParts` | tasks/cobol-loan-accrual-port-parity/environment/app/pyledger/recon.py:93-126 | well-formed files hold the same records iff dictionaries and trailers are equal |
| `Reconciler.CleanIsSame` | tasks/cobol-loan-accrual-port-parity/environment/app/pyledger/recon.py:42-50 | for well-formed files the checks all pass iff the records are the same |
| `Wire.LEBack` | tasks/bundlevault-pentest-remediation/environment/app/bundlevault/fwb/header.py:44-55 | a little-endian integer that fits its width is read back |
| `Wire.HeaderBack` | tasks/bundlevault-pentest-remediation/environment/app/bundlevault/fwb/header.py:43-80 | a packed header is read back whatever follows it, iff it states the supported version and header length |
| `Wire.ParseSections` | tasks/bundlevault-pentest-remediation/environment/app/bundlevault/fwb/sections.py:30-43 | the while loop returns the sections of the recursive scan |
| `Wire.SectionsTile` | tasks/bundlevault-pentest-remediation/environment/app/bundlevault/fwb/sections.py:30-43 | scanned sections lie end to end from the start, hold exactly their bytes, and no complete section follows the last one |
| `Wire.WrittenBack` | tasks/bundlevault-pentest-remediation/environment/app/bundlevault/fwb/writer.py:23-24 | scanning written sections gives every part back, at its place |
| `Wire.SectionRewritten` | tasks/bundlevault-pentest-remediation/environment/app/bundlevault/fwb/sections.py:35-42 | a scanned section written again is the same bytes iff its reserved field is zero |
| `Manifests.LawfulExists` | tasks/bundlevault-pentest-remediation/environment/app/bundlevault/fwb/manifest.py:43-47 | the assumptions on UTF-8, JSON and HMAC can be met, for every manifest |
| `Manifests.EntriesKept` | tasks/bundlevault-pentest-remediation/environment/app/bundlevault/fwb/manifest.py:61-68 | the file list parses iff every entry is an object with a non-empty path, and then keeps path, digest and size in order |
| `Bundles.FileBack` | tasks/bundlevault-pentest-remediation/environment/app/bundlevault/fwb/reader.py:36-49 | a written file section decodes to the same path and content, an empty path is refused |
| `Bundles.SignatureBack` | tasks/bundlevault-pentest-remediation/environment/app/bundlevault/fwb/signature.py:16-34 | a written signature is read back iff the key id is not empty and has no NUL |
| `Bundles.BuildBundle` | tasks/bundlevault-pentest-remediation/environment/app/bundlevault/fwb/writer.py:32-79 | the builder computes the assembled bundle, or stops on a value that does not fit |
| `BundleContents.BodyPartsExact` | tasks/bundlevault-pentest-remediation/environment/app/bundlevault/fwb/writer.py:41-58 | the sections in order: padding of type 4 if any, the manifest of type 1, one file of type 2 per entry; they exist iff each one fits |
| `BundleContents.FilePartExact` | tasks/bundlevault-pentest-remediation/environment/app/bundlevault/fwb/writer.py:46-58 | one file section: path length, path and content; none iff the entry has no path, names no content or does not fit |
| `BundleContents.AssembledExact` | tasks/bundlevault-pentest-remediation/environment/app/bundlevault/fwb/writer.py:60-79 | a bundle is a version 2 header with the section count and payload length, the sections, and a type 3 section whose MAC is over header and sections; it exists iff everything fits |
| `BundleReader.LoadBundle` | tasks/bundlevault-pentest-remediation/environment/app/bundlevault/fwb/reader.py:52-88 | header, sections, manifest, files, digests and signature are checked in this order, with the first failing check's error; the next rows say of every byte sequence whether it loads |
| `BundleFormat.HeaderExact` | tasks/bundlevault-pentest-remediation/environment/app/bundlevault/fwb/header.py:58-80 | over every byte sequence: a header is parsed iff its 24 bytes are magic, fields and matching checksum with version 2 and length 24; anything else is a ParseError |
| `BundleFormat.PackedExact` | tasks/bundlevault-pentest-remediation/environment/app/bundlevault/fwb/header.py:43-55 | a byte sequence starts with a packed header iff its first 24 bytes are such a header, and a header packs iff its fields fit |
| `BundleFormat.SectionBytes` | tasks/bundlevault-pentest-remediation/environment/app/bundlevault/fwb/sections.py:33-42 | a section is there iff all of its stated bytes are; type and length are read little-endian from its first eight bytes |
| `BundleFormat.FileSectionExact` | tasks/bundlevault-pentest-remediation/environment/app/bundlevault/fwb/reader.py:36-49 | a file section decodes iff path length, path and content are there and the path is text that is not empty |
| `BundleFormat.SignatureExact` | tasks/bundlevault-pentest-remediation/environment/app/bundlevault/fwb/signature.py:16-30 | a signature decodes iff a key id that is not empty, the first NUL and exactly 32 bytes of MAC are there |
| `BundleFormat.FilesExact` | tasks/bundlevault-pentest-remediation/environment/app/bundlevault/fwb/reader.py:64 | all file sections decode one by one, in order, or none is returned |
| `BundleFormat.ManifestExact` | tasks/bundlevault-pentest-remediation/environment/app/bundlevault/fwb/manifest.py:43-83 | a manifest parses iff its name, version, vendor, target models and file list are usable, and keeps all of them |
| `BundleFormat.LoadedExact` | tasks/bundlevault-pentest-remediation/environment/app/bundlevault/fwb/reader.py:52-88 | over every byte sequence: it loads as a bundle iff a packed header is in front, its last manifest section parses, every file section decodes, every listed digest is met by the last file of its path, and the first signature section decodes |
| `BundleFormat.LoadError` | tasks/bundlevault-pentest-remediation/environment/app/bundlevault/fwb/reader.py:52-76 | a byte sequence that does not load is refused for the first fault in the order header, missing manifest, missing signature, manifest, file section, digest, signature, with that fault's error |
| `BundleFormat.FileSectionError` | tasks/bundlevault-pentest-remediation/environment/app/bundlevault/fwb/reader.py:36-49 | an empty path is a PathError, any other fault of a file section a ParseError |
| `BundleFormat.FilesError` | tasks/bundlevault-pentest-remediation/environment/app/bundlevault/fwb/reader.py:64 | the first file section that does not decode gives the error |
| `BundleFormat.EntriesError` | tasks/bundlevault-pentest-remediation/environment/app/bundlevault/fwb/manifest.py:63-66 | the first unusable entry gives the error: ManifestError when it is no object, PathError for its path |
| `BundleFormat.ManifestFault` | tasks/bundlevault-pentest-remediation/environment/app/bundlevault/fwb/manifest.py:43-69 | a PathError comes from the file list only, any other fault of a manifest is a ManifestError |
| `BundleRoundTrip.LoadBuilt` | tasks/bundlevault-pentest-remediation/environment/app/bundlevault/fwb/reader.py:52-88 | loading a built bundle fails exactly for an invalid manifest, a wrong digest or a bad key id; otherwise same manifest, files, key id and MAC, signed range = header plus body |
| `BundleRoundTrip.VerifyBuilt` | tasks/bundlevault-pentest-remediation/environment/app/bundlevault/fwb/reader.py:91-94 | a built bundle is accepted iff the key's MAC over the signed range is the written one; with the signing key it is accepted |
| `BundleFormat.VerifyExact` | tasks/bundlevault-pentest-remediation/environment/app/bundlevault/fwb/reader.py:91-94 | every loaded bundle verifies iff its key id names a key whose MAC over the bytes outside the signature section, up to the payload length, is the stated one |
| `BundleRoundTrip.BuiltConforms` | tasks/bundlevault-pentest-remediation/environment/app/docs/FWB_FORMAT.md:15-67 | a built bundle counts sections and payload exactly, sections fill the payload, one manifest, one signature, reserved zero |
| `BundleRegistry.CompareIsPreorder` | tasks/bundlevault-pentest-remediation/environment/app/bundlevault/versioning.py:7-22 | defined iff both versions are not empty; antisymmetric in sign, transitive, zero iff the components are the same |
| `VersionOrder.CompareDirection` | tasks/bundlevault-pentest-remediation/environment/app/bundlevault/versioning.py:16-22 | -1 iff the first version runs out of components first or has the smaller text where they first differ, 1 iff the second does |
| `VersionOrder.StringOrder` | tasks/bundlevault-pentest-remediation/environment/app/bundlevault/versioning.py:18-21 | a text is smaller iff it is a proper prefix or has the smaller character where they first differ |
| `VersionOrder.Components` | tasks/bundlevault-pentest-remediation/environment/app/bundlevault/versioning.py:7-13 | the components joined with dots give back the text before the first hyphen; what stands behind it follows as one component |
| `BundleRegistry.SameVersionTwice` | tasks/bundlevault-pentest-remediation/environment/app/bundlevault/versioning.py:11-13 | two different texts can compare equal: 1.2 and 1-2 |
| `BundleRegistry.BestIsGreatest` | tasks/bundlevault-pentest-remediation/environment/app/bundlevault/registry.py:101-110 | when no version is empty, no row of the name is above the one returned |
| `BundleRegistry.Registry.Latest` | tasks/bundlevault-pentest-remediation/environment/app/bundlevault/registry.py:101-110 | the scan loop, which passes over rows it cannot compare |
| `BundleRegistry.Registry.Publish` | tasks/bundlevault-pentest-remediation/environment/app/bundlevault/registry.py:128-142 | verdict and new table: the row is appended iff published |
| `VersionOrder.VerdictExact` | tasks/bundlevault-pentest-remediation/environment/app/bundlevault/registry.py:128-142 | over any table: a bad version iff one of the compared ones is empty, a rollback iff the new one is not above the latest, a duplicate iff above but listed, published otherwise |
| `BundleRegistry.PublishExact` | tasks/bundlevault-pentest-remediation/environment/app/bundlevault/registry.py:128-142 | over an increasing table a row is accepted iff its version is strictly above every version of its name; the duplicate check never decides |
| `BundleRegistry.PublishKeeps` | tasks/bundlevault-pentest-remediation/environment/app/bundlevault/registry.py:128-142 | publishing keeps the table increasing, the accepted row becomes the latest, other names are untouched |
| `BundleRegistry.LatestIsLast` | tasks/bundlevault-pentest-remediation/environment/app/bundlevault/registry.py:101-110 | in an increasing table the latest row of a name is the last one accepted |
| `BundleRegistry.RunIncreases` | tasks/bundlevault-pentest-remediation/environment/app/bundlevault/registry.py:128-142 | over any run of attempts the table stays increasing and only grows, the latest row of every name is the last accepted one, and no attempt is turned down as a duplicate |
| `BundleRegistry.EmptyVersionBlocks` | tasks/bundlevault-pentest-remediation/environment/app/bundlevault/versioning.py:9-10 | a name first published with an empty version can never be published again |
| `BundleRegistry.LatestIgnoresOrder` | tasks/bundlevault-pentest-remediation/environment/app/bundlevault/registry.py:97-110 | in an increasing table the latest row does not depend on the order in which rows are read |

## Left out

- Statement and customer files, dates and reference tokens of a purpose text: lines arrive in processing order with
  their normalised tokens; upper-casing and the white-space test are parameters (`Normalize.Platform`).
- Idempotence of the normal form: it does not hold for all texts and is not claimed.
- The currency, purpose and value date of a statement line and the report files: no rule looks at them.
- Item valuation, version selection, deductible choice and payment deadlines: a claim carries its valued items, its
  version and terms, and its days late. In the application's run interest is a parameter; amounts are cents where the
  application uses floats.
- Interest accrual, daily rates, days late, late fees and status letters of the loan ledger: float arithmetic; interest
  and fee of an account are a parameter of the run, the fee not negative as the tier bounds make it.
- Parsing PICTURE clauses and converting between text and numbers: a PIC is given by its digits and scale, conversions
  are parameters (`Records.Conversions`).
- Copybook.DecodeComp3: decoded numbers of more than 28 digits are exact here, while negating them rounds in the decimal context.
- Sorting of the transaction file and loading of master, rate and holiday files: transactions come in posting order.
- The report lines of the reconciler: only counters, lists of accounts and structural errors are modelled.
- Dates outside the calendar's range: day numbers are unbounded.
- Wire.ParseSections: the payload length and section count parameters, which the code does not use, are dropped.
- JSON manifests are seen as typed optional fields; list elements of `target_models` are strings.
- Seed files, revocations and the SQLite tables behind registry, ledger and payments: tables are maps or lists.
- Semantic Versioning precedence: versions are ordered as tuples of strings, as the code does.
- Attack resistance, path grammar and binding of keys to vendors: no claim is made about them.
- HTTP servers, command lines, audit logs, timing, file staging and fixture generation.
