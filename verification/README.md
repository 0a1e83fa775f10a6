# Verified model of the paired experiment, its single-use grants and the console session

This project models four parts of the repository in Dafny and proves what they promise.

1. **Exact paired statistics** (`qwen_train/f2_analysis.py`, `qwen_train/f2_statistics.py`): the binomial tails, the 200-step
   bisection for the Clopper-Pearson interval, the exact McNemar p-value, the risk-difference interval, the paired ledger with its
   infrastructure gate, and both entry points (the auditor `independent_reconstruction` and the producer `finalize_f2`).
   Modules `Average`, `Binomial`, `ClopperPearson`, `Median`, `Coverage`, `PairedLedger`, `McNemar`.
2. **The single-use grant protocol** (`f2_authz_ledger.py`, `f2_authorization.py` and the authorization blocks of the orchestrator,
   the worker and the execution adapter): canonical JSON with strict parsing and the grammar it reads, the execution binding, the ledger as an object over a
   create-if-absent directory, and a state machine in which any number of processes verify, consume, corroborate and launch in any
   interleaving, each free to stop for ever at any step. Modules `CanonicalJson`, `JsonGrammar`, `Authorization`, `Ledger`, `GrantProtocol`.
3. **Session persistence** (`organism_console/state_store.py`): racing saves with failures as a state machine and as an object, and
   the cap on the saved history, over one save and over many. Modules `SessionSave`, `HistoryCap`, `HistoryCycles`.
4. **Deterministic scanners and schedulers**: the first-edit detector and the older one it replaces, the round-robin curriculum
   selector, the calibration run with its rerun policy and summary, and the evaluator from JUnit evidence to the verdict read back
   from its report. Modules `Endpoint`, `Trajectory`, `RoundRobin`, `Calibration`, `CalibrationSummary`, `NodeId`, `Evaluator`,
   `Report`.

`PyText`, `Counter`, `StableSort` and `InfraCauses` hold what several of them share.

Where the source loops over or mutates something, the model has a method (or a class) with the same branches, proved equal to a
specification function; the properties are lemmas about those functions, or invariants of every run.

Numbers the source computes in floating point are exact reals here. Digests are a free constructor (or an injective text), which is
what "no collision" means. A Python `dict` is a list of key/value pairs in insertion order.

## What the code does not do

Some statements in the repository's own documentation, or natural readings of it, are false of the code. The code is kept as it is,
with a counterexample and the exact condition.

- The two bounds of the interval are not always distinct: one success in 158 * 2^200 trials gives `lo == hi`
  (`ClopperPearson.BoundsMeetForHugeN`). They are in order always, and distinct exactly when some interior grid point passes both
  one-sided tests (`BoundsOrdered`, `BoundsDistinctIff`).
- The published estimate is not always inside its interval: one pair for the treatment among more than 2^201 discordant ones puts it
  below (`McNemar.EstimateBelowInterval`). `EstimateIsInsideIff` is the exact condition on the grid, and (b + c) * 2^-200 <= 1 - alpha
  is enough (`EstimateIsInside`).
- Swapping the two arms mirrors the interval exactly if and only if no grid point meets alpha/2 (`MirrorExactlyWithoutTie`). One
  successful trial at alpha = 1/2 meets it (`OneTrialTies`); at alpha = 1/20 nothing does.
- The interval and the test treat a p-value equal to alpha differently on the two sides (`McNemar.IntervalMatchesTest`): d pairs
  all against the treatment at alpha = 2^(1-d) have p = alpha and an interval below zero (`BoundaryCase`). At alpha = 1/20 equality
  is impossible and the two agree.
- Producer and auditor are meant to agree, any mismatch being a hard blocker, but the producer's interval ignores its `alpha`. They
  agree exactly when no pair is discordant or both crossings fall in the same grid cells as at 1/20 (`ProducerAgreesIff`); at
  alpha = 1/2 one discordant pair sets them apart (`ProducerIgnoresAlpha`).
- A record must name the repository revision, but a revision that is null passes: the value equals the checkout's exactly when it is
  not null (`Authorization.VerifiedRecordBinds`), a record that passes the binding checks of one
  checkout passes those of every clean one exactly when no revision is given (`NullRevisionPassesEverywhere`), and one whole signed
  document authorises its run in all of them (`GrantAuthorises`, `UnpinnedAuthorises`).
- A grant is meant to be one execution. It is consumed at most once, but `verify_consumption` only reads, so it may be followed by
  several launches (`GrantProtocol.OneGrantTwoLaunches`, `TwoLaunchesHappen`). From any point of any run another launch is possible exactly when an
  adapter presents the receipt with a record that verifies (`LaunchPossibleIff`, `ReceiptIsOfTheEntry`), and all launches carry the
  same identities (`LaunchesAgree`).
- A write of the ledger entry that stops short without an error is not noticed: consume returns its entry although the file is torn
  (`Ledger.AuthorizationLedger.Consume` on a disk that `WritesShort`). The grant stays used (`GrantProtocol.NoLaterConsume`), and no launch under
  it ever follows (`TornNeverLaunches`).
- The saved session file is the complete output of one save, but not always of one moment: fields shared by reference are
  serialised after the history is copied (`SessionSave.FileOfTwoMoments`). It is of one moment exactly when no change falls between
  the two (`FileIsOfOneMomentIff`).
- A capped history may hold 61 messages: exactly when there were more than 60 and all that have a slot are kept
  (`HistoryCycles.SixtyOneIff`), as for 61 messages without content (`SixtyOneMessages`).
- Capping is not idempotent, and the notice's number is exact for one save only. Saving a saved history again changes nothing exactly
  when it is within the caps, or has a user message and at most one message was left out (`CapIdempotentIff`, `EmptyMessagesDiffer`);
  otherwise the number turns into 1 (`SavedTwiceSaysOne`), and every later notice counts the old one as one message and forgets what
  that one counted (`NextSave`).
- "Always has a user anchor" fails for a history without a user message whose only non-empty message is an over-long last one
  (`HistoryCap.UserAnchorIff`, `LoneAnswer`).
- The bound on the characters of a capped history is not hard: it is exceeded exactly when the first user message is too long, or
  the notice finds no room beside the kept messages (`HistoryCap.OverBudgetIff`). So whenever the newest message is shortened and
  anything is left out, the notice comes on top (`ShortenedOverBudgetIff`).
- A target that ends with a nested relevant file matches it even in the middle of a segment: `mysrc/a.py` matches `src/a.py`
  (`Endpoint.BoundaryMissed`, `BoundaryMissedIff`).
- A relevant file does not always match its own path: a hidden file without a directory, such as `.coveragerc`, loses its dot and is
  met by `coveragerc` instead (`Endpoint.HiddenFileIsNotMatched`). `OwnPathIff` says which files do, hidden directories and odd
  entries such as `.src/` included.
- The two detectors agree exactly on calls they score alike (`Endpoint.DetectorsAgree`, `SameScoreIsNeeded`); a step id of 0 is one
  that they do not (`StepZeroDiffers`).
- The JUnit identity of a node id is not one-to-one: `t/a/b.py::x` and `t/a.py::b::x` share one (`NodeId.IdentitiesCollide`). Two
  ids do exactly when they have the same name and the same segments, wherever the path ends (`SameIdentityIff`), so not two different
  plain ones (a .py path with no other dot, and classes without dots) with equally many classes (`OneToOneWhenPlain`).
- The identity is meant to be the inverse of what pytest writes, with any parametrisation bracket intact, but the id is split inside
  the bracket too: `t.py::x[a::b]` becomes test `b]` of class `x[a` (`NodeId.BracketIsSplit`). The identity is pytest's exactly when the
  parametrisation holds no `::` (`IntactIff`), and exactly then the test's own clean case passes it (`Evaluator.OwnCaseCountsIff`).
- So a pass need not be of the declared test: for a pair that collides, one test passing is reported as a pass of the other
  (`Evaluator.ForeignTestPasses`). Under the two conditions it is (`PassMeansOwnTests`).
- The report digest has no key and the declared result is not compared with the FAIL_TO_PASS map, so a report can be accepted, declare
  "pass" and be read as "fail" (`Report.ForgedDeclaration`). Declared and derived result agree exactly when the map decides one and
  the declaration is right about it (`DeclaredAgreesIff`). The two readers that derive it agree on every text without floats (`ReadBoth`).

## Model

| member | source | states |
|---|---|---|
| Binomial.CombIsFactorialQuotient | qwen_train/f2_analysis.py:573-588 | the recursive coefficient is Python's `comb`: times k! (n-k)! it is n! |
| Binomial.SfIsTail | qwen_train/f2_analysis.py:573-579 | the sum-of-terms upper tail is the Bernoulli-coupling recursion, for every k and n >= 1 |
| Binomial.CdfIsTail | qwen_train/f2_analysis.py:582-588 | the lower tail is one minus the next upper tail |
| Binomial.TailIncreases | qwen_train/f2_analysis.py:573-579 | for 1 <= k <= n the upper tail strictly increases with p |
| Binomial.TailSlope | qwen_train/f2_analysis.py:573-579 | a tail rises by at most n times the step in p |
| Binomial.SfMirrorsCdf | qwen_train/f2_analysis.py:573-588 | sf(k, n, p) == cdf(n-k, n, 1-p) |
| Binomial.SumIsOne | qwen_train/f2_analysis.py:582-588 | the binomial weights sum to one |
| Binomial.TailMissesOneFortieth | qwen_train/f2_analysis.py:598-619 | at any point j/m with 5 not dividing m, no tail equals 1/40 |
| ClopperPearson.CpBounds | qwen_train/f2_analysis.py:591-620 | both bisection loops return the midpoints of the two cells in which the tails cross alpha/2, with the ends 0 and 1 for k = 0 and k = n |
| ClopperPearson.LowCellUnique | qwen_train/f2_analysis.py:598-608 | exactly one of the 2^200 cells holds the upper tail's crossing |
| ClopperPearson.HighCellUnique | qwen_train/f2_analysis.py:609-619 | exactly one of the 2^200 cells holds the lower tail's crossing |
| ClopperPearson.LowerBrackets | qwen_train/f2_analysis.py:598-608 | half a cell either side of the lower bound the upper tail is below and at least alpha/2, wherever those points lie inside [0, 1] |
| ClopperPearson.UpperBrackets | qwen_train/f2_analysis.py:609-619 | half a cell either side of the upper bound the lower tail is above and at most alpha/2 |
| ClopperPearson.HalfCellIs | qwen_train/f2_analysis.py:591-620 | half a cell is 2^-201 |
| ClopperPearson.BoundsOrdered | qwen_train/f2_analysis.py:591-620 | 0 <= lo <= hi <= 1 always, and lo < hi for k = 0, k = n or n * 2^-200 <= 1 - alpha |
| ClopperPearson.BoundsDistinctIff | qwen_train/f2_analysis.py:591-620 | for 0 < k < n, lo < hi exactly when some interior grid point passes both one-sided tail tests |
| ClopperPearson.BoundsMeetForHugeN | qwen_train/f2_analysis.py:591-620 | one success in 158 * 2^200 trials at alpha = 1/20 gives lo == hi |
| ClopperPearson.MirrorExactlyWithoutTie | qwen_train/f2_analysis.py:591-620 | lo(k) == 1 - hi(n-k) exactly when no interior grid point has a tail equal to alpha/2 |
| ClopperPearson.OneTrialTies | qwen_train/f2_analysis.py:591-620 | k = n = 1 at alpha = 1/2 ties at the grid point 1/4, and there lo(1) is not 1 - hi(0) |
| ClopperPearson.NoTieAtOneTwentieth | qwen_train/f2_analysis.py:598-619 | at alpha = 1/20 no grid point of any fineness ties |
| ClopperPearson.MirrorAtOneTwentieth | qwen_train/f2_analysis.py:591-620 | at alpha = 1/20, lo(k) == 1 - hi(n-k) for every k and n |
| Coverage.IntervalCovers | qwen_train/f2_analysis.py:591-620 | for every n, alpha and p, the binomial weight of the k whose interval, widened by half a cell (2^-201), misses p is at most alpha |
| Median.MeanIsMedian | qwen_train/f2_analysis.py:573-588 | for every n, b <= n and p with n p = b, b successes or more have at least the chance 1/2 |
| Coverage.LowerUnderShare | qwen_train/f2_analysis.py:598-608 | the lower bound is at most the observed share k/n, give or take half a cell, and without that when n * 2^-200 <= 1 - alpha |
| Coverage.UpperOverShare | qwen_train/f2_analysis.py:609-619 | the upper bound is at least the observed share, in the same sense |
| Coverage.TestHasItsSize | qwen_train/f2_analysis.py:664-670 | for every d >= 1 and t in [0, 1], the Binomial(d, 1/2) weight of the splits with p-value <= t is at most t |
| Coverage.PValueIsOneIffEven | qwen_train/f2_analysis.py:664-670 | the p-value is 1 exactly when the two discordant counts differ by at most one |
| PairedLedger.Partition | qwen_train/f2_analysis.py:373-403 | refuses a repeated task id among the complete rows and otherwise splits the rows, in order, by completeness |
| PairedLedger.MissingByReason | qwen_train/f2_analysis.py:645-649 | a dict without repeated keys that counts the missing rows of every reason, whose entries of each kind add up to the missing rows of that kind |
| PairedLedger.EvaluateGate | qwen_train/f2_analysis.py:188-238 | the totals of the counted reasons by kind, and the verdict: satisfied exactly when the infrastructure share is at most the ceiling given |
| PairedLedger.KindIff | qwen_train/f2_analysis.py:127-153 | for every reason: infrastructure exactly when its stripped text is "infrastructure:" and a declared cause, scientific exactly when it is a declared scientific reason or blank, unknown otherwise |
| PairedLedger.CountIsRows | qwen_train/f2_analysis.py:188-238 | every count is the number of rows that meet the question |
| PairedLedger.ReasonRows | qwen_train/f2_analysis.py:645-649 | the count for a reason is the number of incomplete rows that give it, with "unspecified" for none |
| PairedLedger.LossIsBounded | qwen_train/f2_analysis.py:221-238 | the ceiling is kept exactly when at most 3/10 of all rows are incomplete for a declared infrastructure cause |
| PairedLedger.RowsAddUp | qwen_train/f2_analysis.py:188-238 | the four cells add up to the complete rows, complete and missing to all, and the three kinds of missing to the missing rows |
| PairedLedger.Eligible | qwen_train/f2_analysis.py:412-494 | accepts exactly a confirmatory design with enough complete rows, distinct non-empty task ids, clean evidence and a satisfied gate |
| PairedLedger.ConfirmatoryMeansDistinctTasks | qwen_train/f2_analysis.py:457-494 | an admitted ledger has at least 300 complete pairs, every task named and none twice, post-cutoff with 64 hex digits of evidence, and at most 3 in 10 of all rows are incomplete with the reason "infrastructure:" and a declared cause |
| PairedLedger.CountOfMultiset | qwen_train/f2_analysis.py:188-238 | every count depends only on the multiset of rows |
| PairedLedger.VerdictsOfMultiset | qwen_train/f2_analysis.py:412-494 | so do replication and eligibility |
| Counter.BumpGet | qwen_train/f2_analysis.py:645-649 | counting one more occurrence raises that key's count by one and no other |
| Counter.BumpKeys | qwen_train/f2_analysis.py:645-649 | the counted key is then present, and no key is there twice |
| McNemar.Admit | qwen_train/f2_analysis.py:641-656 | the common prologue refuses exactly replicated or ineligible ledgers and otherwise reports the split, the reasons and the gate |
| McNemar.IndependentReconstruction | qwen_train/f2_analysis.py:623-700 | the auditor returns a report with the counts of the ledger and the exact statistics, or the refusal |
| McNemar.AuditStatistics | qwen_train/f2_analysis.py:662-681 | p-value, interval and direction of given discordant counts, including the fallback for no discordant pair |
| McNemar.ShareIsPublishedAsEstimate | qwen_train/f2_analysis.py:656-674 | the sample share b/(b+c), moved to the published scale, is the estimate (b-c)/n |
| McNemar.ScaleIsRiskDifference | qwen_train/f2_analysis.py:671-674 | a bound p is published as (p d - (1-p) d)/n |
| McNemar.PublishedIntervalCovers | qwen_train/f2_analysis.py:671-674 | for every d, n, alpha and p, the Binomial(d, p) weight of the b whose published interval, widened by the image of half a cell, misses (p d - (1-p) d)/n is at most alpha |
| McNemar.EstimateIsNear | qwen_train/f2_analysis.py:656-674 | the estimate lies in the published interval widened by the image of half a cell |
| McNemar.EstimateIsInside | qwen_train/f2_analysis.py:656-674 | and in the interval itself when (b + c) * 2^-200 <= 1 - alpha |
| McNemar.EstimateIsInsideIff | qwen_train/f2_analysis.py:656-674 | in general exactly when, with both counts positive, each bound reaches the share: the grid point next to it on that side passes the tail test, or the share lies in the right half of its cell |
| McNemar.EstimateBelowInterval | qwen_train/f2_analysis.py:656-674 | one pair for the treatment and at least 2^201 against it give an estimate below ci_low, for every alpha |
| McNemar.EstimateAndFallback | qwen_train/f2_analysis.py:656-681 | the estimate is (b-c)/n for every report; without a discordant pair the p-value is 1 and the interval symmetric and cut off at 1 |
| McNemar.FallbackIs | qwen_train/f2_analysis.py:675-680 | its half width is 1.959963985 times the root of 1/(4n), and 1 when n is 0 |
| McNemar.GateMeans | qwen_train/f2_analysis.py:188-238 | a report's gate counts the incomplete rows with a declared infrastructure cause and is satisfied exactly when they are at most 3/10 of all rows |
| McNemar.BinomCdfBisect | qwen_train/f2_statistics.py:325-363 | the producer's bisection, through `1 - cdf(k-1)`, returns the auditor's bound |
| McNemar.McNemarExact | qwen_train/f2_statistics.py:179-298 | the producer's table and statistics over the two value lists equal the exact ones |
| McNemar.FinalizeF2 | qwen_train/f2_analysis.py:497-570 | the producer refuses exactly when the auditor does, and its report satisfies the same specification at alpha = 1/20, whatever its alpha |
| McNemar.ProducerAgreesIff | qwen_train/f2_analysis.py:631-634 | for 0 < alpha < 1 the producer's statistics equal the auditor's at alpha exactly when no pair is discordant or the cells found at 1/20 also hold the crossings at alpha |
| McNemar.ReportsAgreeIff | qwen_train/f2_analysis.py:631-634 | the same for the two reports of any ledger |
| McNemar.ProducerIgnoresAlpha | qwen_train/f2_analysis.py:497-570 | at alpha = 1/2 a single discordant pair gives them different statistics |
| McNemar.IntervalWellFormed | qwen_train/f2_analysis.py:671-674 | with a discordant pair neither clamp binds and -1 <= ci_low <= ci_high <= 1 |
| McNemar.IntervalMatchesTest | qwen_train/f2_analysis.py:664-681 | for every alpha: ci_low > 0 exactly when b > c and p < alpha, ci_high < 0 exactly when c > b and p <= alpha |
| McNemar.BoundaryCase | qwen_train/f2_analysis.py:664-681 | d >= 2 pairs against the treatment and none for it, at alpha = 2^(1-d): p == alpha, and ci_high < 0 |
| McNemar.IntervalExcludesZeroIffSignificant | qwen_train/f2_analysis.py:664-681 | at alpha = 1/20 the interval excludes 0 exactly when p < alpha, and then lies on the side the direction names |
| McNemar.ExactAntisymmetry | qwen_train/f2_analysis.py:656-681 | at alpha = 1/20 exchanging b and c keeps the p-value, negates the risk difference, reverses and negates the interval and flips the direction |
| McNemar.SwappedLedger | qwen_train/f2_analysis.py:656-681 | the same for a whole ledger with T and X exchanged in every row |
| McNemar.ReportOfMultiset | qwen_train/f2_analysis.py:623-700 | a report of a ledger is a report of every reordering of it |
| McNemar.MissingRowsChangeNoStatistic | qwen_train/f2_analysis.py:641-681 | adding incomplete rows changes neither table nor statistics |
| McNemar.ReportAddsUp | qwen_train/f2_analysis.py:641-660 | n00 + n01 + n10 + n11 = N, N + missing = total, and the gate's kinds add up to missing |
| CanonicalJson.LoadsWrite | qwen_train/f2_authorization.py:213-229 | parsing what was written gives it back, or with the duplicate-key hook refuses it, exactly when an object repeats a key |
| CanonicalJson.LoadsCanonicalText | qwen_train/f2_authorization.py:143-151 | parsing canonical text gives the record back up to key order, with or without the hook and ASCII escaping |
| CanonicalJson.CanonicalTextIdentifies | qwen_train/f2_authorization.py:143-151 | two records have one canonical text exactly when they differ at most in the order of their keys |
| CanonicalJson.CanonicalExample | qwen_train/f2_authorization.py:143-151 | the canonical text of a nested record, character by character |
| CanonicalJson.BeforeIff | qwen_train/f2_authorization.py:143-147 | keys are sorted by their first differing character, prefixes first |
| CanonicalJson.LoadsGivesRecords | qwen_train/f2_authorization.py:213-229 | whatever text is parsed, no object in the result repeats a key |
| CanonicalJson.CanonDecidesSame | qwen_train/f2_authorization.py:143-147 | sorting keys at every depth makes two records equal exactly when they are the same dicts |
| CanonicalJson.ReadEscaped | qwen_train/f2_authorization.py:143-147 | every character, in every escaped form including surrogate pairs, is read back as itself |
| CanonicalJson.ReadShortEscape | qwen_train/f2_authorization.py:222-229 | each of the eight short escapes is read as its character |
| CanonicalJson.LastWinsKeeps | qwen_train/f2_evaluator.py:479-500 | without the hook a repeated key keeps its last value |
| JsonGrammar.ReadTree | qwen_train/f2_authorization.py:222-229 | every text of the JSON grammar, with white space anywhere between tokens and any escapes, is read as what it means |
| JsonGrammar.LoadsIff | qwen_train/f2_authorization.py:222-229 | a text is accepted with value v exactly when it is a document of the grammar that means v; nothing else is accepted |
| CanonicalJson.NoDuplicateKeys | qwen_train/f2_authorization.py:213-219 | the hook returns the pairs unchanged when keys are distinct and refuses otherwise |
| CanonicalJson.TextIsAscii | qwen_train/f2_evaluator.py:432-439 | with ASCII escaping the text holds only printable ASCII, so encoding it never fails |
| Authorization.NormalizeExecutionBinding | qwen_train/f2_authorization.py:671-682 | returns stage, operation and exactly the supplied fields, or refuses a field that is unknown, empty or not a text |
| Authorization.BindingDigestIdentifies | qwen_train/f2_authz_ledger.py:99-116 | equal binding digests mean equal stage, operation and supplied fields |
| Authorization.VerifiedRecordBinds | qwen_train/f2_authorization.py:444-618 | a record verified for a confirmatory run carries a signature trusted there, is of stage CONF-001 with confirmatory_run among operations that all lie in the stage's set, neither revoked nor superseded; it names the supplied arm, experiment and protocol in a clean checkout, agrees on a rollout id if both name one, and has a revision, which is the checkout's exactly when it is not null |
| Authorization.OperationsOfStages | qwen_train/f2_authorization.py:73-117 | whatever authorises is one of the four operations of its own stage and names what that operation requires |
| Authorization.NullRevisionPassesEverywhere | qwen_train/f2_authorization.py:566-594 | a record that passes one checkout passes all clean ones exactly when neither it nor the request gives a revision that is not null |
| Authorization.GrantAuthorises | qwen_train/f2_authorization.py:444-553 | a whole signed document, with every required field, authorises the confirmatory run of its arm, experiment and protocol in a clean checkout that trusts it exactly when its revision is the checkout's or null |
| Authorization.UnpinnedAuthorises | qwen_train/f2_authorization.py:444-594 | with a null revision one such document authorises its run at every revision |
| Ledger.AuthorizationLedger.CreateExclusive | qwen_train/f2_authz_ledger.py:161-163 | creates the file exactly when it is absent and never touches an existing one |
| Ledger.AuthorizationLedger.Consume | qwen_train/f2_authz_ledger.py:126-199 | what is returned and what is in the directory afterwards, for a fresh grant, a used one, a torn or foreign file, and a disk on which the open, the write or the sync fails or the write stops short |
| Ledger.AuthorizationLedger.Entries | qwen_train/f2_authz_ledger.py:202-224 | lists every entry when all files are readable and refuses otherwise |
| Ledger.AuthorizationLedger.Find | qwen_train/f2_authz_ledger.py:226-241 | finds the entry of a record digest, absence, or a refusal over a damaged ledger |
| Ledger.AuthorizationLedger.VerifyConsumption | qwen_train/f2_authz_ledger.py:243-269 | succeeds exactly when one entry has the id and it carries both digests; changes nothing |
| Ledger.EntryWithId | qwen_train/f2_authz_ledger.py:249-260 | the scan for the entry id: that entry, or a refusal when none or several carry it |
| GrantProtocol.StepKeepsInv | qwen_train/f2_authz_ledger.py:126-199 | every step of every process keeps the protocol's invariant |
| GrantProtocol.AtMostOneConsume | qwen_train/f2_authz_ledger.py:126-199 | in every interleaving, with stops anywhere, at most one consume per record ever returns |
| GrantProtocol.NoLaterConsume | qwen_train/f2_authz_ledger.py:161-199 | once the grant's file exists, whole or torn, no consume that had not created it ever returns, under any binding |
| GrantProtocol.TornNeverLaunches | qwen_train/f2_authz_ledger.py:202-269 | once a consumer is past its write and the grant's file is torn, no continuation of the run holds a launch of that grant |
| GrantProtocol.LaunchIsCorroborated | qwen_train/f2_execution_adapter.py:455-515 | every launch has a ledger entry of its record at stage CONF-001 with the manifest's arm, experiment and protocol and its rollout id |
| GrantProtocol.LaunchIsSigned | qwen_train/f2_execution_adapter.py:455-515 | in every run every launch has a document and a world in which its record and signature are trusted, its stage is CONF-001, its operations contain confirmatory_run and lie in the stage's set, and it is neither revoked nor superseded |
| GrantProtocol.LaunchesAgree | qwen_train/f2_execution_adapter.py:455-515 | two launches under one grant agree on manifest, rollout id and record |
| GrantProtocol.LaunchPossibleIff | qwen_train/f2_execution_adapter.py:455-515 | at any point of any run, an adapter about to check can launch exactly when its record verifies for its manifest and rollout with the digests it was handed and the receipt is accepted; earlier launches do not matter |
| GrantProtocol.LaunchableIff | qwen_train/f2_execution_adapter.py:455-515 | what makes it possible, spelled out: a healthy ledger with one entry of the given id that carries both digests handed over, and a document that verifies with them |
| GrantProtocol.ReceiptIsOfTheEntry | qwen_train/f2_authz_ledger.py:243-269 | on a readable ledger without a second entry of that id, the accepted receipt is the id and the binding digest of the grant's entry |
| GrantProtocol.OneGrantTwoLaunches | qwen_train/f2_authz_ledger.py:80-98 | a run with one consume and two launches under it |
| GrantProtocol.TwoLaunchesHappen | qwen_train/f2_authz_ledger.py:80-98 | with no hypothesis about the outside: every execution has a grant with a null revision and a run with one consume and two launches of it |
| GrantProtocol.WorkerIsCorroborated | qwen_train/f2_arm_worker.py:996-1083 | a worker past its checks holds the identities its grant was consumed for: arm, experiment, protocol and, where the environment names one, the rollout id |
| GrantProtocol.ScanIsVerifyConsumption | qwen_train/f2_authz_ledger.py:243-269 | the file-by-file scan of a stable directory returns an entry exactly when `verify_consumption` finds that one |
| GrantProtocol.ConsumeInSteps | qwen_train/f2_authz_ledger.py:126-199 | a process left alone from its exclusive create on leaves the directory that `Consume` leaves, and wins exactly when `Consume` returns its entry, on every disk |
| GrantProtocol.GrantVerifies | qwen_train/f2_authorization.py:685-706 | for every manifest and rollout without empty texts, a signed grant of that execution, pinned or with a null revision, verifies in every clean checkout that trusts it |
| GrantProtocol.HonestLaunch | qwen_train/f2_execution_adapter.py:455-515 | a record that verifies can be consumed by the parent and then launched by the adapter |
| SessionSave.StepKeepsInv | organism_console/state_store.py:241-274 | every step of every save thread, failing or not, keeps the invariant |
| SessionSave.EveryThreadGoesOn | organism_console/state_store.py:199-286 | in every reachable state a save thread can take its next step and can fail, until it has finished |
| SessionSave.FileIsWholeAndOrdered | organism_console/state_store.py:241-286 | in every run the session file is the one from before or the complete output of one save, whose history was copied, and whose other fields were serialised, no earlier than the save() call of its number; promoted numbers strictly increase |
| SessionSave.FileIsOfOneMomentIff | organism_console/state_store.py:199-239 | the file's history and its other fields are of one moment exactly when no change fell between the copy and the serialisation of that save, and otherwise that many changes apart |
| SessionSave.FileOfTwoMoments | organism_console/state_store.py:199-239 | a run in which the file is of two moments |
| SessionSave.QuietState | organism_console/state_store.py:253-274 | when all threads are done, only temporaries that could not be removed remain, and the file has the highest number that did not fail |
| SessionSave.LastSaveIsOnDisk | organism_console/state_store.py:276-286 | if the last numbered save did not fail, the file holds every change made before that call |
| SessionSave.UndisturbedSave | organism_console/state_store.py:199-286 | a save that nothing interrupts puts exactly the present state on disk |
| SessionSave.SessionState.constructor | organism_console/state_store.py:96-141 | a new session is an initial state of the protocol |
| SessionSave.SessionState.Save | organism_console/state_store.py:276-286 | takes the next number and hands it to a thread |
| SessionSave.SessionState.PromoteTemp | organism_console/state_store.py:253-258 | replaces the file exactly when the number is above the last promoted one |
| SessionSave.SessionState.CleanUp | organism_console/state_store.py:265-274 | removes an unpromoted temporary if the disk lets it |
| SessionSave.SessionState.SaveSync | organism_console/state_store.py:199-286 | after an undisturbed synchronous save the file is the state at the call, under its number, and no temporary is added |
| HistoryCap.TruncateFits | organism_console/state_store.py:22-35 | truncation returns exactly min(length, budget) characters and keeps the beginning and the end |
| HistoryCap.CapHistory | organism_console/state_store.py:38-92 | the backward loop returns the declarative cap |
| HistoryCap.CappedShape | organism_console/state_store.py:52-92 | first user message, a notice with the exact number that this cap left out if there is one, then the kept end of the others, of at most 60 messages with the first user message |
| HistoryCap.NoticeSaysWhatIsMissing | organism_console/state_store.py:79-92 | the decimal number in the notice, read back, is the number of messages that this cap left out, and there is no notice exactly when none was |
| HistoryCap.NoticesDiffer | organism_console/state_store.py:79-88 | notices of different numbers differ |
| HistoryCap.NewestIsKeptIff | organism_console/state_store.py:65-78 | the newest other message is kept exactly when it fits the 96000 characters or is a dict with 64 of them left |
| HistoryCap.TotalIsLength | organism_console/state_store.py:38-49 | the characters counted are those of all contents together |
| PyText.DigitsDenote | organism_console/state_store.py:79-88 | the decimal text of a number denotes it |
| HistoryCap.KeptTailIsNewest | organism_console/state_store.py:59-78 | the kept end is a contiguous end of the other messages, only its newest member shortened and only when over-long, and it stops only where the slots or the characters are used up |
| HistoryCap.CappedCharacters | organism_console/state_store.py:59-78 | characters outside the notice stay within the cap unless the first user message alone exceeds it, and then it is kept alone |
| HistoryCap.OverBudgetIff | organism_console/state_store.py:38-92 | the saved characters exceed the cap exactly when the first user message does, or there is a notice larger than what the kept messages leave; and never by more than the notice otherwise |
| HistoryCap.ShortenedOverBudgetIff | organism_console/state_store.py:65-92 | when the newest other message is shortened they exceed it, by the notice, exactly when there are more than 60 messages or any characters before it |
| HistoryCap.FirstUserSurvives | organism_console/state_store.py:52-58 | however often the history is capped and extended, the first user message is unchanged |
| HistoryCap.UserAnchorIff | organism_console/state_store.py:38-45 | the saved history has a user message exactly when it had one, or too many messages, or characters before an over-long end |
| HistoryCap.LoneAnswer | organism_console/state_store.py:59-78 | a single over-long answer is saved shortened, without a user message |
| HistoryCycles.SixtyOneIff | organism_console/state_store.py:50-92 | more than 60 messages are saved exactly when there were more than 60 and the newest of the others, one for each free slot, are all kept; it is then 61 |
| HistoryCycles.SixtyOneMessages | organism_console/state_store.py:50-92 | as for any 61 or more messages without content |
| HistoryCycles.CapIdempotentIff | organism_console/state_store.py:38-92 | capping twice is capping once exactly when the first result is within the caps, or there is a user message and at most one message was left out |
| HistoryCycles.EmptyMessagesDiffer | organism_console/state_store.py:38-92 | for 62 or more messages without content, one of them of the user, it is not |
| HistoryCycles.SavedTwiceSaysOne | organism_console/state_store.py:79-92 | saving a saved history that is over the caps changes its number to 1, and saves after that change nothing |
| HistoryCycles.NextSave | organism_console/state_store.py:79-92 | when more messages come, the next notice says d' where d + d' - 1 messages of the session are gone |
| StableSort.SortIsStable | qwen_train/f2_endpoint.py:267 | sorting orders by key, keeps the members and keeps equal keys in order |
| StableSort.StableSortIsUnique | qwen_train/f2_endpoint.py:267 | these facts determine the result, so it is Python's |
| StableSort.FindInSorted | qwen_train/f2_endpoint.py:267-287 | the first match in the sorted calls is the earliest match of least key in the given ones |
| Endpoint.MatchesNestedIff | qwen_train/f2_endpoint.py:95-120 | for any file in a directory, hidden or not, a target matches exactly when it ends with it, and for a file without a proper name also at a segment boundary or with its name |
| Endpoint.MatchesBareIff | qwen_train/f2_endpoint.py:95-120 | for any file without a directory, exactly when it is, without its leading dots, the target's last path segment |
| Endpoint.MatchesNamelessIff | qwen_train/f2_endpoint.py:95-120 | a file of dots and slashes matches the targets that end in a slash or have no name |
| Endpoint.BoundaryMissedIff | qwen_train/f2_endpoint.py:95-101 | a match misses the promised segment boundary exactly when the character before the file name belongs to its segment |
| Endpoint.BoundaryMissed | qwen_train/f2_endpoint.py:95-120 | `mysrc/a.py` matches `src/a.py` |
| Endpoint.OwnPathIff | qwen_train/f2_endpoint.py:95-120 | any file, `.src/` and the like included, matches its own path exactly when nothing is stripped from it, or what is stripped ends in a slash, or there is a name below its first segment, or, when all of it is stripped, it has no name |
| Endpoint.HiddenFileIsNotMatched | runtime_v2/services/task_readiness.py:76-97 | a hidden file without a directory, which the canonical set admits, is matched by its name without the dot and not by its own |
| Endpoint.QualifiesIff | qwen_train/f2_endpoint.py:268-280 | spelled out: a filesystem call that writes, patches, edits or creates, and whose path, or file path where there is none, matches a file of the set |
| Endpoint.StepReads | qwen_train/f2_endpoint.py:257-266 | the step is the step id, the turn where that is missing, and 0 where it is not a number |
| Endpoint.FirstMatchIs | qwen_train/f2_endpoint.py:95-120 | the file reported is the first of the set that the target matches |
| Endpoint.DetectorIsCorrect | qwen_train/f2_endpoint.py:231-287 | no endpoint exactly when no qualifying call is within the horizon; otherwise that of the earliest in the input among those of least step |
| Endpoint.HitReports | qwen_train/f2_endpoint.py:272-287 | the endpoint reports that call's step, operation and target, the first file it matches, and the horizon |
| Endpoint.OrderDoesNotMatter | qwen_train/f2_endpoint.py:231-287 | the step is the same for every order of the calls |
| Endpoint.OnlyCountingCallsMatter | qwen_train/f2_endpoint.py:231-287 | the whole result depends only on the qualifying calls within the horizon |
| Endpoint.LateCallsChangeNothing | qwen_train/f2_endpoint.py:272-287 | appending calls that do not count changes nothing, whatever their steps |
| Endpoint.DetectorsAgree | qwen_train/f1_infra.py:148-208 | the older detector gives the same step whenever both score every call alike |
| Endpoint.SameScoreIsNeeded | qwen_train/f1_infra.py:148-208 | a call alone makes them differ exactly when they score it differently |
| Endpoint.SameScoreIff | qwen_train/f1_infra.py:148-208 | for clean targets and files inside a directory a call is scored alike exactly when it does not qualify or both read the same step from it |
| Endpoint.StepZeroDiffers | qwen_train/f1_infra.py:148-208 | step id 0 and turn 5: one says step 0, the older one step 5 |
| Trajectory.ToolCalls | qwen_train/f2_calibration.py:546-577 | flattening stamps every tool call with its record's step id, in order |
| Trajectory.EndpointOfTrajectory | qwen_train/f2_calibration.py:580-593 | there is an endpoint exactly when a record made a qualifying call within the horizon, and its step is the least such, where a record's own step id goes before what its calls say |
| RoundRobin.PopRounds | qwen_train/diverse_select.py:69-74 | the destructive loop equals the concatenation over rounds of every bucket's r-th item, and ends |
| RoundRobin.PopRound | qwen_train/diverse_select.py:71-73 | one pass over the buckets takes each one's first item |
| RoundRobin.PrefixIsBalanced | qwen_train/diverse_select.py:69-74 | in every prefix each key has a prefix of its bucket, and two buckets not used up differ by at most one |
| RoundRobin.InterleaveKeepsBuckets | qwen_train/diverse_select.py:69-74 | each key gets its whole bucket in order |
| RoundRobin.Dedupe | qwen_train/diverse_select.py:36-45 | keeps exactly the items whose prompt has not occurred before |
| RoundRobin.DistinctPrompts | qwen_train/diverse_select.py:36-45 | every prompt of the group is kept exactly once |
| RoundRobin.GroupByFamily | qwen_train/diverse_select.py:56-60 | the training items of each family, families in order of first appearance |
| RoundRobin.SameFamilyIff | qwen_train/diverse_select.py:32-33 | two items are of one family exactly when their sorted tools are equal, an empty list counting as "?" |
| RoundRobin.Select | qwen_train/diverse_select.py:48-74 | the whole selection equals its specification |
| RoundRobin.FamilyGetsItsBucket | qwen_train/diverse_select.py:48-74 | the selected items of a family are its bucket, in order |
| RoundRobin.SelectionIsBalanced | qwen_train/diverse_select.py:48-74 | in every prefix, two families with items to come have had the same number, give or take one |
| RoundRobin.BucketHasTheHardest | qwen_train/diverse_select.py:62-67 | a bucket holds the per_family hardest distinct items, hardest first |
| RoundRobin.SliceIs | qwen_train/diverse_select.py:62-67 | Python's s[:n], negative n included |
| RoundRobin.BucketAsTheyCome | qwen_train/diverse_select.py:62-67 | without prefer_hard a bucket holds the first per_family distinct items |
| Calibration.RunCell | qwen_train/f2_calibration.py:476-536 | the retry loop of one cell equals its specification |
| Calibration.RunCells | qwen_train/f2_calibration.py:476-536 | so do the loops over tasks and replicates, which make no call after an error |
| Calibration.CellShape | qwen_train/f2_calibration.py:482-536 | a cell's records are infrastructure failures followed by at most one scientific record, one a call, at most max_reruns + 1, and it gives up only at that number; each record has its outcome's fields, its made-up id, and a rerun's origin and cause |
| Calibration.RunStopsRightly | qwen_train/f2_calibration.py:476-536 | a run stops exactly at the first call whose outcome is not acceptable, after that many calls, and says what for |
| Calibration.AuthorisedIff | qwen_train/f2_calibration.py:398-449 | a plan is authorised exactly by a complete authorization that says the same in every field |
| Calibration.WellFormedIff | qwen_train/f2_calibration.py:103-136 | what a record is refused for, field by field |
| Calibration.NamesDiffer | qwen_train/f2_calibration.py:476-536 | made-up ids are equal exactly for the same cell and attempt |
| Calibration.MadeUpIdsDiffer | qwen_train/f2_calibration.py:476-536 | a run whose runner reports no ids makes up a different one for every record |
| Calibration.EveryCallIsKept | qwen_train/f2_calibration.py:476-536 | the k-th call of the runner leaves exactly the k-th record, with its outcome or its cause |
| Calibration.CallsAreBounded | qwen_train/f2_calibration.py:476-536 | however the runner behaves, a run makes at most cells * (max_reruns + 1) calls |
| Calibration.RerunsAreBlind | qwen_train/f2_calibration.py:466-470 | two runners that fail for infrastructure on the same calls are called equally often, whatever else they report |
| CalibrationSummary.RunCalibration | qwen_train/f2_calibration.py:452-538 | refuses an unauthorised plan without any call, and otherwise returns the run's records with their summary, or the error |
| CalibrationSummary.AuthorisedRun | qwen_train/f2_calibration.py:452-538 | at most tasks * replicates * (max_reruns + 1) calls, at least one record a cell, and the summary fails only over a rollout id that two records carry, reported or made up |
| CalibrationSummary.NamelessRunIsSummarised | qwen_train/f2_calibration.py:452-538 | an authorised plan of distinct tasks whose runner reports no ids is always summarised once it ends without an error |
| CalibrationSummary.Summarize | qwen_train/f2_calibration.py:167-297 | refuses empty, mixed, foreign or duplicate records, and otherwise returns the summary, field by field |
| CalibrationSummary.SummaryTotals | qwen_train/f2_calibration.py:203-257 | the totals and rates count the valid, invalid, observed and unedited records by position |
| CalibrationSummary.SummaryTasks | qwen_train/f2_calibration.py:221-226 | the row of a task counts its valid records by instance id, and those with an endpoint |
| CalibrationSummary.SummaryCauses | qwen_train/f2_calibration.py:245-252 | each cause counts the invalid records with that reason, "unspecified" for none, and each rerun cause its reruns |
| CalibrationSummary.SummarySteps | qwen_train/f2_calibration.py:213-215 | the steps are in order, each as often as it is a first edit |
| CalibrationSummary.MeanOfSpread | qwen_train/f2_calibration.py:227-243 | the spread has the number, mean and mean squared deviation of the task rates |
| CalibrationSummary.VarianceTimes | qwen_train/f2_calibration.py:227-243 | n times the variance is the sum of squares less n times the squared mean |
| CalibrationSummary.SaturatedTasks | qwen_train/f2_calibration.py:227-243 | the tasks at 1 are those without an unobserved record, those at 0 those without an observed one |
| CalibrationSummary.Tally | qwen_train/f2_calibration.py:245-252 | counts records by cause, and the counts add up to the records with a cause |
| CalibrationSummary.GroupByTask | qwen_train/f2_calibration.py:221-223 | every task's valid observations in order, whose sizes add up to the valid records |
| CalibrationSummary.RatesConserve | qwen_train/f2_calibration.py:203-257 | endpoint rate + censoring rate = 1, no-edit rate = censoring rate, and the causes add up to the invalid records |
| CalibrationSummary.TasksRecombine | qwen_train/f2_calibration.py:221-226 | task rates weighted by task sizes recombine to the endpoint rate |
| CalibrationSummary.StepsMatchRate | qwen_train/f2_calibration.py:213-215 | every observed endpoint has its step in the summary |
| CalibrationSummary.SpreadOfSummary | qwen_train/f2_calibration.py:227-243 | the mean task rate lies between the extremes, and there is a spread exactly when there is a valid record |
| NodeId.IdentityOfNodeId | qwen_train/f2_evaluator.py:124-157 | path, classes and name of a node id, single colons included, come out as classname and name |
| NodeId.RefusedIff | qwen_train/f2_evaluator.py:135-157 | an id is refused exactly when it has no `::`, an empty part, or `.py` for its file |
| NodeId.SameIdentityIff | qwen_train/f2_evaluator.py:124-157 | two node ids of any kind share an identity exactly when they have the same name and the same segments, path and classes taken together and cut at slashes and dots |
| NodeId.OneToOneWhenPlain | qwen_train/f2_evaluator.py:124-157 | plain node ids with equally many classes share one exactly when they are the same |
| NodeId.IdentitiesCollide | qwen_train/f2_evaluator.py:124-157 | `t/a/b.py::x` and `t/a.py::b::x` share one |
| NodeId.IntactIff | qwen_train/f2_evaluator.py:124-157 | the identity keeps the parametrisation intact, as pytest writes it, exactly when there is no `::` in the parametrisation |
| NodeId.PytestIdentityOf | qwen_train/f2_evaluator.py:124-133 | pytest's identity of path, classes, name and bracket: classname from path and classes, name with the whole bracket |
| NodeId.BracketIsSplit | qwen_train/f2_evaluator.py:141-157 | `t.py::x[a::b]` is identified as `b]` in `t.x[a`, and written as `x[a::b]` in `t` |
| Evaluator.ParseJUnit | qwen_train/f2_evaluator.py:187-216 | accepts exactly a document with test cases, all named and none twice, and records each one's status |
| Evaluator.StatusIff | qwen_train/f2_evaluator.py:201-210 | the status by tags: skipped before error before failure, and passed without any of them |
| Evaluator.EvaluateExecution | qwen_train/f2_evaluator.py:260-319 | succeeds exactly on accepted evidence and declarations, with the status of every declared test |
| Evaluator.PassIff | qwen_train/f2_evaluator.py:279-319 | the result is pass exactly when every declared FAIL_TO_PASS test occurs without a skipped, error or failure tag |
| Evaluator.PassesMeans | qwen_train/f2_evaluator.py:279-319 | a declared test counts as passed exactly when some executed test that ran clean is written by pytest under the identity derived from the declared id |
| Evaluator.PassMeansOwnTests | qwen_train/f2_evaluator.py:279-319 | for plain ids of one class depth with no `::` in a parametrisation, the result is pass exactly when every declared FAIL_TO_PASS test itself ran clean |
| Evaluator.ForeignTestPasses | qwen_train/f2_evaluator.py:279-319 | whenever pytest writes one test under the identity derived from another, a clean case of the one alone reports a pass of the other |
| Evaluator.OwnCaseCountsIff | qwen_train/f2_evaluator.py:279-319 | a test's own clean case passes it exactly when its parametrisation holds no `::`; otherwise it is reported missing |
| Evaluator.PassToPassDoesNotMatter | qwen_train/f2_evaluator.py:275-317 | PASS_TO_PASS never changes the result |
| Evaluator.CaseOrderDoesNotMatter | qwen_train/f2_evaluator.py:187-216 | the order of the test cases changes nothing |
| Report.ParseRendered | qwen_train/f2_evaluator.py:442-518 | rendering and then parsing succeeds, digest and all, with the rendered payload up to key order |
| Report.ReportSays | qwen_train/f2_evaluator.py:442-476 | the parsed report lists, for each declared PASS_TO_PASS id and no other, the text of its own status, likewise for FAIL_TO_PASS, and has the declared result, the number of identities and the detail |
| Report.ReportLocates | qwen_train/f2_evaluator.py:442-476 | and the instance, repository, base commit and execution state of the inputs |
| Report.ReportIdentifies | qwen_train/f2_evaluator.py:442-476 | and the schema, evaluator, version, procedure and protocol of this evaluator, and the implementation digest |
| Report.AcceptedIff | qwen_train/f2_evaluator.py:479-518 | a text is accepted exactly when it is ASCII JSON of an object with this schema and evaluator, "pass" or "fail" declared, and the digest of its other fields |
| Report.NothingClashes | qwen_train/f2_evaluator.py:573-592 | a context field that is absent or falsy never clashes |
| Report.DigestCovers | qwen_train/f2_evaluator.py:432-439 | two reports have one digest exactly when their other fields are the same up to key order |
| Report.AlteredReportIsRefused | qwen_train/f2_evaluator.py:500-518 | a report with any other field changed and the old digest left in place is refused |
| Report.VerdictFromPayload | qwen_train/f2_evaluator.py:521-552 | the first reader's loop over the FAIL_TO_PASS map returns the declarative verdict: none unless it is a non-empty map of known statuses, and pass exactly when all passed |
| Report.DeriveResult | qwen_train/f2_evaluator.py:555-608 | the second reader's own comprehensions over the map, after parsing and its checks, return that verdict or nothing |
| Report.ReadersReproduceTheResult | qwen_train/f2_evaluator.py:442-608 | all three readings of a rendered report, declared result included, give the evaluator's result, the second reader exactly when implementation and context fit |
| Report.ReadBoth | qwen_train/f2_evaluator.py:521-608 | on any text without JSON floats the second reader says what the first says, or nothing, and nothing only where parsing fails, the implementation differs or the context clashes |
| Report.DeclaredAgreesIff | qwen_train/f2_evaluator.py:479-518 | the declared result of an accepted report is the derived one exactly when the map decides one and the declaration is pass exactly when all tests passed |
| Report.ForgedDeclaration | qwen_train/f2_evaluator.py:432-518 | for every map with a test that did not pass, an accepted text that declares pass and is read as fail |
| Report.EvidenceDecidesTheVerdict | qwen_train/f2_evaluator.py:521-608 | from evidence to the last reader: pass is derived exactly when every declared FAIL_TO_PASS test passes |

## Left out

- Floating-point rounding, and the log-space fallback of the producer's tails for large counts: all numbers are exact reals.
- The square root of the fallback interval for a ledger without discordant pairs is a parameter; `sd_task_rate` is modelled as the variance.
- Reading observations from arbitrary objects (`coerce`), and the wording of refusals, details and notices beyond the number of dropped messages.
- Ed25519 signatures, trust-root files, validity windows, revocation lists, digests a caller may pass in, and git: one uninterpreted judgement about a record and its signature, and a revision with a clean or dirty flag.
- The early `require_authorized` call and the readiness gate of the orchestrator, and everything it does between consuming and spawning.
- JSON floats, NaN and lone surrogates, Python's limits on nesting and on the length of a number, and the UTF-8 encoding of canonical text.
- Report.ReadBoth: does not cover texts with JSON floats, which the parser here refuses, because a float is read to the nearest double and written back as Python's shortest text for it.
- NodeId.PytestIdentity: what pytest writes is what the docstring of `nodeid_to_junit_identity` says of it; pytest is not part of this model.
- Report.PyStr: the text of a context value that is an array or an object is its JSON text, where Python has the repr.
- Timestamps and free-text fields of ledger entries; `ledger_root` and environment lookups.
- Loading a session, checkpoints, and what a killed process leaves behind. The list of messages is its own backwards reading, and the first user message is told apart by position, not by object identity.
- HistoryCap.TakeOne: the body of the backward loop, kept as a method of its own.
- Endpoint.FindQualifyingFirstEdit: the older detector on steps that are not integers, where its sort can raise.
- `FrozenEndpoint` validation and its canonical file set, which is computed elsewhere.
- The order of the task table in the summary (sorted by name in the source) and the saturation text.
- A runner that raises: the exception passes through and no records are returned.
- XML parsing, byte limits and DOCTYPE refusal: evidence is either unreadable or a list of test cases. The command line that produces it.
- The order of keys in the report's dict, which sorted serialisation hides.
- Command line, console, HTTP, model routing, speech and training-data code; the other `f2_*` checks of one branch each.
