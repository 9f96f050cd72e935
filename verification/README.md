# Augury: models and proofs

Dafny models of the hard parts of Augury, a system that scores social posts, turns them into a
time-decayed stance signal, drives a synthetic prediction market with it, and paper-trades the
difference. Six cores are modelled, in Rust, C++, Python, Java, SQL and R in the original:

| modules | what they model |
|---|---|
| `Text`, `Primes`, `Mersenne`, `MinHash`, `DuplicateDetector`, `PostFilter`, `SimilarityCounts` | streaming near-duplicate detection: normalisation, the hash family and its prime modulus, banding, the indexed FIFO window, the post filter |
| `Transcendental`, `Lmsr`, `BinaryMarket`, `MakerLoss`, `SignalLoss`, `DepthCalibration`, `MarketNumbers`, `Correlation`, `Backtest`, `Isolation`, `LogitMoves`, `BacktestPaths`, `WalkSummaries` | the market maker, what it can lose, its liquidity calibration, and walk-forward backtesting |
| `Timeline`, `MarketData`, `Simulation`, `Lookahead`, `SimulatedPrices` | driving a market from a signal series and recorded books, and what such a run can see |
| `Decay`, `SignalLaws`, `ReachAndAge`, `Adaptive`, `SignalSeries`, `Causality`, `HourlyBars`, `SurgeLaws` | the decayed signal, the adaptive half-life, and the hourly signal series |
| `Calibration`, `PlattFit`, `PlattBound`, `FitNumbers` | signal to probability, the Newton fit of the logistic map, and what its smoothed labels bound |
| `ReadBudget`, `MeteredReads`, `BudgetNumbers` | the persisted daily read budget, every interleaving of its callers, and the reads they can be charged for |
| `PaperLedger`, `LedgerNumbers`, `LedgerSides`, `PaperSettlement`, `LedgerRaces`, `LedgerOverlaps` | the paper portfolio: ledger, positions, settlement, valuation, and every interleaving of its statements |
| `GridAlign`, `GridTimes` | joining two series on a bar grid with a bounded forward fill |

`dafny verify dfyconfig.toml` checks the whole project.

## Conventions

- Floating-point numbers are `real`; nothing is claimed about rounding, NaN or infinity.
- `exp`, `ln`, the square root and the logistic pair are function values in a `Math` record. `Math.Lawful()`
  states the laws used (positivity, `exp(0) = 1`, the homomorphism, strict growth, mutual inverses, and that a
  root is non-negative and squares back) and ties `Sigmoid` and `Logit` to the code that evaluates them.
- Hash functions (FNV-1a, the splitmix64 finaliser, the bucket digest) are function values: the
  proofs hold for any of them. Lowercasing, white space and word characters are a `CharModel`.
- Timestamps are integers (microseconds in the signal path). The clock, the forecasts, the upstream's
  answers and the heuristic reject rule are parameters.
- Exceptions and error returns are `Result`; where a method and its specification both fail, only the
  fact is compared, not the message.
- A database statement is one atomic step. A call on the paper ledger is a read and several writes: `PaperLedger`
  and `PaperSettlement` are about calls that run one after the other, `LedgerRaces` and `LedgerOverlaps` about
  calls whose statements interleave.
- Source objects that update fields are classes (`Detector`, `Filter`, `LmsrMarket`, `Budget`, `Ledger`);
  source loops are loops, each proved against a function over values; the theorems are about those
  functions, over every input, run or interleaving.
- `GridAlign` numbers bars: a row's timestamp is `bar * step`.
- Specification functions are stated a second time in counts, sums, timestamps and exponentials that do not name them,
  in `SimilarityCounts`, `MarketNumbers`, `BacktestPaths`, `WalkSummaries`, `SimulatedPrices`, `ReachAndAge`, `SurgeLaws`,
  `HourlyBars`, `FitNumbers`, `BudgetNumbers`, `LedgerNumbers` and `GridTimes`.

## Where the code and its documentation disagree

The models follow the code.

- A quiet market is said to keep its base half-life exactly
  (apps/augury-signal/augury_signal/signal/decay.py:195-196). It does unless the floor is above the base:
  `Adaptive.QuietKeepsTheBase` gives the exact condition.
- `simulate_lmsr` promises no lookahead
  (apps/augury-signal/augury_signal/pipeline/steps.py:387-393), yet anchors on the last book when no opening
  price is given and may open on a book after the first signal. `Lookahead.BlindExactlyWhen` states exactly
  when past ticks are immune to the future.
- The stated maximum loss `b ln 2` (apps/augury-engine/src/lmsr.cpp:127-135) holds at a fixed `b`
  (`MakerLoss.RunLossIsBounded`). Across recalibrations, with purchases of any size in between, the opening bound
  holds for every run exactly when `b` is never raised (`MakerLoss.OpeningSubsidyCoversExactlyWhen`), and the bound
  at the current `b` exactly when it is never changed (`MakerLoss.CurrentSubsidyCoversExactlyWhen`). Runs that only
  move, step and recalibrate, which is what the services do, stay in the clamp band, and their loss has an exact
  maximum for every sequence of recalibrations (`SignalLoss.SignalsStayWithinExactlyWhen`); there a small enough
  raise is covered (`SignalLoss.OneRaiseIsCoveredExactlyWhen`).
- A step closes the fraction `r` of the logit gap, and a move reaches its target, only inside the logit
  clamp band (`BinaryMarket.StepContracts`, `BinaryMarket.MoveLands`); every run from a fresh market
  that only moves, steps and recalibrates stays there (`BinaryMarket.RunKeepsTheBand`).
- The read budget refunds to the row of the current day, so a response that crosses midnight frees room on
  the wrong day: `ReadBudget.ConservedExactlyWhenClean` is the exact condition for the books, and
  `MeteredReads.OverspendableExactlyWhen` for the metered reads; `MeteredReads.StraddlingRefundOverspends` gives
  runs that meter up to twice the limit.
- `value().totalPnl` of a settled position counts the payout twice
  (`PaperLedger.SettledTotalCountsThePayoutTwice`). No caller runs into it: `portfolio()` lists unsettled rows
  only (apps/augury-api/src/main/java/com/augury/api/repository/AuguryRepository.java:302), so the realized
  profit it reports is always 0 (`PaperLedger.PortfolioIsOpenGains`).
- A settlement is said to close an open position
  (apps/augury-signal/augury_signal/pipeline/steps.py:587); it returns early on a settled row, and rebalancing does
  not look whether a row is settled, so a signal after settlement opens a position for good:
  `PaperSettlement.SettlementClosesExactlyWhen`, `PaperSettlement.LaterSettlementClosesExactlyWhen`.
- A rebalance and a settlement are not transactions (each statement commits by itself,
  apps/augury-signal/augury_signal/db.py:69-78): two that overlap on one row overshoot the target, past any
  cap, or pay out twice (`LedgerOverlaps`). Cash still reconciles (`LedgerRaces.CashReconciles`).
- Positions are said to be derivable from the fills (docker/migrations/003_ledger_and_scores.sql:7-11), but a short
  is recorded as a sale of NO: `LedgerSides.ReplayBySideAgreesExactlyWhen`.
- The ledger schema calls settlement cash flows positive
  (docker/migrations/003_ledger_and_scores.sql:21); settling a short that loses is negative
  (`PaperLedger.SettlingAShortCosts`).
- The aligned value of a bar is documented as its last observation; it is the last one listed:
  `GridAlign.KeptIsLatestExactlyWhen` says exactly when that is a latest one, and
  `GridAlign.UnsortedInputKeepsTheEarlier` shows a pair for which it is not.
- Smoothed labels are said to bound the Platt fit
  (apps/augury-signal/augury_signal/signal/calibration.py:127-128); they do while no class reaches 999998
  (`PlattBound.SmoothingBoundsTheFit`), and no longer help when both exceed it (`PlattBound.LargeClassesHaveNoFit`).
- The C++ and Python depth calibrations differ on some books with a negative size
  (`DepthCalibration.NegativeDepthDivides`); `DepthCalibration.ImplementationsAgreeExactlyWhen` says on which.

## Model

| member | source | states |
|---|---|---|
| `Text.NormalizeText` | apps/augury-ingest/src/minhash.rs:95-121 | the loop over whitespace tokens computes the functional specification: lowercase, drop link/handle/tag tokens, keep word characters, join with single spaces |
| `Text.SplitJoin` | apps/augury-ingest/src/minhash.rs:95-121 | joining words with single spaces and splitting at whitespace returns the words |
| `Text.NormalizedWords` | apps/augury-ingest/src/minhash.rs:95-121 | splitting the normalised text gives exactly the cleaned tokens of the original |
| `Text.NormalizeIdempotent` | apps/augury-ingest/src/minhash.rs:95-142 | normalising twice is normalising once, so shingles do not change either |
| `Text.LinksAndTagsAreInvisible` | apps/augury-ingest/src/minhash.rs:90-121 | texts with the same tokens once links, handles, cashtags and hashtags are dropped, wherever those stand, normalise alike and have the same shingles |
| `Text.InsertedLinksAndTags` | apps/augury-ingest/src/minhash.rs:90-121 | such tokens written at the start, in the middle or at the end of a text leave the remaining tokens alone |
| `Text.ShingleCount` | apps/augury-ingest/src/minhash.rs:127-142 | max(1, words-2) shingles for nonempty text, none for empty; each is three consecutive words, or the whole short text |
| `Text.DroppedExactlyWhen` | apps/augury-ingest/src/minhash.rs:95-121 | a raw token leaves no word if and only if, lowercased, it starts with http://, https://, @, $ or #, or has no letter, digit or apostrophe; any other leaves the one word of what it keeps |
| `Text.CleanOne` | apps/augury-ingest/src/minhash.rs:107-110 | a character is kept if and only if it is a letter, a digit or an apostrophe |
| `Text.CleanAppends` | apps/augury-ingest/src/minhash.rs:107-110 | characters are kept one by one and in order, wherever the token is cut |
| `Primes.AffineIsPermutation` | apps/augury-ingest/src/minhash.rs:165-195 | modulo a prime every x -> a*x+b with 1 <= a < p permutes the residues |
| `Mersenne.MersenneIsPrime` | apps/augury-ingest/src/minhash.rs:26-29 | 2^61 - 1, the modulus of the hash family, is prime |
| `MinHash.NewMinHasher` | apps/augury-ingest/src/minhash.rs:165-195 | the splitmix counter loop draws coefficient i from counter states 2i and 2i+1, with a in [1,p) and b in [0,p) |
| `MinHash.CounterStep` | apps/augury-ingest/src/minhash.rs:175-178 | adding the constant k times with 64-bit wrap-around is the k-th counter state |
| `MinHash.MinImage` | apps/augury-ingest/src/minhash.rs:214-244 | a signature entry is attained by some shingle hash, and no shingle hash of the document maps below it |
| `MinHash.SketchOfUnion` | apps/augury-ingest/src/minhash.rs:214-244 | the sketch of two hash sets together is the pointwise minimum of their sketches |
| `MinHash.SignatureIsOfTheShingleSet` | apps/augury-ingest/src/minhash.rs:214-244 | texts with the same set of shingles have the same signature, whatever order or multiplicity |
| `MinHash.AgreementSharesAHash` | apps/augury-ingest/src/minhash.rs:214-244 | equal entries mean both documents contain the very hash that realises the minimum, strictly below all others |
| `MinHash.DisjointDocumentsAreDissimilar` | apps/augury-ingest/src/minhash.rs:214-287 | documents with no shingle hash in common have similarity 0 |
| `MinHash.NoOverflow` | apps/augury-ingest/src/minhash.rs:214-244 | no product a*h+b leaves u128 and every entry fits a non-negative i64 |
| `MinHash.MinHasher.RowsTimesBands` | apps/augury-ingest/src/minhash.rs:205-207 | rows per band times bands is the signature length |
| `MinHash.BandingCompleteness` | apps/augury-ingest/src/minhash.rs:254-268 | signatures that differ in fewer positions than there are bands share a bucket key |
| `MinHash.OneDisagreementPerBandHides` | apps/augury-ingest/src/minhash.rs:254-268 | the bound is tight: with a disagreement in every band, a key is shared if and only if the hash of some band collides on the two |
| `DuplicateDetector.Detector.constructor` | apps/augury-ingest/src/minhash.rs:340-355 | an empty detector is valid and has no history |
| `DuplicateDetector.Detector.EvictFront` | apps/augury-ingest/src/minhash.rs:455-468 | drops exactly the oldest entry and keeps the index the exact inverse of the window |
| `DuplicateDetector.Detector.Remember` | apps/augury-ingest/src/minhash.rs:428-445 | appends the arrival, evicting first when full, and keeps the index exact |
| `DuplicateDetector.Detector.Check` | apps/augury-ingest/src/minhash.rs:382-448 | in every reachable state the verdict is that of a linear scan of the last capacity signature-bearing posts: entries sharing a key, similarity >= threshold, highest score, earliest on ties; what the score counts is SimilarityCounts.VerdictCountsMatches |
| `DuplicateDetector.Detector.IndexIsExact` | apps/augury-ingest/src/minhash.rs:382-475 | the index holds exactly the live entries under their keys, in arrival order, with no empty list and at most capacity*bands keys |
| `DuplicateDetector.Collect` | apps/augury-ingest/src/minhash.rs:387-399 | gathering, sorting and deduplicating postings yields each live candidate once, in arrival order; both guards on stale numbers are dead |
| `DuplicateDetector.BestOf` | apps/augury-ingest/src/minhash.rs:401-426 | the running best over candidates is the scan of the whole window |
| `DuplicateDetector.Unlink` | apps/augury-ingest/src/minhash.rs:455-468 | removing one arrival from its buckets leaves the index of the remaining window, without empty lists |
| `DuplicateDetector.File` | apps/augury-ingest/src/minhash.rs:435-445 | filing one arrival gives the index of the extended window |
| `DuplicateDetector.SortDedup` | apps/augury-ingest/src/minhash.rs:398-399 | sort then dedup: strictly ascending with the same members |
| `DuplicateDetector.IndexedFindsTheExhaustiveBest` | apps/augury-ingest/src/minhash.rs:254-287 | whenever the exhaustive best match has at least H-bands+1 agreements, the indexed verdict is the exhaustive one |
| `DuplicateDetector.BandingNeverInvents` | apps/augury-ingest/src/minhash.rs:387-426 | an indexed duplicate is an exhaustive duplicate of at least that similarity |
| `DuplicateDetector.RepeatIsCaught` | apps/augury-ingest/src/minhash.rs:382-448 | a text whose signature is in the window is a similarity-1 duplicate of the earliest such entry |
| `DuplicateDetector.PerfectExactlyForRepeats` | apps/augury-ingest/src/minhash.rs:382-448 | a text is a duplicate of similarity 1 if and only if its signature is in the window |
| `DuplicateDetector.RepeatWithinCapacity` | apps/augury-ingest/src/minhash.rs:382-448 | any repeat within capacity remembered posts is a similarity-1 duplicate of the earliest entry with its signature, whatever came between |
| `DuplicateDetector.RepeatUpToLinksAndTags` | apps/augury-ingest/src/minhash.rs:90-142 | so is a text that repeats an earlier one but for its URL/@/$/# tokens, wherever they stand |
| `DuplicateDetector.LinksAndTagsKeepTheSignature` | apps/augury-ingest/src/minhash.rs:90-142 | texts that differ only by URL/@/$/# tokens, anywhere, have the same signature |
| `DuplicateDetector.WindowOverRuns` | apps/augury-ingest/src/minhash.rs:428-445 | after any run of arrivals, evicting the oldest when full, the window is the last min(n, capacity) signature-bearing posts |
| `SimilarityCounts.SimilarityIsTheShareOfMatches` | apps/augury-ingest/src/minhash.rs:277-287 | similarity times the signature length is the number of positions in which the signatures agree; 0 for unequal lengths |
| `SimilarityCounts.VerdictCountsMatches` | apps/augury-ingest/src/minhash.rs:382-448 | the verdict is a duplicate if and only if some window entry shares a key and agrees in at least threshold * H positions; it names the earliest of those that agree in the most, and its similarity times H is that number |
| `SimilarityCounts.EntriesAreTheSubmissions` | apps/augury-ingest/src/minhash.rs:428-445 | each submission with a signature is entered once, under its own id, after those before it; no other entry exists |
| `PostFilter.Filter.ApplyMut` | apps/augury-ingest/src/filter.rs:188-219 | classifies against everything submitted before, records the submission whatever the verdict, attaches the signature, counts once |
| `PostFilter.Filter.ApplyBatch` | apps/augury-ingest/src/filter.rs:225-227 | a batch is the sequence of single applications |
| `PostFilter.StatsAccountForEveryPost` | apps/augury-ingest/src/filter.rs:74-86 | the counters sum to the posts processed and count each verdict |
| `PostFilter.BatchingIsSequential` | apps/augury-ingest/src/filter.rs:225-227 | splitting a batch anywhere changes no verdict |
| `PostFilter.HeuristicsLeaveTheWindowAlone` | apps/augury-ingest/src/filter.rs:188-219 | two filters that differ only in their heuristics agree on every post both let through, whatever either rejected before |
| `PostFilter.RepeatOfRejectedPostIsCaught` | apps/augury-ingest/src/filter.rs:188-219 | a repeat of any post, even a heuristically rejected one, is rejected as a similarity-1 duplicate of the earliest remembered entry like it |
| `SimilarityCounts.AcceptedExactlyWhen` | apps/augury-ingest/src/filter.rs:188-219 | a post no heuristic rejects is accepted if and only if no window entry sharing a key agrees in at least threshold * H positions, and otherwise rejected as the duplicate the verdict names |
| `Transcendental.Math.SigmoidIsLogistic` | apps/augury-engine/src/lmsr.cpp:47-55 | both branches are the one logistic curve, inside (0,1) |
| `Transcendental.Math.SigmoidIncreases` | apps/augury-engine/src/lmsr.cpp:47-55 | strictly increasing |
| `Transcendental.Math.SigmoidOfLogit` | apps/augury-engine/src/lmsr.cpp:57-62 | sigmoid undoes logit up to the probability clamp |
| `Transcendental.Math.LogitOfSigmoid` | apps/augury-engine/src/lmsr.cpp:57-62 | logit undoes sigmoid up to the clamp to the logit band |
| `Transcendental.Math.LogitCompares` | apps/augury-engine/src/lmsr.cpp:57-62 | logits order as the clamped probabilities do |
| `Lmsr.LogSumExp` | apps/augury-engine/src/lmsr.cpp:30-45 | the max-subtracted loop computes ln(sum exp), and throws exactly on an empty vector |
| `Lmsr.Cost` | apps/augury-engine/src/lmsr.cpp:64-73 | b*ln(sum exp(q/b)), rejecting exactly the states the code rejects |
| `Lmsr.Prices` | apps/augury-engine/src/lmsr.cpp:75-99 | the shifted quotients are the softmax prices |
| `Lmsr.TradeCost` | apps/augury-engine/src/lmsr.cpp:107-118 | the price of a trade is the change of the cost function |
| `Lmsr.CostBounds` | apps/augury-engine/src/lmsr.cpp:64-73 | max(q) <= C(q) <= max(q) + b ln K |
| `Lmsr.CostTranslates` | apps/augury-engine/src/lmsr.cpp:64-73 | adding c shares of every outcome costs exactly c |
| `Lmsr.PricesAreADistribution` | apps/augury-engine/src/lmsr.cpp:75-99 | prices are positive and sum to 1 |
| `Lmsr.BinaryPriceIsSigmoid` | apps/augury-engine/src/lmsr.cpp:101-105 | the two-outcome price is sigmoid((q_yes-q_no)/b) |
| `Lmsr.PaymentsTelescope` | apps/augury-engine/src/lmsr.cpp:107-118 | over any trade sequence the payments are the change of cost, so round trips are free |
| `Lmsr.WorstCaseSubsidy` | apps/augury-engine/src/lmsr.cpp:127-135 | from q=0 the maker's loss on any winner never exceeds b ln K |
| `Lmsr.BuyingCostsLessThanFaceValue` | apps/augury-engine/src/lmsr.cpp:107-118 | buying n shares of one outcome costs between 0 and n |
| `MarketNumbers.CostSumsExponentials` | apps/augury-engine/src/lmsr.cpp:64-73 | for two outcomes exp(C/b) = exp(q_yes/b) + exp(q_no/b) |
| `MarketNumbers.PriceIsTheExponentialShare` | apps/augury-engine/src/lmsr.cpp:101-105 | the YES price p has p * exp(q_no/b) = (1-p) * exp(q_yes/b) |
| `BinaryMarket.LmsrMarket.constructor` | apps/augury-engine/src/lmsr.cpp:184-188 | opens with the given state and no realised cost |
| `BinaryMarket.LmsrMarket.BuyYes` | apps/augury-engine/src/lmsr.cpp:197-209 | the new state, the cost difference paid, and its accumulation |
| `BinaryMarket.LmsrMarket.MoveToPrice` | apps/augury-engine/src/lmsr.cpp:211-216 | whole new state and payment of a move |
| `BinaryMarket.LmsrMarket.Recalibrate` | apps/augury-engine/src/lmsr.cpp:218-230 | whole new state; rejected exactly for non-positive b, changing nothing |
| `BinaryMarket.LmsrMarket.StepFromSignal` | apps/augury-engine/src/lmsr.cpp:232-251 | whole new state, shares and payment of a step; rejected exactly for bad arguments, changing nothing |
| `BinaryMarket.RecalibrationKeepsThePrice` | apps/augury-engine/src/lmsr.cpp:218-230 | recalibration preserves (q_yes-q_no)/b |
| `BinaryMarket.MoveLands` | apps/augury-engine/src/lmsr.cpp:211-216 | a move reaches its clamped target if and only if the market was inside the logit band |
| `BinaryMarket.StepMovesTheLogit` | apps/augury-engine/src/lmsr.cpp:232-251 | what an uncapped step does to the log-odds, clamp included |
| `BinaryMarket.StepContracts` | apps/augury-engine/src/lmsr.cpp:232-251 | an uncapped step multiplies the logit gap by exactly 1-r if and only if the market was inside the band |
| `BinaryMarket.StepNeverOvershoots` | apps/augury-engine/src/lmsr.cpp:232-251 | a capped step neither passes the target nor exceeds the cap, and is the uncapped one when that fits |
| `MarketNumbers.CappedStepIsNearest` | apps/augury-engine/src/lmsr.cpp:239-248 | a capped step trades the share count nearest to the uncapped one that the cap allows, so the whole cap in its direction when it does not fit; NO shares and b are left alone |
| `MarketNumbers.RecalibrationScalesTheImbalance` | apps/augury-engine/src/lmsr.cpp:218-230 | recalibrating leaves no NO shares and scales q_yes - q_no by newB/b |
| `BinaryMarket.RunKeepsTheBand` | apps/augury-engine/src/lmsr.cpp:197-251 | the band is an invariant of every run of moves, steps and recalibrations |
| `BinaryMarket.RunContracts` | apps/augury-engine/src/lmsr.cpp:211-251 | uncapped steps to one target, each with its own r and with any recalibrations between, leave the product of the (1-r) of the gap |
| `BinaryMarket.RemainingIsGeometric` | apps/augury-engine/src/lmsr.cpp:232-251 | at one r that product is (1-r)^n |
| `BinaryMarket.DecayIsGeometric` | apps/augury-engine/src/lmsr.cpp:232-251 | a gap kept to the fraction 1-r n times over is the gap times (1-r)^n |
| `BinaryMarket.RunNeverOvershoots` | apps/augury-engine/src/lmsr.cpp:232-251 | however capped or mixed, a run to one target never passes it nor backs off |
| `BinaryMarket.RunFollowsLogitRun` | apps/augury-engine/src/lmsr.cpp:211-251 | every uncapped run is a recursion in log-odds from which b has disappeared |
| `BinaryMarket.PriceIsIndependentOfLiquidity` | apps/augury-engine/src/lmsr.cpp:211-251 | two markets of any liquidity, recalibrated at will, that make the same uncapped moves end at one price |
| `MakerLoss.PaymentsTelescopeOverRuns` | apps/augury-engine/src/lmsr.cpp:197-251 | at fixed b everything paid is the change of cost over the whole run, purchases, moves and steps alike |
| `MakerLoss.RunLossIsBounded` | apps/augury-engine/src/lmsr.cpp:127-135 | opened at zero and never recalibrated, the maker's loss on either outcome is at most b ln 2 |
| `MakerLoss.ExposureStep` | apps/augury-engine/src/lmsr.cpp:197-251 | trades leave the exposure (cost less payments) alone; recalibrating at log-odds x changes it by (newB-b) ln(1+e^x), so downwards it shrinks |
| `MakerLoss.ExposureFalls` | apps/augury-engine/src/lmsr.cpp:197-251 | on every run that never raises b the exposure stays within the opening b ln 2 |
| `MakerLoss.OpeningSubsidyCoversExactlyWhen` | apps/augury-engine/src/lmsr.cpp:127-135 | for any sequence of recalibrations: every run that makes them, whatever it trades in between, loses at most the opening b ln 2 if and only if none of them raises b |
| `MakerLoss.CurrentSubsidyCoversExactlyWhen` | apps/augury-engine/src/lmsr.cpp:127-135 | every such run loses at most b ln 2 at the b it ends with if and only if no recalibration changes b |
| `MakerLoss.OnePurchaseTells` | apps/augury-engine/src/lmsr.cpp:197-230 | one purchase and one recalibration tell already: they stay within newB ln 2 for every purchase if and only if newB = b |
| `SignalLoss.SignalsStayWithinExactlyWhen` | apps/augury-engine/src/lmsr.cpp:127-135 | for any sequence of recalibrations: runs that only move, step and make them stay within a bound if and only if it is at least b ln 2 + drift - last b * ln(1+e^-band), which some run loses |
| `SignalLoss.OpeningSubsidyCoversSignalsExactlyWhen` | apps/augury-engine/src/lmsr.cpp:127-135 | they stay within the opening b ln 2 if and only if the drift is at most last b * ln(1+e^-band) |
| `SignalLoss.OneRaiseIsCoveredExactlyWhen` | apps/augury-engine/src/lmsr.cpp:218-230 | with one recalibration: if and only if (newB-b) band <= b ln(1+e^-band) |
| `SignalLoss.CurrentSubsidyCoversOneExactlyWhen` | apps/augury-engine/src/lmsr.cpp:127-135 | they stay within newB ln 2 if and only if b moved little enough, with the exact bound upwards and downwards |
| `SignalLoss.RecalibrationVoidsTheBound` | apps/augury-engine/src/lmsr.cpp:211-230 | on a concrete run: moving to the ceiling and doubling b owes more than b ln 2 at the new b |
| `DepthCalibration.CalibrationIsPositive` | apps/augury-engine/src/lmsr.cpp:137-182 | the fitted b is positive, and within [1, 1e6] unless it is the fallback; only a bad fallback throws |
| `DepthCalibration.WidthIsPositive` | apps/augury-engine/src/lmsr.cpp:147-157 | an in-range quote has positive logit width if and only if the clamp leaves both ends apart |
| `DepthCalibration.WalkingTheQuotesTakesTheDepth` | apps/augury-engine/src/lmsr.cpp:137-182 | the defining equation, in every mode: at the b of the engine, walking the price across the quotes takes the mean positive depth, if and only if the quotient needs no clamp |
| `DepthCalibration.ServiceWalkTakesTheDepth` | apps/augury-signal/augury_signal/engine/lmsr.py:126-181 | at the b of the service it takes the mean nonzero depth, on the same condition |
| `MarketNumbers.EngineFitsTheDepth` | apps/augury-engine/src/lmsr.cpp:137-182 | the engine falls back when the quotes have no width or no counted size is positive, and otherwise fits the b in [1, 1e6] at which walking the quotes comes nearest to the mean counted size |
| `MarketNumbers.ServiceFitsTheDepth` | apps/augury-signal/augury_signal/engine/lmsr.py:126-181 | the service does so for the mean of its nonzero sizes, and also falls back when that is not positive |
| `DepthCalibration.ImplementationsAgreeExactlyWhen` | apps/augury-signal/augury_signal/engine/lmsr.py:126-181 | the C++ and Python calibrations agree on every book without one counted size below zero and one above; with such a pair, if and only if the fallback or the clamp hides the difference |
| `DepthCalibration.NegativeDepthDivides` | apps/augury-signal/augury_signal/engine/lmsr.py:168-179 | with a negative size they differ, on a concrete book |
| `Backtest.SimulatePath` | apps/augury-engine/src/backtest.cpp:22-40 | for any b the simulated prices are the b-free path anchored on the first price; what the path shows is BacktestPaths.PathFollowsTheSignals |
| `BacktestPaths.PathFollowsTheSignals` | apps/augury-engine/src/backtest.cpp:18-40 | each observation moves the price from the one before (at first the first market price) towards (signal + 1) / 2 held within the clamp: never past it, and onto it exactly at r = 1 |
| `BacktestPaths.FullPaceTracksTheSignals` | apps/augury-engine/src/backtest.cpp:18-40 | at r = 1 price i is (signal i + 1) / 2, held within the clamp |
| `BacktestPaths.NeutralPullsToOneHalf` | apps/augury-engine/src/backtest.cpp:18-40 | a signal of 0 pulls the price towards one half from either side |
| `BacktestPaths.PathIsMonotone` | apps/augury-engine/src/backtest.cpp:22-40 | for any valid r, raising a signal or the opening price never lowers a price of the path |
| `Backtest.MeanSquaredError` | apps/augury-engine/src/backtest.cpp:42-52 | the loop is the mean of squared errors; lengths must match and be positive |
| `Backtest.ZeroErrorMeansEqual` | apps/augury-engine/src/backtest.cpp:42-52 | the error is non-negative, and zero exactly for equal sequences |
| `Backtest.NothingEarlierIsAsGood` | apps/augury-engine/src/backtest.cpp:143-151 | the fitted responsiveness is a grid minimiser of the training error, strictly better than every earlier candidate |
| `Backtest.SearchB` | apps/augury-engine/src/backtest.cpp:121-131 | the backward loop fits b from the last two-sided quote of the slice, else the fallback |
| `Backtest.SearchGrid` | apps/augury-engine/src/backtest.cpp:133-151 | the search returns the first minimiser and throws exactly when b or a candidate is out of range |
| `Backtest.OriginFits` | apps/augury-engine/src/backtest.cpp:115 | window k is run if and only if it fits |
| `Backtest.WindowCountFormula` | apps/augury-engine/src/backtest.cpp:106-115 | there are floor((n-window)/step)+1 windows |
| `Backtest.OriginFormula` | apps/augury-engine/src/backtest.cpp:115 | window k starts at k*step |
| `Backtest.RunWindow` | apps/augury-engine/src/backtest.cpp:116-181 | one pass of the loop body gives the window result determined by its own slice, or throws exactly when the configuration does |
| `Backtest.WalkForward` | apps/augury-engine/src/backtest.cpp:90-217 | raises exactly on the rejected configurations, and otherwise summarises all windows in order |
| `Backtest.Summarise` | apps/augury-engine/src/backtest.cpp:184-217 | means, counts, extremes and the coefficient of variation of b are those of the windows |
| `WalkSummaries.WindowsReportTheirBlocks` | apps/augury-engine/src/backtest.cpp:115-181 | window k starts at k steps, test after train; its b is that of the last two-sided training book, its pace the first with the least sum of squared training errors, and on the test block both errors are mean squared gaps, of that pace and of the last training price |
| `WalkSummaries.DefaultTestBlocksFollowOn` | apps/augury-engine/src/backtest.cpp:101 | without a step the test blocks adjoin, the first right after the first training block |
| `WalkSummaries.SummaryAverages` | apps/augury-engine/src/backtest.cpp:184-217 | the means are arithmetic means over the windows, and the windows counted are those with strictly less error than their baseline |
| `Correlation.DifferenceCorrelation` | apps/augury-engine/src/backtest.cpp:54-88 | the loops compute the correlation of the first differences, 0 when it is undefined |
| `Correlation.CorrelationIsBounded` | apps/augury-engine/src/backtest.cpp:54-88 | when both series vary it lies in [-1, 1], and is 1 or -1 if and only if the centred differences of one are a positive or negative multiple of those of the other |
| `Correlation.ReportedCorrelationIsBounded` | apps/augury-engine/src/backtest.cpp:54-88 | whatever is compared, the reported value lies in [-1, 1] |
| `Correlation.SelfCorrelation` | apps/augury-engine/src/backtest.cpp:54-88 | a series correlates perfectly with itself, or counts as 0 if and only if it only moves in equal steps |
| `WalkSummaries.CorrelationIsPearson` | apps/augury-engine/src/backtest.cpp:54-88 | the correlation has the sign of the sum of products of centred differences, and its square times both sums of squares is that sum squared; 0 when a series does not vary |
| `Correlation.CoefficientOfVariation` | apps/augury-engine/src/backtest.cpp:207-214 | the loop and the quotient: standard deviation over mean, 0 unless the mean is positive |
| `Correlation.VariationIsZeroForEqualValues` | apps/augury-engine/src/backtest.cpp:207-214 | for a positive mean it is non-negative, and 0 if and only if all values are equal |
| `WalkSummaries.VariationSquares` | apps/augury-engine/src/backtest.cpp:207-214 | times the mean it is the root of the mean squared distance from the mean |
| `Isolation.TestDataDoesNotLeak` | apps/augury-engine/src/backtest.cpp:121-151 | in every window of a walk, b and responsiveness are those fitted to its training slice alone, whatever is tested or comes later |
| `Isolation.WindowsAreLocal` | apps/augury-engine/src/backtest.cpp:115-182 | a window result depends on its own stretch of history alone |
| `Isolation.LaterHistoryOnlyAppends` | apps/augury-engine/src/backtest.cpp:115-182 | more history only appends windows |
| `Isolation.TestBlocksAreDisjoint` | apps/augury-engine/src/backtest.cpp:101-119 | test blocks are pairwise disjoint if and only if the stride is at least the test size |
| `Isolation.BooksOnlyMoveTheReportedB` | apps/augury-engine/src/backtest.cpp:22-40 | books decide the reported b and nothing else: same responsiveness and errors |
| `Timeline.SortSorts` | apps/augury-signal/augury_signal/pipeline/steps.py:281 | the sort is an ascending rearrangement |
| `Timeline.SortIsStable` | apps/augury-signal/augury_signal/pipeline/steps.py:281 | equal timestamps keep their input order |
| `Timeline.BisectRight` | apps/augury-signal/augury_signal/pipeline/steps.py:220-239 | binary search counts what a scan for <= would |
| `Timeline.BisectLeft` | apps/augury-signal/augury_signal/signal/decay.py:250-251 | binary search counts what a scan for < would |
| `Timeline.LatestAt` | apps/augury-signal/augury_signal/pipeline/steps.py:460-472 | the search in the sorted books finds the record a linear scan of the unsorted input would |
| `Timeline.LatestIsScan` | apps/augury-signal/augury_signal/pipeline/steps.py:460-472 | the last record of the sorted past is the scan result, ties included |
| `Timeline.SortUpTo` | apps/augury-signal/augury_signal/pipeline/steps.py:281 | sorting commutes with dropping everything after t |
| `Simulation.SimulateLmsr` | apps/augury-signal/augury_signal/pipeline/steps.py:370-457 | the loop over sorted signals with the mutated market yields the simulated ticks; raises exactly for signals with a responsiveness outside (0,1]; what the ticks show is SimulatedPrices.TicksFollowTheForecasts and the rows after it |
| `Simulation.AdvanceMarket` | apps/augury-signal/augury_signal/pipeline/steps.py:432-455 | one signal: recalibrate to the latest book, step, record |
| `Simulation.Prepare` | apps/augury-signal/augury_signal/pipeline/steps.py:401-425 | opening liquidity and anchor by binary search are those of the scans |
| `SimulatedPrices.TicksFollowTheForecasts` | apps/augury-signal/augury_signal/pipeline/steps.py:432-455 | in time order each signal moves the price from the one before (at first the anchor) towards its p_hat, or (s_t + 1) / 2 without one, held within the clamp: never past it, and onto it exactly at r = 1 |
| `SimulatedPrices.FullPaceShowsTheForecast` | apps/augury-signal/augury_signal/pipeline/steps.py:432-440 | at r = 1 tick n shows p_hat of the n-th signal in time order, or (s_t + 1) / 2 without one, held within the clamp |
| `SimulatedPrices.RaisedForecastsRaisePrices` | apps/augury-signal/augury_signal/pipeline/steps.py:432-455 | for any r, raising a forecast never lowers a price, then or later |
| `SimulatedPrices.BooksAreTheBookRows` | apps/augury-signal/augury_signal/pipeline/steps.py:358-367 | the books are the book rows, all of them |
| `SimulatedPrices.CandlesAreIgnored` | apps/augury-signal/augury_signal/pipeline/steps.py:358-367 | a candle among the price rows changes no tick |
| `SimulatedPrices.AnchorIsGivenOrQuoted` | apps/augury-signal/augury_signal/pipeline/steps.py:423-426 | the anchor is the opening price given, else the middle of the quotes of the last book, its last trade when unquoted, and one half without either |
| `SimulatedPrices.TicksAreQuoted` | apps/augury-signal/augury_signal/pipeline/steps.py:442-455 | each tick carries the time and value of its signal, no NO shares, the YES shares that make its price at its b, and the cost of holding them |
| `SimulatedPrices.TradesMoveThePrice` | apps/augury-signal/augury_signal/pipeline/steps.py:432-455 | the trade size of a tick is b times the change of log-odds from the price before |
| `Lookahead.OnTheLogitPath` | apps/augury-signal/augury_signal/pipeline/steps.py:421-440 | every simulated market stays in the band and follows a path free of books and b |
| `Lookahead.BooksMovePricesThroughTheAnchorOnly` | apps/augury-signal/augury_signal/pipeline/steps.py:413-457 | two book histories give one price at a step if and only if their clamped anchors agree or r = 1 |
| `Lookahead.TicksTrackTheBook` | apps/augury-signal/augury_signal/pipeline/steps.py:432-437 | each tick is sized by the latest book at or before it, else by the opening one |
| `SimulatedPrices.TicksAreSizedByTheirBook` | apps/augury-signal/augury_signal/pipeline/steps.py:401-437 | each tick has the b fitted to the latest book row at or before it, while there is none to the earliest book row of all, and 100 without any |
| `Lookahead.NoLookahead` | apps/augury-signal/augury_signal/pipeline/steps.py:401-457 | given an opening price and a book by t, no signal or book after t reaches a tick at or before it, b and q included |
| `Lookahead.BlindExactlyWhen` | apps/augury-signal/augury_signal/pipeline/steps.py:401-457 | no addition after t reaches past ticks if and only if there are none, or the opening price was given and some book is at or before t |
| `Lookahead.FutureAnchorShows` | apps/augury-signal/augury_signal/pipeline/steps.py:403-428 | without an opening price the last book, however late, moves the first tick |
| `Lookahead.FutureDepthShows` | apps/augury-signal/augury_signal/pipeline/steps.py:418-421 | with no book by t the opening liquidity is that of a future book |
| `Decay.WeightIsReach` | apps/augury-signal/augury_signal/signal/decay.py:43-57 | weights are non-negative, and zero exactly for accounts without followers |
| `ReachAndAge.WeightIsLogAudience` | apps/augury-signal/augury_signal/signal/decay.py:43-57 | exp(w / (1 + engagements)) = 1 + followers |
| `ReachAndAge.EngagementsMultiply` | apps/augury-signal/augury_signal/signal/decay.py:43-57 | the weight at e engagements is 1 + e times that at none |
| `ReachAndAge.WeightIncreases` | apps/augury-signal/augury_signal/signal/decay.py:43-57 | the weight increases strictly in followers, and in engagements once anyone follows |
| `ReachAndAge.WeightNeedsCounts` | apps/augury-signal/augury_signal/signal/decay.py:53-56 | it is refused exactly for negative counts |
| `Decay.LogTerms` | apps/augury-signal/augury_signal/signal/decay.py:101-119 | gathers exactly the in-window posts of positive weight, and raises exactly when one in the window is faulty |
| `Decay.PeakFactorsOut` | apps/augury-signal/augury_signal/signal/decay.py:124-145 | factoring the peak out keeps the ratio and the absolute weight; the denominator is at least 1 and the ratio within [-1,1] |
| `Decay.ComputeSignal` | apps/augury-signal/augury_signal/signal/decay.py:77-165 | the log-space evaluation equals the naive ratio of sums; None and errors exactly where the definition has none; the sums are written out in ReachAndAge.EveryPostPulls |
| `ReachAndAge.EveryPostPulls` | apps/augury-signal/augury_signal/signal/decay.py:98-145 | for any posts with followers in the window, weights and ages written out: S(t) times the total pull is the sum of stances times pulls, the weight sum is the total pull, and every post is counted |
| `ReachAndAge.CountsExactlyWhileFresh` | apps/augury-signal/augury_signal/signal/decay.py:98-109 | a post counts exactly from its own timestamp through max_age after it |
| `ReachAndAge.TwoPostsAverage` | apps/augury-signal/augury_signal/signal/decay.py:98-145 | two posts: S(t) is the mean of their stances by ln(1 + followers) * (1 + engagements) and the decay of their ages |
| `ReachAndAge.SameInstantAveragesByReach` | apps/augury-signal/augury_signal/signal/decay.py:98-145 | two posts of one instant: S(t) = (s1 w1 + s2 w2) / (w1 + w2) with those weights written out |
| `SignalLaws.SignalIsAMean` | apps/augury-signal/augury_signal/signal/decay.py:124-137 | S(t) lies between the least and greatest contributing stance, and touches one only when unanimous |
| `SignalLaws.SignalIgnoresOrder` | apps/augury-signal/augury_signal/signal/decay.py:101-137 | posts may arrive in any order |
| `SignalLaws.AgeingKeepsTheSignal` | apps/augury-signal/augury_signal/signal/decay.py:98-145 | while the same posts are in the window, time leaves S(t) alone and decays the weight by exactly exp(-rate*elapsed) |
| `SignalLaws.HalfLifeHalves` | apps/augury-signal/augury_signal/signal/decay.py:36-40 | one half-life on, half the weight is left |
| `ReachAndAge.HalfLifeHalvesTheFade` | apps/augury-signal/augury_signal/signal/decay.py:36-40 | in timestamps: an age greater by one half-life leaves half as much |
| `ReachAndAge.HalfLifeHalvesTheWeight` | apps/augury-signal/augury_signal/signal/decay.py:98-145 | evaluated one half-life later, a lone post has half the weight sum |
| `Adaptive.QuietKeepsTheBase` | apps/augury-signal/augury_signal/signal/decay.py:194-223 | the half-life stays between floor and base; exactly when it equals the base |
| `Adaptive.MoreNewsDecaysFaster` | apps/augury-signal/augury_signal/signal/decay.py:206-223 | a busier hour, a calmer baseline or a larger move never lengthens the half-life |
| `SurgeLaws.LeastFactorDivides` | apps/augury-signal/augury_signal/signal/decay.py:198-223 | the half-life is the base over the least factor, at least 1, that brings both the posts and the price move down to their triggers, and at least the floor |
| `Adaptive.FillBuckets` | apps/augury-signal/augury_signal/signal/decay.py:248-258 | the bucket loop counts each hour, the last one closed at its end |
| `Adaptive.WindowOf` | apps/augury-signal/augury_signal/signal/decay.py:247-253 | slicing by two searches and filtering by a scan keep the same hourly counts |
| `Adaptive.BaselineHourlyRate` | apps/augury-signal/augury_signal/signal/decay.py:226-264 | the sorted fast path and the full scan compute the same median; raises exactly for a non-positive lookback |
| `Adaptive.BucketsCoverTheWindow` | apps/augury-signal/augury_signal/signal/decay.py:247-258 | the hourly counts add up to the posts of the closed window |
| `Adaptive.BurstsDoNotRaiseTheBaseline` | apps/augury-signal/augury_signal/signal/decay.py:226-264 | while more than half the hours stay at q or below, no burst raises the median past q; and the reverse |
| `Adaptive.BaselineIgnoresOrder` | apps/augury-signal/augury_signal/signal/decay.py:226-264 | the rate does not depend on the order of the posts |
| `SurgeLaws.BaselineIsTheMedianHour` | apps/augury-signal/augury_signal/signal/decay.py:226-264 | the rate is halfway between the two middle hourly counts, one for an odd number of hours, each hour the set of posts in it |
| `SignalSeries.BarHalfLife` | apps/augury-signal/augury_signal/pipeline/steps.py:296-316 | counts by binary search and price lookups give the half-life of the full scans |
| `SignalSeries.BarReading` | apps/augury-signal/augury_signal/pipeline/steps.py:318-329 | the slice between two binary searches gives the signal of the whole unsorted corpus |
| `SurgeLaws.BarHalfLifeOf` | apps/augury-signal/augury_signal/pipeline/steps.py:295-316 | the half-life of a bar comes from the posts after the previous bar up to it, the median hour of its last 24, and the change of price over the step, 0 when either end is unknown |
| `SignalSeries.BuildSignalSeries` | apps/augury-signal/augury_signal/pipeline/steps.py:242-350 | the cursor loop over sorted data computes, bar by bar, the naive series over the unsorted corpus, and raises exactly when that does; where its points stand and what they read is HourlyBars.PointsAreOnTheHour and the rows after it |
| `Causality.SeriesIsCausal` | apps/augury-signal/augury_signal/pipeline/steps.py:242-350 | posts, stances and prices later than t, and a later clock, change nothing the build does up to t, points or error; a build that succeeds has exactly those points |
| `Causality.PointsExactlyWhereSomeoneSpoke` | apps/augury-signal/augury_signal/pipeline/steps.py:292-350 | points come in time order, and a bar has one if and only if some weighty post of the last seven days stands behind it |
| `HourlyBars.FirstBarIsOnTheHour` | apps/augury-signal/augury_signal/pipeline/steps.py:293 | the first bar b is on a whole hour, with b - step <= earliest post < b - step + 1 hour |
| `HourlyBars.PointsAreOnTheHour` | apps/augury-signal/augury_signal/pipeline/steps.py:276-293 | every point stands on a whole hour, a positive whole number of steps past the hour of the earliest post, and not past the last post or the clock, whichever is later |
| `HourlyBars.BarsWithPostsHavePoints` | apps/augury-signal/augury_signal/pipeline/steps.py:292-332 | such a time has a point if and only if a weighty post of the week before it stands behind it |
| `HourlyBars.PointsAreReadings` | apps/augury-signal/augury_signal/pipeline/steps.py:318-348 | a point is the signal over the whole corpus and the last week, at its half-life, and its p_hat the mapped signal |
| `HourlyBars.StanceIsTheLastRow` | apps/augury-signal/augury_signal/pipeline/steps.py:263 | a post has the stance of the last row with its id and time |
| `HourlyBars.UnscoredPostsAreIgnored` | apps/augury-signal/augury_signal/pipeline/steps.py:264-273 | a post that is not accepted, or has no stance, can be removed without changing the series |
| `HourlyBars.ScoredPostsCount` | apps/augury-signal/augury_signal/pipeline/steps.py:264-273 | any other counts, with that stance and its own reach and time |
| `HourlyBars.RecentPosts` | apps/augury-signal/augury_signal/pipeline/steps.py:297-301 | the recent count is of the posts after the previous bar, up to this one |
| `HourlyBars.PriceIsFresh` | apps/augury-signal/augury_signal/pipeline/steps.py:220-239 | a price is known while the latest tick is at most an hour old: the middle of its quotes, or its last trade |
| `Causality.ContributionsUpTo` | apps/augury-signal/augury_signal/pipeline/steps.py:263-273 | joining posts with stances commutes with dropping the future |
| `Calibration.MappedProbabilitiesAreOrdered` | apps/augury-signal/augury_signal/signal/calibration.py:77-93 | mapped probabilities are in [0,1] and strictly ordered as the signals, for the affine map and any positive slope |
| `MarketNumbers.MappingsInvert` | apps/augury-signal/augury_signal/signal/calibration.py:77-93 | the affine map is undone by 2p - 1, the odds of the logistic one are exp(a + b s); exactly which inputs are refused |
| `PlattFit.DeterminantIsPairSum` | apps/augury-signal/augury_signal/signal/calibration.py:169-173 | for any length the Hessian determinant is the sum over pairs of w_i w_j (s_i-s_j)^2 |
| `PlattFit.SingularExactlyWhenSignalsCoincide` | apps/augury-signal/augury_signal/signal/calibration.py:169-177 | non-negative, and zero if and only if all signals coincide |
| `PlattFit.StepSolvesTheSystem` | apps/augury-signal/augury_signal/signal/calibration.py:173-180 | the computed step solves H*step = gradient |
| `PlattFit.StepDescends` | apps/augury-signal/augury_signal/signal/calibration.py:179-182 | the step goes downhill and is zero only where the gradient is |
| `PlattFit.IterationMakesProgress` | apps/augury-signal/augury_signal/signal/calibration.py:162-185 | an iteration that runs has distinct signals, solves its system, descends, and stays put only at a stationary point |
| `PlattFit.FitPlatt` | apps/augury-signal/augury_signal/signal/calibration.py:101-193 | validation, iteration and loss: fits exactly the accepted inputs with the specified Newton iterates |
| `FitNumbers.TargetsAreSmoothed` | apps/augury-signal/augury_signal/signal/calibration.py:152-156 | targets times (N + 2) are N + 1 for a positive and 1 for a negative, N being the size of its class |
| `FitNumbers.FitIsARun` | apps/augury-signal/augury_signal/signal/calibration.py:158-185 | the parameters end a run from (0, 2) in which every step solves the two sums over the observations, with forecasts, residuals and p(1-p) weights written out; none but the last step is within tol, and it ends there, on a determinant below 1e-12, or out of iterations |
| `FitNumbers.LossIsLikelihood` | apps/augury-signal/augury_signal/signal/calibration.py:187-191 | exp(-n * loss) is the probability the forecasts gave to the outcomes |
| `PlattFit.StationaryForecastsAgree` | apps/augury-signal/augury_signal/signal/calibration.py:162-185 | any two pairs of parameters with one gradient, in particular any two stationary ones, forecast every signal alike |
| `PlattFit.StationaryPointIsUnique` | apps/augury-signal/augury_signal/signal/calibration.py:162-185 | and are equal once two different signals are forecast inside the clip |
| `PlattFit.PastTheClipNothingFits` | apps/augury-signal/augury_signal/signal/calibration.py:119-127 | against targets no clipped forecast reaches, separable data has no stationary point |
| `PlattFit.RawLabelsHaveNoFit` | apps/augury-signal/augury_signal/signal/calibration.py:119-127 | against raw labels separable data has no stationary point at all |
| `PlattFit.TargetsAreInterior` | apps/augury-signal/augury_signal/signal/calibration.py:152-156 | smoothed labels stay strictly inside (0,1), positives at or above one half, negatives at or below |
| `PlattBound.StationaryPointIsBounded` | apps/augury-signal/augury_signal/signal/calibration.py:119-129 | against targets at least 2d inside the clip, the mean absolute log-odds at any stationary point are at most (1+d)/d times the log-odds d inside the clip |
| `PlattBound.LabelsAreInsideExactlyWhen` | apps/augury-signal/augury_signal/signal/calibration.py:152-156 | the smoothed labels lie strictly inside the clip if and only if both classes are smaller than 999998 |
| `PlattBound.SmoothingBoundsTheFit` | apps/augury-signal/augury_signal/signal/calibration.py:119-129 | smoothing bounds the solution: for such classes every stationary point has mean absolute log-odds within a bound that depends on the class sizes alone |
| `PlattBound.ReachBoundsTheSlope` | apps/augury-signal/augury_signal/signal/calibration.py:119-129 | so is the slope, by any two signals |
| `PlattBound.LargeClassesHaveNoFit` | apps/augury-signal/augury_signal/signal/calibration.py:119-156 | with both classes larger than that, separable data has no stationary point again |
| `ReadBudget.Budget.Reserve` | apps/augury-ingest/src/budget.rs:86-129 | atomic conditional upsert: adds the request if and only if the day stays within the limit, else changes nothing |
| `ReadBudget.Budget.ReleaseUnused` | apps/augury-ingest/src/budget.rs:136-157 | refunds the unused part to the current day's row, never below zero, never creating a row |
| `ReadBudget.Budget.Remaining` | apps/augury-ingest/src/budget.rs:76-78 | the reported headroom is exactly what a reservation may take |
| `ReadBudget.Search` | apps/augury-ingest/src/x_client.rs:270-314 | uncontended: a page answered the same day costs its posts, a failure its whole reservation, a refusal nothing |
| `BudgetNumbers.PagesAreServed` | apps/augury-ingest/src/x_client.rs:278 | a search asks for the nearest page size from 10 to 100 |
| `BudgetNumbers.ReservationInNumbers` | apps/augury-ingest/src/budget.rs:86-129 | a reservation is taken if and only if today's row can rise by it without passing the limit; else nothing changes |
| `BudgetNumbers.AnsweredSearchCosts` | apps/augury-ingest/src/x_client.rs:270-314 | from any state of other requests, a search answered the same day costs the posts of its page, at most its reservation |
| `BudgetNumbers.FailedSearchCosts` | apps/augury-ingest/src/x_client.rs:270-314 | a failed one costs its whole reservation |
| `BudgetNumbers.LateAnswerRefundsToday` | apps/augury-ingest/src/budget.rs:136-157 | an answer on a later day takes its refund off that day's row, never below zero, and leaves its own row standing |
| `ReadBudget.CeilingHolds` | apps/augury-ingest/src/budget.rs:86-157 | under every interleaving of callers and rollovers each row stays in [0, limit] |
| `ReadBudget.ServicesAreIndependent` | apps/augury-ingest/src/budget.rs:97-104 | one service's run never touches another's rows |
| `ReadBudget.RowsReconcile` | apps/augury-ingest/src/budget.rs:86-157 | on every run each row is its reservations less the refunds it received |
| `ReadBudget.CleanNeverClamps` | apps/augury-ingest/src/budget.rs:142-149 | without a midnight crossing GREATEST(0, ..) has nothing to clamp |
| `ReadBudget.ConservedExactlyWhenClean` | apps/augury-ingest/src/x_client.rs:278-314 | every row equals outstanding + failed + used after every step if and only if no response overruns its reservation and none with a refund crosses midnight |
| `MeteredReads.MeteredExactly` | apps/augury-ingest/src/x_client.rs:278-314 | on every run, for every day: metered reads = row + refunds from other days - outstanding - left unspent |
| `MeteredReads.MeteredReadsStayWithinTheLimit` | apps/augury-ingest/src/x_client.rs:278-314 | on every run within its reservations the reads metered for a day exceed the limit by no more than the refunds its row received from other days |
| `MeteredReads.FreedRoomIsUsable` | apps/augury-ingest/src/x_client.rs:278-314 | from any reachable state the day can go on to meter the limit plus those refunds, less what its own requests left unspent |
| `MeteredReads.OverspendableExactlyWhen` | apps/augury-ingest/src/x_client.rs:278-314 | a day can be overspent without a further such refund if and only if they exceed what was left unspent |
| `MeteredReads.CleanRunsStayWithinTheLimit` | apps/augury-ingest/src/x_client.rs:278-314 | on clean runs the reads metered for a day never exceed the limit |
| `MeteredReads.StraddlingRefundOverspends` | apps/augury-ingest/src/budget.rs:136-157 | for any limit and any refund up to it, a run meters limit + refund reads on one day |
| `PaperLedger.TargetFollowsTheEdge` | apps/augury-api/src/main/java/com/augury/api/service/PaperTradingService.java:64-72 | long above the market, short below, flat within the minimum edge, never past the cap, full at full disagreement |
| `PaperLedger.Ledger.RecordFill` | apps/augury-api/src/main/java/com/augury/api/repository/AuguryRepository.java:328-339 | appends to the ledger |
| `PaperLedger.Ledger.ApplyToPosition` | apps/augury-api/src/main/java/com/augury/api/repository/AuguryRepository.java:342-357 | additive upsert: deltas accumulate and settled stays settled |
| `PaperLedger.Ledger.Rebalance` | apps/augury-api/src/main/java/com/augury/api/service/PaperTradingService.java:79-113 | the trade and the whole new books; nothing without a forecast, without a mark, or for a sliver |
| `PaperLedger.Ledger.SettlePosition` | apps/augury-signal/augury_signal/pipeline/steps.py:586-631 | the payout and the whole new books; nothing for an absent, settled or empty position |
| `LedgerNumbers.SignalInNumbers` | apps/augury-api/src/main/java/com/augury/api/service/PaperTradingService.java:64-113 | a signal takes the position to edge * cap, held within the cap, or to 0 below five points of edge, paying the mark for every share in one fill that says so; within 1e-9, and without forecast or mark, nothing happens |
| `LedgerNumbers.SettlementInNumbers` | apps/augury-signal/augury_signal/pipeline/steps.py:586-631 | a resolution pays outcome on YES and 1 - outcome on NO in one fill a side, books the payout as cash and as realized, and closes the row; a settled or empty row is left alone |
| `LedgerNumbers.PairsPayOne` | apps/augury-signal/augury_signal/pipeline/steps.py:603-620 | whatever the outcome, a YES and a NO share together pay 1 |
| `PaperLedger.DecisionsAreCapped` | apps/augury-api/src/main/java/com/augury/api/service/PaperTradingService.java:64-72 | every decision has its target within the cap |
| `PaperLedger.RowsHoldTheTarget` | apps/augury-api/src/main/java/com/augury/api/service/PaperTradingService.java:79-113 | on every run the upserted row holds the last target reached, in YES shares, or nothing once settled |
| `PaperLedger.PositionsStayBounded` | apps/augury-api/src/main/java/com/augury/api/service/PaperTradingService.java:64-113 | on every run of capped decisions and settlements abs(net) <= cap and qty_no = 0 |
| `PaperLedger.CashIsTheLedger` | apps/augury-api/src/main/java/com/augury/api/repository/AuguryRepository.java:328-357 | on every run cash is the sum of the fill cash flows, settlements included |
| `PaperLedger.LedgerReplaysToThePosition` | docker/migrations/003_ledger_and_scores.sql:7-11 | replaying the fills gives the materialised position on every run: buys add and sells subtract YES shares whatever the side column says, a settlement closes |
| `LedgerSides.ReplayBySideAgreesExactlyWhen` | docker/migrations/003_ledger_and_scores.sql:7-20 | replaying by the side column as well gives the position if and only if nothing was ever sold; otherwise it differs by what was sold since the last settlement, and the NO leg by all that was ever sold |
| `PaperLedger.FillsArePositive` | docker/migrations/003_ledger_and_scores.sql:19 | the ledger check quantity > 0 never trips |
| `PaperLedger.WealthIsGains` | apps/augury-api/src/main/java/com/augury/api/service/PaperTradingService.java:90-110 | on every run cash + net*mark is the sum of what was held times each mark change |
| `PaperLedger.SettlementRealizesEverything` | apps/augury-signal/augury_signal/pipeline/steps.py:586-631 | settlement leaves the position flat with all profit in cash, the outcome being the last mark |
| `PaperLedger.SettlingAShortCosts` | docker/migrations/003_ledger_and_scores.sql:21-22 | a settlement fill takes money out if and only if a short is held and the outcome pays |
| `PaperLedger.SecondSettlementChangesNothing` | apps/augury-signal/augury_signal/pipeline/steps.py:591-599 | a second settlement changes nothing |
| `PaperLedger.OpenTotalIsTheProfit` | apps/augury-api/src/main/java/com/augury/api/service/PaperTradingService.java:116-130 | while a position is open its marked total is the profit of the run |
| `PaperLedger.Portfolio` | apps/augury-api/src/main/java/com/augury/api/service/PaperTradingService.java:133-150 | the loop sums realized and unrealized profit over the listed rows |
| `PaperLedger.PortfolioIsOpenGains` | apps/augury-api/src/main/java/com/augury/api/service/PaperTradingService.java:133-150 | on every run the portfolio reports realized 0 and, as unrealized, the run profit of its open positions at the present quotes |
| `PaperLedger.SettledStaysUnlisted` | apps/augury-api/src/main/java/com/augury/api/repository/AuguryRepository.java:298-305 | once settled a row is never listed again, whatever is traded later |
| `PaperLedger.SettledTotalCountsThePayoutTwice` | apps/augury-api/src/main/java/com/augury/api/service/PaperTradingService.java:116-130 | once settled the total exceeds the profit by the payout, so it is right if and only if the outcome paid nothing |
| `PaperSettlement.SettlementClosesExactlyWhen` | apps/augury-signal/augury_signal/pipeline/steps.py:586-631 | on every run a settlement leaves the position flat if and only if it is not settled yet, or flat already |
| `PaperSettlement.LaterSettlementClosesExactlyWhen` | apps/augury-api/src/main/java/com/augury/api/service/PaperTradingService.java:79-113 | after a first settlement a later one leaves the position flat if and only if the last signal in between asked for none |
| `PaperSettlement.DecisionsAreCoarse` | apps/augury-api/src/main/java/com/augury/api/service/PaperTradingService.java:64-72 | a decision asks for no position exactly within the minimum edge, and otherwise for more than a sliver |
| `PaperSettlement.TradingAfterSettlementStrands` | apps/augury-api/src/main/java/com/augury/api/service/PaperTradingService.java:79-113 | a signal after settlement opens a position that no number of settlements closes |
| `PaperSettlement.StrandedRun` | apps/augury-signal/augury_signal/pipeline/steps.py:591-599 | and such a run exists: open, settle, reopen, settle again |
| `LedgerRaces.CashReconciles` | apps/augury-api/src/main/java/com/augury/api/repository/AuguryRepository.java:328-357 | however the statements of concurrent calls interleave, the cash of a row is the sum of its fills less what calls under way have recorded and not posted; exactly the sum when none is |
| `LedgerRaces.SerialisedCallsKeepTheCap` | apps/augury-api/src/main/java/com/augury/api/service/PaperTradingService.java:79-113 | while no two calls on a row overlap it stays within the cap at every statement, whatever else runs beside them |
| `LedgerOverlaps.InTurnIsSequential` | apps/augury-api/src/main/java/com/augury/api/service/PaperTradingService.java:79-113 | calls run one after the other leave exactly the books of the sequential model |
| `LedgerOverlaps.OverlapOvershoots` | apps/augury-api/src/main/java/com/augury/api/service/PaperTradingService.java:79-113 | two rebalances to one target that both read before either writes land at twice the target less what was held |
| `LedgerOverlaps.OverlapHasNoBound` | apps/augury-api/src/main/java/com/augury/api/service/PaperTradingService.java:79-113 | pairs of such overlapping calls carry the position past any bound, though every decision is capped |
| `LedgerOverlaps.OverlapSettlesTwice` | apps/augury-signal/augury_signal/pipeline/steps.py:591-629 | two overlapping settlements pay twice and leave the position reversed |
| `GridAlign.FrameHoldsLast` | apps/augury-analytics/R/leadlag.R:124-129 | stable sort and keep-last leave each bar its last listed value |
| `GridAlign.FramesAreKeyed` | apps/augury-analytics/R/leadlag.R:124-129 | each bar is one frame row, so the joins neither repeat nor drop grid bars |
| `GridAlign.CarryForward` | apps/augury-analytics/R/leadlag.R:170-185 | the loop fills each cell with the nearest value at most limit cells back |
| `GridAlign.AlignOnGrid` | apps/augury-analytics/R/leadlag.R:97-163 | frames, grid, joins, fills and filter give the bar-by-bar alignment |
| `GridAlign.AlignmentIsExact` | apps/augury-analytics/R/leadlag.R:97-163 | rows run in time order; a row exists at a bar if and only if both series have an observed bar within the last limit bars and the grid has not ended, with the nearest bar's values |
| `GridTimes.AlignmentInTime` | apps/augury-analytics/R/leadlag.R:97-163 | in timestamps: a row stands at bar * step if and only if each series has its value there as the last one listed in an interval of one step at most limit steps back, with nothing observed since, and one of them is still observed from there on |
| `GridAlign.AlignmentShifts` | apps/augury-analytics/R/leadlag.R:112-121 | inputs a whole number of bars later give the same rows, that much later |
| `GridAlign.KeptIsLatestExactlyWhen` | apps/augury-analytics/R/leadlag.R:123-129 | the kept value of a bar is a latest one, whatever the values, if and only if the last observation listed in the bar has the greatest timestamp of the bar |
| `GridAlign.LastListedIsLatest` | apps/augury-analytics/R/leadlag.R:123-129 | in particular when the observations of the bar are listed in time order, as documented |
| `GridAlign.UnsortedInputKeepsTheEarlier` | apps/augury-analytics/R/leadlag.R:123-129 | on other input it need not be, on a concrete pair |

## Left out

- StationaryPointIsUnique: needs two different signals to be forecast strictly inside the clip, since only there do forecasts determine parameters; that Newton's iterates converge is not claimed.
- Detector.constructor: the zero-capacity, threshold and divisibility assertions of the constructors are preconditions, since they abort the process.
- Text.NormalizeText: context-dependent lowercasing (final sigma) and UTF-8 bytes are not modelled; the character model is per character.
- Detector.Check: the 64-bit arrival counter is unbounded here, so its overflow after 2^64 posts is not modelled.
- Budget.Reserve: reads are unbounded integers; a 32-bit overflow inside the SQL addition raises in the database and is not modelled.
- The textual report of a backtest formats the summary.
- `LMSRMarket.history`, market and run identifiers, `computed_at` stamps and log lines are carried data without a role in any property.
- `lsh_retrieval_probability` is a statement about random documents.
- The heuristic reject rules (length, promotion phrases, account age, symbol ratio) are a parameter of the filter: thresholds only.
- The query behind `portfolio()` is a list of keys with the listing's properties; Brier and skill scores are formulas over finished series.
- HTTP clients, message bus, web controllers, configuration, database plumbing, the stance models, the Granger, ADF and VAR tests, and the Python file-based budget are I/O or foreign libraries.
