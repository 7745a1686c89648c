# Verified model of the platform's money, migration, signing, session and routing logic

The project models the code whose mistakes would be silent: amounts and fee totals, the SQL migration
runner, the canonical JSON that signatures are compared by and the one-shot signed GET, the session that all
portal tabs share, and the strings that requests are routed by. Each operation is modelled branch by branch;
loops and state changes are methods over classes or local variables, proved against specification functions,
and the theorems are about those functions, over every input, run or interleaving.

| files | what they hold |
|---|---|
| `Results`, `Text`, `Decimal`, `Rounding`, `Sorting`, `Sums` | shared vocabulary: outcomes, JavaScript string operations, digit strings, rounding modes defined on exact fractions, the stable sort, sums over ledgers |
| `FspiopMoney`, `MoneyText`, `MoneyRounding`, `MoneyTheorems`, `MoneyBounds` | decimal amounts and scaled integers |
| `CatalystFees`, `ExtensionKeys`, `FeeTheorems`, `FeeBounds` | fee validation and the scheme fee |
| `MigrationVersions`, `DbMigration`, `MigrationTheorems`, `MigrationRunners` | the migration runner, alone, crashing, and interleaved |
| `Json`, `CanonicalJson`, `CanonicalTheorems` | the canonical printer as an equality test |
| `SignedGet`, `SignedGetTheorems` | the checks and the nonce of a signed GET |
| `SessionActivity`, `AuthStore`, `AuthRuns`, `AuthTheorems` | the stored session, one tab, many tabs |
| `FspiopUri`, `FspiopUrls`, `UriTheorems`, `PubSubSubjects` | signed resource paths, URL builders, correlation subjects |

Where the code differs from what its comments or its names suggest, the model follows the code and says exactly
when the expectation holds:

- HALF_EVEN at scale 0 takes 0 for the last kept digit, so ties go down; it is half-even on all other amounts
  (`MoneyRounding.HalfEvenExactly`).
- `validate` lets text through that is not a decimal (`MoneyTheorems.AcceptedNonDecimalExample`).
- `toExtensionKey` is not idempotent on every name (`ExtensionKeys.ExtensionKeyIdempotentExactly`).
- Two split keys that normalise alike are both charged (`FeeTheorems.AliasedSplitsCountTwice`;
  `FeeTheorems.SchemeFeeConservation` says by how much).
- The canonical text ignores member order only if `localeCompare` tells the keys of each object apart,
  array indexes aside; it calls some different strings equal (`CanonicalTheorems.OrderBlindExactly`).
- The nonce's ten minutes are exactly twice the five-minute window, so any delay between the date check and the
  reservation admits one replay (`SignedGetTheorems.OneShotExactly`).
- Two sources can share a nonce key, so that one refuses the other's first use
  (`SignedGetTheorems.FirstUseExactly`).
- `FspiopUri` speaks of any base URL; a base without a host, or with a resource name among its path segments,
  changes the signed path (`UriTheorems.BuiltUriIsExtracted`, `UriTheorems.ResourceInBase`).
- A payer id that contains a colon is cut at it when a subject is rewritten (`PubSubSubjects.RewriteAgrees`).
- An id and a sub id run together in a subject, so an answer can reach the waiter for another party
  (`PubSubSubjects.AnswerReachesOnlyItsPartyExactly`).

Reading conventions. The clock is an integer of milliseconds and a parameter of every step that reads it. The
currency table is a map from code to number of decimals. Signature verification, base64url decoding and date
parsing are arbitrary functions; the fee calculator and the success of each SQL text are arbitrary inputs. A
regular expression is a function with a proved meaning. In `AuthRuns` a step is the code between two awaits of
one tab, and the lock is the browser's: one holder at a time, released when its page goes away.

## Model

| member | source | states |
|---|---|---|
| `FspiopMoney.MatchDecimal` | packages/shared/fspiop/component/fspiop-money.ts:136 | the regular expression match: what it returns is a well-formed decimal that prints as the text |
| `MoneyText.MatchPrint` | packages/shared/fspiop/component/fspiop-money.ts:97 | every well-formed decimal text is matched, with its own parts; with the match contract, the printed decimals are exactly the matched texts |
| `FspiopMoney.StripTrailingZeros` | packages/shared/fspiop/component/fspiop-money.ts:106 | `replace(/0+$/)`: the removed tail is all zeros and the rest does not end in one |
| `MoneyText.NormalizeDecimal` | packages/shared/fspiop/component/fspiop-money.ts:94-113 | on decimals only trailing fraction zeros go, sign and leading zeros stay; other text is only trimmed |
| `MoneyText.NormalizeIdempotent` | packages/shared/fspiop/component/fspiop-money.ts:94-113 | `normalizeAmount` is idempotent on every text |
| `MoneyText.NormKeepsValue` | packages/shared/fspiop/component/fspiop-money.ts:94-113 | normalising divides numerator and denominator by one power of ten, so the value is kept |
| `MoneyText.NormalizeFixesAmount` | packages/shared/fspiop/component/fspiop-money.ts:22-23 | every AMOUNT_PATTERN text is already normal |
| `MoneyText.CanonicalUnique` | packages/shared/fspiop/component/fspiop-money.ts:22-47 | equal values have one canonical text |
| `MoneyBounds.AmountGrammar` | packages/shared/fspiop/component/fspiop-money.ts:22-23 | AMOUNT_PATTERN accepts exactly the canonical decimals of at most 18 integer digits and 4 decimals |
| `Rounding.RoundingUnique` | packages/shared/fspiop/component/fspiop-money.ts:7-16 | each mode, defined on exact fractions, determines its result |
| `Rounding.HalfUpMonotone` | packages/shared/fspiop/component/fspiop-money.ts:222-224 | HALF_UP never reverses the order of two fractions |
| `MoneyRounding.RoundUpMeaning` | packages/shared/fspiop/component/fspiop-money.ts:187-238 | the digit tests decide exactly what each mode asks of the discarded value |
| `MoneyRounding.ScaleAmountRounds` | packages/shared/fspiop/component/fspiop-money.ts:153-238 | for every decimal, scale and mode the result is the defined rounding, HALF_EVEN at scale 0 being HALF_DOWN; it fails only for UNNECESSARY on inexact values |
| `MoneyRounding.HalfEvenExactly` | packages/shared/fspiop/component/fspiop-money.ts:230-237 | HALF_EVEN rounds half to even exactly when the amount is not an odd number and a half at scale 0 |
| `MoneyRounding.HalfEvenCounterexample` | packages/shared/fspiop/component/fspiop-money.ts:230-237 | "1.5" at scale 0 becomes 1 under HALF_EVEN, where half-even rounding is 2 |
| `MoneyTheorems.SerializeMeaning` | packages/shared/fspiop/component/fspiop-money.ts:49-69 | `serialize` returns the rounding of the exact decimal and is characterised error by error: not decimal, rounding necessary, negative, above UINT64_MAX |
| `MoneyTheorems.SerializeExact` | packages/shared/fspiop/component/fspiop-money.ts:49-69 | a whole number of minor units in range serialises to itself in every mode |
| `MoneyTheorems.PlainIntegers` | packages/shared/fspiop/component/fspiop-money.ts:20 | plain integers up to 2^64 - 1 are read as themselves at scale 0, the next one is too large |
| `MoneyTheorems.ArgumentErrors` | packages/shared/fspiop/component/fspiop-money.ts:26-30 | a negative scale is refused first, then a negative amount to print, and nothing else |
| `MoneyTheorems.DeserializeMeaning` | packages/shared/fspiop/component/fspiop-money.ts:25-47 | `deserialize` prints the canonical text of exactly amount / 10^scale with at most `scale` decimals |
| `MoneyTheorems.SerializeDeserialize` | packages/shared/fspiop/component/fspiop-money.ts:25-69 | serialize(deserialize(a, s), s) = a for all a up to UINT64_MAX, all scales and modes |
| `MoneyTheorems.DeserializeSerialize` | packages/shared/fspiop/component/fspiop-money.ts:25-69 | deserialize(serialize(x)) is the normal form of x iff x is unsigned, has no leading zero and no significant digit beyond the scale |
| `MoneyTheorems.ScaleCheckIsExactness` | packages/shared/fspiop/component/fspiop-money.ts:71-92 | the decimals check passes iff the value is a whole number of minor units, iff UNNECESSARY does not fail, and then all modes agree |
| `FspiopMoney.Validate` | packages/shared/fspiop/component/fspiop-money.ts:71-92 | `validate` overwrites the amount with its normal form, even when it then rejects; its verdict is `AmountVerdict` |
| `MoneyTheorems.ValidateDecimal` | packages/shared/fspiop/component/fspiop-money.ts:71-92 | a decimal is accepted iff its currency is known and it is a whole number of minor units |
| `MoneyTheorems.VerdictOnAnyText` | packages/shared/fspiop/component/fspiop-money.ts:77-91 | the verdict on any text: unknown currency, else too many characters after the first dot of the normal form |
| `MoneyTheorems.AcceptedIsReadable` | packages/shared/fspiop/component/fspiop-money.ts:71-92 | an accepted text is read, as exactly what it denotes, iff it is a decimal between 0 and UINT64_MAX minor units; the failures are no decimal, negative, and too large, each characterised |
| `MoneyTheorems.AcceptedNonDecimalExample` | packages/shared/fspiop/component/fspiop-money.ts:77-91 | "abc" is accepted although `serialize` rejects it |
| `MoneyBounds.DeserializeIsAmount` | packages/shared/fspiop/component/fspiop-money.ts:22-47 | the printed text matches AMOUNT_PATTERN iff amount < 10^(18+scale) and no digit beyond the fourth decimal is significant |
| `MoneyBounds.AmountsFitExactly` | packages/shared/fspiop/component/fspiop-money.ts:20-69 | every AMOUNT_PATTERN amount fits uint64 iff the scale is 0 or 1 |
| `MoneyBounds.SerializeMonotone` | packages/shared/fspiop/component/fspiop-money.ts:49-69 | HALF_UP `serialize` is monotone in the decimal value |
| `MoneyBounds.SerializeHalfUnit` | packages/shared/fspiop/component/fspiop-money.ts:187-238 | HALF_UP `serialize` is within half a minor unit of the decimal |
| `MoneyBounds.FeeComparison` | packages/shared/catalyst/component/fee-validator.ts:42-48 | the fee comparison never rejects a fee not above the calculated one and never accepts one that exceeds it by a full minor unit |
| `CatalystFees.ResolveSplit` | packages/shared/catalyst/component/fee-validator.ts:63-82 | the split under the first present key: the role itself, then its aliases in order |
| `FeeBounds.FirstPresentMeaning` | packages/shared/catalyst/component/fee-validator.ts:63-82 | the split found is the one under the first key that is present; none if no key is |
| `FeeBounds.AliasIsFound` | packages/shared/catalyst/component/fee-validator.ts:84-107 | a split under any of the fourteen accepted names is found for its role, and used if it is the only one |
| `FeeBounds.OwnNameFirst` | packages/shared/catalyst/component/fee-validator.ts:68-72 | the role's own name is preferred to its aliases |
| `CatalystFees.Validate` | packages/shared/catalyst/component/fee-validator.ts:11-50 | the first failing check in iteration order, and nothing without a policy |
| `FeeBounds.ValidatePassesExactly` | packages/shared/catalyst/component/fee-validator.ts:11-50 | `validate` passes iff there is no policy or every fee has a split of the same known currency, both amounts serialise, and the fee is not the larger one |
| `FeeBounds.VerdictIsFirstFailure` | packages/shared/catalyst/component/fee-validator.ts:22-49 | the error reported is that of the first fee that has one |
| `FeeBounds.FeeFailureMeaning` | packages/shared/catalyst/component/fee-validator.ts:26-48 | what each error says about fee and split |
| `CatalystFees.ToSchemeFeeAmount` | packages/shared/catalyst/component/catalyst-fee-engine.ts:121-161 | the two accumulation loops compute `SchemeFeeAmount`, stopping at the first amount that does not serialise |
| `CatalystFees.AddPreCalculated` | packages/shared/catalyst/component/catalyst-fee-engine.ts:141-143 | the running total over the pre-calculated fees |
| `CatalystFees.AddCharged` | packages/shared/catalyst/component/catalyst-fee-engine.ts:145-158 | the running total over the splits whose key has no pre-calculated fee |
| `CatalystFees.ToExtensionList` | packages/shared/catalyst/component/catalyst-fee-engine.ts:52-99 | the published list: fees, calculated splits, scheme fee, currency, policy id, in this order |
| `FeeBounds.ListHolds` | packages/shared/catalyst/component/catalyst-fee-engine.ts:52-99 | the whole list: each fee under its role's key with its own amount, each priced split in order, then scheme fee, currency and trimmed policy id if they are there |
| `FeeBounds.PricedMeaning` | packages/shared/catalyst/component/catalyst-fee-engine.ts:66-74 | the splits published are those with an amount, each as often as it is there |
| `FeeBounds.PricedInOrder` | packages/shared/catalyst/component/catalyst-fee-engine.ts:66-74 | and they come in their order |
| `CatalystFees.Execute` | packages/shared/catalyst/component/catalyst-fee-engine.ts:25-50 | both modes, any calculator: ask by policy id or scenario, validate, publish |
| `FeeBounds.BypassPublishesFees` | packages/shared/catalyst/component/catalyst-fee-engine.ts:31-33 | bypass publishes the fees and, if the currency of the first is known, their scheme fee |
| `FeeBounds.QuestionAsked` | packages/shared/catalyst/component/catalyst-fee-engine.ts:35-37 | a positive policy id decides the question, else the scenario |
| `FeeBounds.StrictRunMeaning` | packages/shared/catalyst/component/catalyst-fee-engine.ts:35-49 | strict runs pass on failures of calculator and validator, and otherwise publish the calculated splits and currency with the answer's policy id or the one asked for |
| `FeeBounds.SchemeFeeCurrency` | packages/shared/catalyst/component/catalyst-fee-engine.ts:127-137 | the scheme fee is in the calculated currency, else that of the first fee, and is there iff that currency is known |
| `ExtensionKeys.RoleKeysDistinct` | packages/shared/catalyst/component/catalyst-fee-engine.ts:171-220 | different roles have different engine keys |
| `ExtensionKeys.TableOfNames` | packages/shared/catalyst/component/catalyst-fee-engine.ts:171-217 | the four names of each role, their key, and the key of their splits |
| `ExtensionKeys.SuffixOnce` | packages/shared/catalyst/component/catalyst-fee-engine.ts:109-119 | a split's key carries the suffix exactly once |
| `ExtensionKeys.AliasesNormalise` | packages/shared/catalyst/component/fee-validator.ts:84-107 | every name the validator accepts for a role normalises to that role's engine key |
| `ExtensionKeys.ExtensionKeyIdempotentExactly` | packages/shared/catalyst/component/catalyst-fee-engine.ts:171-220 | idempotent on a role iff its trimmed name is in the table, or is not in it in lower case either, or is an engine key in lower case |
| `ExtensionKeys.ExtensionKeyNotIdempotent` | packages/shared/catalyst/component/catalyst-fee-engine.ts:171-220 | "Hub" becomes "hub", which becomes "hub_fee" |
| `FeeTheorems.TotalIsLedger` | packages/shared/catalyst/component/catalyst-fee-engine.ts:139-158 | the accumulated total is the sum of a ledger with one entry per counted fee and split |
| `FeeTheorems.SchemeFeeConservation` | packages/shared/catalyst/component/catalyst-fee-engine.ts:121-161 | the total is one charge for each key that has a fee or a priced split, the fee if there is one and else the first calculated amount, plus exactly what splits with an already charged key add |
| `FeeTheorems.CountedAmounts` | packages/shared/catalyst/component/catalyst-fee-engine.ts:139-158 | a role with a fee is counted with that fee; with distinct keys a priced split without one is counted with its amount |
| `FeeTheorems.DistinctKeysCountOnce` | packages/shared/catalyst/component/catalyst-fee-engine.ts:121-161 | split keys distinct under `toExtensionKey` make every key count exactly once |
| `FeeTheorems.SchemeFeeIsSumOverKeys` | packages/shared/catalyst/component/catalyst-fee-engine.ts:121-161 | then the printed scheme fee denotes the sum over all keys, each counted once, and serialises back to it when it fits uint64 |
| `FeeTheorems.AliasedSplitsCountTwice` | packages/shared/catalyst/component/catalyst-fee-engine.ts:145-158 | splits of 1 under "hub" and "HUB" make a scheme fee of 2 |
| `FeeTheorems.TotalOrderIndependent` | packages/shared/catalyst/component/catalyst-fee-engine.ts:139-158 | neither success nor sum of the total depends on the order of fees or splits |
| `FeeTheorems.SchemeFeeReadsBack` | packages/shared/catalyst/component/catalyst-fee-engine.ts:121-161 | the printed scheme fee denotes the total exactly and serialises back to it when it fits uint64 |
| `FeeBounds.SchemeFeeBound` | packages/shared/catalyst/component/fee-validator.ts:11-50 | across both files: a fee map that `validate` accepts in one currency gives a scheme fee total of at most all calculated splits together |
| `FeeBounds.SchemeFeeEntry` | packages/shared/catalyst/component/catalyst-fee-engine.ts:83-85 | the list holds the scheme fee under its key exactly once, or no entry with that key if there is none |
| `FeeBounds.FeeAndSplitKeysDisjoint` | packages/shared/catalyst/component/catalyst-fee-engine.ts:101-119 | no calculated split is published under the key of a pre-calculated fee |
| `FeeBounds.StrictRunIsBounded` | packages/shared/catalyst/component/catalyst-fee-engine.ts:25-50 | a strict run with a policy and one currency publishes a scheme fee that denotes at most all calculated splits |
| `MigrationVersions.CompareVersions` | packages/shared/dbmigration/component/db-migration.ts:73-82 | the loop computes `Compare` |
| `MigrationVersions.CompareMeaning` | packages/shared/dbmigration/component/db-migration.ts:73-82 | its sign is the lexicographic order of tuples read with endless trailing zeros |
| `MigrationVersions.EqualUpToTrailingZeros` | packages/shared/dbmigration/component/db-migration.ts:73-82 | versions compare equal iff one is the other with zeros appended |
| `MigrationVersions.VersionLeqIsPreorder` | packages/shared/dbmigration/component/db-migration.ts:73-82 | a total preorder on tuples of any length |
| `MigrationVersions.DiscoveryIsTheStableSort` | packages/shared/dbmigration/component/db-migration.ts:86-123 | the discovered list is the one stable sort of the files found |
| `Sorting.SortIsStable` | packages/shared/dbmigration/component/db-migration.ts:120-122 | the sort orders, permutes, and keeps equals in order |
| `Sorting.StableSortUnique` | packages/shared/dbmigration/component/db-migration.ts:120-122 | there is only one stable sort |
| `DbMigration.Database.CreateTable` | packages/shared/dbmigration/component/db-migration.ts:161-193 | an existing table is left alone, a new one has the hash column and key |
| `DbMigration.Database.EnsureHistoryTable` | packages/shared/dbmigration/component/db-migration.ts:195-251 | succeeds iff every applied row without hash has a file and the filled hashes are present and distinct; then the table is the filled one, else a prefix of the rows is filled |
| `DbMigration.Database.Transaction` | packages/shared/dbmigration/component/db-migration.ts:332-364 | SQL text and history row are committed together, or nothing is |
| `DbMigration.LoadedIndexesAgree` | packages/shared/dbmigration/component/db-migration.ts:293-301 | the two in-memory indexes, loaded from the table, answer as the table does |
| `DbMigration.IndexesAfterInsert` | packages/shared/dbmigration/component/db-migration.ts:345-354 | updating both indexes after a commit keeps them in agreement |
| `DbMigration.IndexedDecisionIsDecision` | packages/shared/dbmigration/component/db-migration.ts:306-330 | deciding from the indexes is deciding from the table |
| `DbMigration.ApplyMigrations` | packages/shared/dbmigration/component/db-migration.ts:293-371 | the indexed loop does what the index-free run does: same rows, committed SQL, count and outcome |
| `DbMigration.Migrate` | packages/shared/dbmigration/component/db-migration.ts:277-375 | the whole of `migrate` on the files found, from any history table; a failed backfill commits nothing and leaves a prefix of the rows filled |
| `MigrationTheorems.RunAppends` | packages/shared/dbmigration/component/db-migration.ts:253-273 | a run only appends: old rows never change and every executed file leaves its row |
| `MigrationTheorems.ExecutedLeavesRow` | packages/shared/dbmigration/component/db-migration.ts:253-273 | each executed file leaves, in order, a successful row with its version, file name and hash |
| `MigrationTheorems.RunExecutesPending` | packages/shared/dbmigration/component/db-migration.ts:305-365 | a run that stops at position j has executed exactly the files before j whose version was new |
| `MigrationTheorems.RunStopsBecause` | packages/shared/dbmigration/component/db-migration.ts:308-364 | on the rows the run left and the file reported: an applied row of its version with another hash; an applied row of its hash and none of its version; or neither, and SQL or insertion failed |
| `MigrationTheorems.RunIsOrdered` | packages/shared/dbmigration/component/db-migration.ts:120-122 | on discovered files each run executes distinct, new versions in ascending order |
| `MigrationTheorems.Resume` | packages/shared/dbmigration/component/db-migration.ts:303-370 | an interrupted run followed by a complete one equals one uninterrupted run, in rows and in executed sequence |
| `MigrationTheorems.CrashResume` | packages/shared/dbmigration/component/db-migration.ts:303-370 | the same after any number of interrupted runs; one more run executes nothing |
| `MigrationTheorems.CompletesExactly` | packages/shared/dbmigration/component/db-migration.ts:308-330 | a run whose SQL succeeds completes iff versions and hashes determine each other among files and table |
| `MigrationTheorems.BackfilledIsSkipped` | packages/shared/dbmigration/component/db-migration.ts:221-239 | a backfilled row makes the run skip the file that its hash came from |
| `MigrationTheorems.BackfillChanges` | packages/shared/dbmigration/component/db-migration.ts:221-239 | the backfill changes the missing hashes of applied rows, to that of the last file of their version, and nothing else |
| `MigrationRunners.InterleavedRunnersAreSafe` | packages/shared/dbmigration/component/db-migration.ts:293-365 | any interleaving of any number of runs with crashes: each version's SQL commits at most once, old rows stay, version and hash stay one-to-one, indexes stay within the table, a completed runner finds all its files applied |
| `MigrationRunners.SharedListIsOneRun` | packages/shared/dbmigration/component/db-migration.ts:303-365 | runners that share a conflict-free list commit together a beginning of what one uninterrupted run executes, in its order, and all of it once one of them completes |
| `MigrationRunners.SoloRunnerIsRun` | packages/shared/dbmigration/component/db-migration.ts:293-371 | a run that is alone is one of these interleavings and ends as `ApplyMigrations` says |
| `MigrationRunners.CrashIsFinal` | packages/shared/dbmigration/component/db-migration.ts:332-364 | a crash can come at any moment, takes nothing back, and the runner never acts again |
| `Json.QuotePrefix` | packages/apps/web-outbound/component/access.guard.ts:277 | a quoted string determines the string and where it ends |
| `Json.EscapesOfStringify` | packages/apps/web-outbound/component/access.guard.ts:277 | the escapes of `JSON.stringify` |
| `Json.QuotedIsPrintable` | packages/apps/web-outbound/component/access.guard.ts:277 | a quoted string holds no control character |
| `Json.IndexTexts` | packages/apps/web-outbound/component/access.guard.ts:275 | the keys that entries list first are the plain decimal texts of 0 to 4294967294 |
| `CanonicalJson.CanonicalIsPrint` | packages/apps/web-outbound/component/access.guard.ts:269-283 | the canonical text is the plain print of the tree with sorted members |
| `CanonicalJson.PrintPrefix` | packages/apps/web-outbound/component/access.guard.ts:269-283 | unique decodability: a printed tree determines the tree and where its text ends |
| `CanonicalJson.CanonicalDecides` | packages/apps/web-outbound/component/access.guard.ts:80-83 | two texts are equal iff the sorted trees are |
| `CanonicalTheorems.EqualTextIsSame` | packages/apps/web-outbound/component/access.guard.ts:80-85 | whatever the collation, equal texts mean documents equal up to member order at every depth |
| `CanonicalTheorems.OrderBlindExactly` | packages/apps/web-outbound/component/access.guard.ts:269-283 | equal text decides sameness for a document iff no object in it has two different keys, neither an array index, that the collation calls equal |
| `CanonicalTheorems.PayloadCheckMeaning` | packages/apps/web-outbound/component/access.guard.ts:74-85 | with a body that has members a match means the payload is the body up to member order, and conversely for separated keys; with any other body it must be exactly the object of the date header |
| `SignedGet.RequireHeader` | packages/apps/web-outbound/component/access.guard.ts:163-190 | a header is usable iff it has one value that is not blank, and is then its trimmed value; absent, repeated and blank headers have their own errors |
| `SignedGet.ToToken` | packages/apps/web-outbound/component/access.guard.ts:192-203 | the token that the text is in compact form, or the one error when there is none |
| `SignedGetTheorems.TokenParts` | packages/apps/web-outbound/component/access.guard.ts:192-203 | a token is found iff its three dot-free parts, the first two not empty, make up the text |
| `SignedGet.AccessGuard.Reserve` | packages/core/outbound/domain/component/redis-client.ts:146-153 | set if absent or expired, with expiry; otherwise nothing changes |
| `SignedGet.AccessGuard.ValidateFreshDate` | packages/apps/web-outbound/component/access.guard.ts:205-217 | a canonical HTTP-date at most the window away from now, on either side |
| `SignedGet.AccessGuard.VerifySignedGet` | packages/apps/web-outbound/component/access.guard.ts:88-142 | the checks in their order with their errors; only a request that passes all touches the nonce store |
| `SignedGetTheorems.CheckMeaning` | packages/apps/web-outbound/component/access.guard.ts:88-133 | the checks pass iff the date is fresh and the token is a genuine one for this source, uri, method and date |
| `SignedGetTheorems.BearerIsStripped` | packages/apps/web-outbound/component/access.guard.ts:18 | the word bearer in any letter case goes with all blanks after it |
| `SignedGetTheorems.OthersAreKept` | packages/apps/web-outbound/component/access.guard.ts:157-161 | any other text is left alone |
| `SignedGetTheorems.BearerMakesNoDifference` | packages/apps/web-outbound/component/access.guard.ts:157-161 | a request is judged the same with the prefix and without |
| `SignedGetTheorems.HeaderRejection` | packages/apps/web-outbound/component/access.guard.ts:144-203 | each rejection before the token is looked at says which header, source or token is missing |
| `SignedGetTheorems.TokenRejection` | packages/apps/web-outbound/component/access.guard.ts:93-133 | each rejection of a token says what is wrong with it |
| `SignedGetTheorems.ShippedConstants` | packages/apps/web-outbound/component/access.guard.ts:20-24 | five minutes to the millisecond on either side, ten minutes of reservation, nonces of 128 characters, and the key of a nonce |
| `SignedGetTheorems.StoreIsHistory` | packages/core/outbound/domain/component/redis-client.ts:146-153 | a key is alive iff an earlier accepted attempt holds it at that time |
| `SignedGetTheorems.AcceptanceMeaning` | packages/apps/web-outbound/component/access.guard.ts:132-141 | an attempt is accepted iff it passes the checks and no earlier acceptance still holds its nonce |
| `SignedGetTheorems.OneShotExactly` | packages/apps/web-outbound/component/access.guard.ts:20-24 | for all keys, tokens and runs: at most one acceptance per source and token, iff the nonce lives at least twice the date window plus the delay between check and reservation |
| `SignedGetTheorems.ShippedLimitsAreTight` | packages/apps/web-outbound/component/access.guard.ts:20-24 | with 5 and 10 minutes this holds iff check and reservation are not delayed at all |
| `SignedGetTheorems.NonceKeyInjective` | packages/apps/web-outbound/component/access.guard.ts:134-137 | a nonce key names source and nonce, unless one source followed by a colon begins the other |
| `SignedGetTheorems.NonceKeyCollides` | packages/apps/web-outbound/component/access.guard.ts:134-137 | two sources, one with a colon, that share a nonce key |
| `SignedGetTheorems.NonceKeysDisjointExactly` | packages/apps/web-outbound/component/access.guard.ts:134-137 | two sources share no nonce key iff neither, followed by a colon, begins the other |
| `SignedGetTheorems.UsableKeysDisjointExactly` | packages/apps/web-outbound/component/access.guard.ts:133-137 | the same for nonces that pass the check: what is left of the longer source must also fit into a nonce |
| `SignedGetTheorems.OnlyReuseIsRefused` | packages/apps/web-outbound/component/access.guard.ts:139-141 | unless one registered source shadows another in this way, a request is refused as used only if its source had that nonce accepted before |
| `SignedGetTheorems.FirstUseExactly` | packages/apps/web-outbound/component/access.guard.ts:134-141 | over all runs a first use is never refused iff no registered source that a header can carry shadows another; otherwise some run refuses one |
| `SessionActivity.Activity.Start` | packages/portal/src/stores/session-activity.ts:44-46 | a new session, active now |
| `SessionActivity.Activity.UpdatePolicy` | packages/portal/src/stores/session-activity.ts:56-61 | only a live session with the same id takes the new policy, and its last activity stays |
| `SessionActivity.Activity.RecordActivity` | packages/portal/src/stores/session-activity.ts:63-69 | only a live session's last activity moves |
| `SessionActivity.Activity.End` | packages/portal/src/stores/session-activity.ts:71-74 | a stored session is marked as ended |
| `SessionActivity.NoResurrection` | packages/portal/src/stores/session-activity.ts:48-74 | without a start, an expired or ended session stays so through every run of operations and clock readings |
| `SessionActivity.LiveSessionHasInput` | packages/portal/src/stores/session-activity.ts:19 | a live session is the one started last, was not ended since, and its last activity is the last start or input event, less than the idle timeout now in force ago |
| `SessionActivity.StartedSessionLasts` | packages/portal/src/stores/session-activity.ts:44-54 | a session left alone is live until the first of deadline and idle time and says which has passed; an unusable policy is expired from the start |
| `SessionActivity.InputRestartsIdleTime` | packages/portal/src/stores/session-activity.ts:63-69 | input in a live session restarts its idle time and no more |
| `SessionActivity.UpdateKeepsIdleTime` | packages/portal/src/stores/session-activity.ts:56-61 | an update replaces the policy while the idle time runs on |
| `SessionActivity.EndedSessionSays` | packages/portal/src/stores/session-activity.ts:50 | an ended session gives the reason it was ended with |
| `AuthStore.Tab.constructor` | packages/portal/src/stores/auth.store.ts:51-65 | a page load starts signed out |
| `AuthStore.Tab.ScheduleRefresh` | packages/portal/src/stores/auth.store.ts:75-79 | next refresh time, session id, no end reason |
| `AuthStore.Tab.ApplyLogin` | packages/portal/src/stores/auth.store.ts:81-89 | the stored session starts and the tab takes over the response |
| `AuthStore.Tab.ApplyRefresh` | packages/portal/src/stores/auth.store.ts:91-97 | the tab takes over the response, its user stays |
| `AuthStore.Tab.ClearState` | packages/portal/src/stores/auth.store.ts:99-109 | signed out, with end reason and pending operations kept |
| `AuthStore.Tab.ClearEndedSession` | packages/portal/src/stores/auth.store.ts:111-115 | signed out with the reason |
| `AuthStore.Tab.RevokeSession` | packages/portal/src/stores/auth.store.ts:117-125 | the stored session is ended and the tab signed out before the logout request |
| `AuthStore.Tab.CheckSession` | packages/portal/src/stores/auth.store.ts:127-141 | the locked check up to its request |
| `AuthStore.Tab.RefreshSession` | packages/portal/src/stores/auth.store.ts:143-160 | the locked refresh up to its first request |
| `AuthStore.Tab.RefreshAnswered` | packages/portal/src/stores/auth.store.ts:160-178 | the locked refresh after the answer: renewal, 401, or another failure |
| `AuthStore.Tab.MonitorSession` | packages/portal/src/stores/auth.store.ts:188-200 | the unlocked monitor clears the tab or asks for a locked operation |
| `AuthTheorems.RefreshIsDueInTime` | packages/portal/src/stores/auth.store.ts:75-76 | the refresh is due before the token expires iff it lives more than a second; the margin is a minute or half the lifetime |
| `AuthRuns.StepKeepsInv` | packages/portal/src/stores/auth.store.ts:67-200 | every step of every tab keeps all tabs coherent and the session under a refresh in place |
| `AuthRuns.EveryRunIsCoherent` | packages/portal/src/stores/auth.store.ts:67-109 | in every interleaving each tab is signed in iff it has a session id and a token, and the stored session does not change or end under a refresh in flight |
| `AuthTheorems.RefreshIsSentForLive` | packages/portal/src/stores/auth.store.ts:145-160 | a refresh request is sent iff the stored session is live; otherwise a stored session is ended and the tab signed out |
| `AuthTheorems.RenewalOutcome` | packages/portal/src/stores/auth.store.ts:159-166 | a renewal signs in iff it is for the session asked for and that is still live as the answer arrives; otherwise the session is ended |
| `AuthTheorems.RefusalOutcome` | packages/portal/src/stores/auth.store.ts:167-176 | a 401 ends the session with the server's reason; other failures keep it and retry |
| `AuthTheorems.EndedSessionNeverReturns` | packages/portal/src/stores/auth.store.ts:143-180 | over every interleaving: once an id is not live in the store, no later refresh of any tab signs in to it unless a login issues it again |
| `AuthTheorems.SignedInWasStored` | packages/portal/src/stores/auth.store.ts:75-97 | no tab is ever signed in to a session that the store did not hold at that moment or before |
| `AuthTheorems.MonitorCatchesStaleTabs` | packages/portal/src/stores/auth.store.ts:188-200 | a tab its monitor leaves signed in is in the live stored session or about to check it |
| `AuthTheorems.MonitorMeaning` | packages/portal/src/stores/auth.store.ts:188-200 | the monitor in full: nothing, a due refresh, a sign-out into another session, or a check |
| `AuthTheorems.CheckSignsOut` | packages/portal/src/stores/auth.store.ts:127-141 | a check that finds the session dead signs the tab out and marks a stored session as ended |
| `AuthTheorems.CheckKeepsLive` | packages/portal/src/stores/auth.store.ts:130-133 | a granted check of a live session changes nothing but the pending check |
| `AuthTheorems.CheckOutcome` | packages/portal/src/stores/auth.store.ts:127-141 | a granted check of a dead session in full |
| `AuthTheorems.LoginHolds` | packages/portal/src/stores/auth.store.ts:81-89 | tab and store after a login, field by field |
| `AuthTheorems.RenewalHolds` | packages/portal/src/stores/auth.store.ts:91-97 | the tab after a renewal, field by field |
| `AuthTheorems.RenewalRefused` | packages/portal/src/stores/auth.store.ts:161-164 | tab, store and lock after a renewal that cannot be used |
| `AuthTheorems.RefreshRefused` | packages/portal/src/stores/auth.store.ts:146-158 | tab, store and lock when a refresh must not be sent |
| `AuthTheorems.LogoutHolds` | packages/portal/src/stores/auth.store.ts:244-247 | tab, store and lock of a logout |
| `AuthTheorems.LogoutRequestHolds` | packages/portal/src/stores/auth.store.ts:117-125 | the end of a logout request |
| `AuthTheorems.PasswordHolds` | packages/portal/src/stores/auth.store.ts:249-255 | tab and store after a changed password |
| `AuthTheorems.InputMeaning` | packages/portal/src/stores/auth.store.ts:203-206 | input moves the last activity of a live session if the tab is signed in, and nothing else |
| `AuthTheorems.BootstrapMeaning` | packages/portal/src/stores/auth.store.ts:257-285 | the end of a bootstrap |
| `AuthTheorems.MutualExclusion` | packages/portal/src/stores/auth.store.ts:67-73 | a grant needs the free lock, only its holder is answered, nobody else moves it |
| `AuthTheorems.PlainSteps` | packages/portal/src/stores/auth.store.ts:67-73 | the remaining steps: waiting, time, and a page that goes away with the lock it held |
| `Text.IndexOfIsLeast` | packages/shared/fspiop/component/fspiop-uri.ts:83 | `indexOf` finds the leftmost occurrence or there is none |
| `Text.JoinSplit` | packages/shared/fspiop/component/fspiop-pub-sub-subjects.ts:77-83 | joining the split pieces gives the text back |
| `Text.SplitJoin` | packages/shared/fspiop/component/fspiop-pub-sub-subjects.ts:77-83 | splitting a join of separator-free pieces gives the pieces back |
| `FspiopUri.FromResourceMeaning` | packages/shared/fspiop/component/fspiop-uri.ts:29-44 | the suffix of segments that a resource name leads and none precedes |
| `FspiopUri.FirstMatchIsFirstResource` | packages/shared/fspiop/component/fspiop-uri.ts:60-71 | the leftmost regular expression match is the first segment that is a resource name |
| `FspiopUri.ExtractMeaning` | packages/shared/fspiop/component/fspiop-uri.ts:54-72 | `extract` in terms of path segments, including both errors |
| `UriTheorems.BuiltUriIsExtracted` | packages/shared/fspiop/component/fspiop-urls.ts:5-7 | a resource URI built on an absolute base is extracted unchanged iff the base has a host and no resource name among its path segments |
| `UriTheorems.UrlKeepsBase` | packages/shared/fspiop/component/fspiop-urls.ts:5-17 | a built URL is its base, one slash and the URI, whether or not the base ends with a slash |
| `UriTheorems.BuildersKeepBase` | packages/shared/fspiop/component/fspiop-urls.ts:22-101 | every builder builds on the base it is given |
| `UriTheorems.ResourceInBase` | packages/shared/fspiop/component/fspiop-urls.ts:5-7 | on the base "http://h/quotes" the transfer 1 is signed as "/quotes/transfers/1" |
| `UriTheorems.PartiesAreUndone` | packages/shared/fspiop/component/fspiop-urls.ts:22-59 | for all three Parties builders, with and without sub id, whatever the ids |
| `UriTheorems.QuotesAreUndone` | packages/shared/fspiop/component/fspiop-urls.ts:61-78 | for all four Quotes builders |
| `UriTheorems.TransfersAreUndone` | packages/shared/fspiop/component/fspiop-urls.ts:80-101 | for all five Transfers builders |
| `UriTheorems.ExtractedShape` | packages/shared/fspiop/component/fspiop-uri.ts:49-72 | a result carries no query or fragment and starts with a resource segment |
| `UriTheorems.QueryAndFragmentAreIgnored` | packages/shared/fspiop/component/fspiop-uri.ts:80-81 | query and fragment do not matter |
| `UriTheorems.KnownResources` | packages/shared/fspiop/component/fspiop-uri.ts:29-42 | of paths with one segment exactly the twelve resource names are accepted |
| `UriTheorems.ExtractIdempotentExactly` | packages/shared/fspiop/component/fspiop-uri.ts:54-93 | `extract` leaves its own result alone iff that contains no "://" |
| `UriTheorems.RebasedUrlKeepsPath` | packages/shared/fspiop/component/fspiop-urls.ts:11-17 | moving an extracted path to another absolute base keeps it iff that base is good |
| `PubSubSubjects.ToAnyPayeeSubject` | packages/shared/fspiop/component/fspiop-pub-sub-subjects.ts:68-84 | the method computes `AnyPayee` |
| `PubSubSubjects.AnyPayeeMeaning` | packages/shared/fspiop/component/fspiop-pub-sub-subjects.ts:68-84 | for every subject: prefix and tokens stay but for the second, and rewriting again changes nothing |
| `PubSubSubjects.RewriteAgrees` | packages/shared/fspiop/component/fspiop-pub-sub-subjects.ts:46-84 | rewriting a parties subject equals building it without payee, iff payer and payee are free of colons or are already wildcards where it matters |
| `PubSubSubjects.ColonInPayer` | packages/shared/fspiop/component/fspiop-pub-sub-subjects.ts:68-84 | payer "a:b" is rewritten to payer "a" with any payee |
| `PubSubSubjects.OthersAreNotRewritten` | packages/shared/fspiop/component/fspiop-pub-sub-subjects.ts:87-117 | no quote or transfer subject is rewritten |
| `PubSubSubjects.SubjectsIdentifyRequests` | packages/shared/fspiop/component/fspiop-pub-sub-subjects.ts:91-116 | with colon-free payers quote and transfer subjects are equal only for the same payer and id |
| `PubSubSubjects.PartySubjectsIdentifyRequests` | packages/shared/fspiop/component/fspiop-pub-sub-subjects.ts:46-66 | equal parties subjects mean one payer, one payee and one party text |
| `PubSubSubjects.SubjectsHaveFamilies` | packages/shared/fspiop/component/fspiop-pub-sub-subjects.ts:32-117 | each builder has its own family of subjects |
| `PubSubSubjects.FamiliesNeverMeet` | packages/shared/fspiop/component/fspiop-pub-sub-subjects.ts:32-117 | subjects of different families are never equal |
| `PubSubSubjects.DocumentedSubject` | packages/shared/fspiop/component/fspiop-pub-sub-subjects.ts:27-29 | the documented example |
| `PubSubSubjects.RewriteSelects` | packages/shared/fspiop/component/nats/fspiop-response-subscriber.ts:234-251 | a rewritten answer reaches an open-payee waiter iff it is that payer's answer about a party with the same text; likewise for errors |
| `PubSubSubjects.AnswersAndErrorsDoNotMix` | packages/shared/fspiop/component/nats/fspiop-response-subscriber.ts:234-251 | no rewritten answer reaches a waiter for errors and no rewritten error one for answers |
| `PubSubSubjects.PartyTextIsParty` | packages/shared/fspiop/component/fspiop-pub-sub-subjects.ts:46-66 | where id types and ids have no colon, equal text means the same id type, id and sub id |
| `PubSubSubjects.AnswerReachesOnlyItsPartyExactly` | packages/shared/fspiop/component/nats/fspiop-response-subscriber.ts:234-251 | a rewritten answer reaches no waiter for another party iff its id has no colon before the last character and it has no sub id |
| `PubSubSubjects.AnswerReachesAnotherParty` | packages/shared/fspiop/component/nats/fspiop-response-subscriber.ts:234-251 | the answer about "a" with sub id "b" reaches the waiter for "a:b" |

## Left out

- Crypto, base64url and JWS verification, certificate checks, and the SHA-256 hash, which is an uninterpreted text.
- HTTP, NATS, Redis, MySQL, Vault and Nest wiring. Redis `reserve` is a set-if-absent with expiry on one clock shared with the date check; the history table is an atomic table.
- MySQL's implicit commit on DDL: a migration's SQL and its history row are assumed to commit or roll back together, and rows other than the history table are represented by the sequence of committed SQL texts.
- Table, column and index names, column lengths, `installed_by`, execution times and the dropped script key: they decide nothing in the loop.
- The file-name pattern and the reading of migration directories: the files found are an input, with version tuples of exact integers (no rounding beyond 2^53) and a non-empty hash.
- `Array.prototype.sort` by an inconsistent comparator: sorting is a stable insertion sort, which is the only stable result for a total preorder (`Sorting.StableSortUnique`).
- `localeCompare` is an arbitrary comparison; theorems about member order assume a total preorder, and separated keys where stated.
- JSON numbers are identified with the text that JavaScript prints for them, so 1 and 1.0, and 0 and -0, are one value; numbers out of range print as null. Lone surrogates in strings do not occur.
- `toLowerCase` on letters outside ASCII; `trim` uses the ECMAScript whitespace set.
- `number` inputs to `normalizeAmount` and non-integer scales.
- Splits and fees that are null rather than missing a field, extra fields of money and extension objects, and splits found on an object's prototype.
- Parsing of `sessionExpiresAt`: a policy carries its timestamp, or none when it does not parse. Two clock readings within one call are one reading.
- Non-atomic read-modify-write of local storage between tabs: each `SessionActivity` call is one step.
- `bootstrapping`, menus, user administration and the expiry callback; a login's and a bootstrap's later requests are steps that may end at any time.
- Party id types are arbitrary texts rather than members of the enumeration, and relative base URLs are covered only by `FspiopUri.ExtractMeaning`.
- The pending and recent tables of the response subscriber, apart from which subjects match.
- The download poller of the portal, DTOs, error tables, settings readers, controllers and the other stores: data or one-branch facts.
