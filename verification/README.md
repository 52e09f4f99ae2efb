# Augmented mainnet bring-up: controller and capability flags

This project models two pieces of the Augmented deployment scripts in Dafny
and proves properties about them.

**The `augmented:mainnet` controller** (`tasks/migrations/augmented-mainnet.ts`).
It is a sequential state machine.
- Every awaited remote call is an opaque outcome, `Ok` or `Throws`. These calls are: the UI config cleanup, the registry wipe, the twelve `DRE.run` deployment steps, the token pluck on a mainnet fork, finalize, the UI config write and the contract verification.
- The audit figures (`multiCount`, `instanceCount` and the registry entry names) are inputs.
- `Run` is a pure function from the command-line flags and those outcomes to a trace. The trace holds:
  - the calls made, in order;
  - the `renounce` and `success` flags at the finalize guard;
  - how the run ends: `exit(1)`, a normal finish, or a rejection by an exception nobody catches.
- The try block is `Deploy`. The finalize guard, the exit and the post-success work are `Conclude`.
- The audit is module `RegistryAudit`. It covers the warnings printed, the `hasWarn` flag (a loop in `ScanRegistry`) and the strict escalation.

**The `AccessFlags` table** (`helpers/access-flags.ts`). Every entry is written `1 << n`. The table is read in two ways:
- the mathematical reading, where `1 << n` is 2^n as an unbounded natural;
- the JavaScript reading. There `<<` is Number::leftShift of ECMA-262, section 6.1.6.1.9. The count is taken modulo 32 and the result is a signed 32-bit integer.

Under the JavaScript reading the word is a `bv32` shifted by `n % 32`. It is also stated arithmetically (ToInt32, ToUint32), and the two forms are proved equal. Each reading gets a lemma giving exactly which pairs of names collide. Module `Bits` holds the power-of-two and 32-bit shift facts used by the table.

Three points of the controller's order are worth stating:
- Finalize is guarded: it runs only when `renounce || success` (line 128).
- Finalize is attempted once. An exception from it is caught and logged (lines 132-135), and it is not retried.
- The audit (lines 95-117) runs inside the try block, before the finalize guard. A strict audit failure throws before line 120, so `success` stays false. Finalize then runs, with `register = false`, only if `renounce` was set at line 46, that is, in a non-incremental, secure run whose UI config cleanup and registry wipe completed. A strict audit failure in an incremental or non-secure run does not finalize at all.

## Model

| member | source | states |
|---|---|---|
| Bits.Pow2SingleBit | helpers/access-flags.ts:2-32 | 2^k has bit n set exactly when n = k |
| Bits.ShiftOneIsPow2 | helpers/access-flags.ts:2-32 | for k < 32, the 32-bit word `1 << k` read as an unsigned number is 2^k |
| AccessFlags.DeclaredShift | helpers/access-flags.ts:2-32 | the right operand `n` of each `1 << n`: at most 27 for the entries of lines 2-28, and 64, 65, 66 for lines 29-32 |
| AccessFlags.MathValue | helpers/access-flags.ts:2-32 | under the mathematical reading a flag's value is 2^n, which has its declared bit set |
| AccessFlags.MathValueSingleBit | helpers/access-flags.ts:2-32 | under the mathematical reading every flag has exactly one set bit, at its declared shift |
| AccessFlags.DeclaredShiftRange | helpers/access-flags.ts:2-32 | declared shifts are at most 27, except those of REWARD_MINT, REWARD_BURN and POOL_SPONSORED_LOAN_USER, which lie in 64..66 |
| AccessFlags.SameDeclaredShift | helpers/access-flags.ts:26-27 | two names share a declared shift exactly when they are the same name or the REFERRAL_REGISTRY / WETH_GATEWAY pair |
| AccessFlags.MathCollisions | helpers/access-flags.ts:1-33 | under the mathematical reading, two flags have equal values iff they are the same name or the bit-27 pair; lines 29-32 differ from every other entry |
| AccessFlags.MathWidth | helpers/access-flags.ts:29-32 | under the mathematical reading no flag sets a bit at 67 or above, and POOL_SPONSORED_LOAN_USER sets bit 66, so the table needs 67 bits |
| AccessFlags.BeyondThirtyTwoBits | helpers/access-flags.ts:29-32 | a flag's mathematical value is at least 2^32 exactly for the three entries of lines 29-32 |
| AccessFlags.ToUint32 | helpers/access-flags.ts:2-32 | the result is below 2^32, congruent to the input modulo 2^32, and equal to the input when the input is already in range |
| AccessFlags.ToInt32 | helpers/access-flags.ts:2-32 | the result is a signed 32-bit value, congruent to the input modulo 2^32, and equal to the input when the input is already in range |
| AccessFlags.LeftShift | helpers/access-flags.ts:2-32 | Number::leftShift always yields a signed 32-bit value |
| AccessFlags.EvaluatedShift | helpers/access-flags.ts:2-32 | the shift `<<` performs is below 32 |
| AccessFlags.EvaluatedShiftBelowSignBit | helpers/access-flags.ts:2-32 | no reduced shift reaches the sign bit: every one is at most 27 |
| AccessFlags.JsBitsArePositivePowers | helpers/access-flags.ts:2-32 | the 32-bit word of every flag, read as int32, is 2^(n mod 32) and below 2^31 |
| AccessFlags.ShiftCountIsEvaluatedShift | helpers/access-flags.ts:2-32 | ToUint32 of each declared shift, modulo 32, is the shift the bv32 reading uses |
| AccessFlags.JsBits | helpers/access-flags.ts:2-32 | the 32-bit word `1 << n` produces, read as an unsigned number, is 2^(n mod 32) |
| AccessFlags.JsValue | helpers/access-flags.ts:2-32 | the enum value JavaScript computes equals Number::leftShift(1, n), equals 2^(n mod 32), and is a positive int32 |
| AccessFlags.ReadingsAgree | helpers/access-flags.ts:2-32 | the mathematical and JavaScript values of a flag are equal iff its declared shift is below 32, so they differ exactly on lines 29-32 |
| AccessFlags.WrapsOnto | helpers/access-flags.ts:29-32 | each flag's evaluated shift is the declared shift of a flag at or below bit 27: shifts 64, 65 and 66 land on the flags of bits 0, 1 and 2 |
| AccessFlags.UnwrappedAliases | helpers/access-flags.ts:1-33 | two flags map to the same bit-27-or-below flag, or to the bit-27 pair, exactly when they are equal, the bit-27 pair, or a wrapped pair |
| AccessFlags.SameEvaluatedShift | helpers/access-flags.ts:1-33 | two flags evaluate to the same shift iff they are equal, the bit-27 pair, or one of the three wrapped pairs |
| AccessFlags.JsCollisions | helpers/access-flags.ts:1-33 | under JavaScript semantics two flags have equal values iff they are equal, the bit-27 pair, or REWARD_MINT/EMERGENCY_ADMIN, REWARD_BURN/POOL_ADMIN, POOL_SPONSORED_LOAN_USER/TREASURY_ADMIN |
| AccessFlags.WrappedValues | helpers/access-flags.ts:29-32 | REWARD_MINT, REWARD_BURN and POOL_SPONSORED_LOAN_USER evaluate to 1, 2 and 4, the values of EMERGENCY_ADMIN, POOL_ADMIN and TREASURY_ADMIN |
| AccessFlags.LocalStakingRootRolesBits | tasks/migrations/augmented-test-local-staking.ts:46 | the root account's mask holds bit k exactly for k in {3, 5, 24, 25, 27} |
| AccessFlags.RootRoleShifts | tasks/migrations/augmented-test-local-staking.ts:46 | the flags whose evaluated bit is one of those five are exactly the six named in LocalStakingRootRolesDecode |
| AccessFlags.LocalStakingRootRolesDecode | tasks/migrations/augmented-test-local-staking.ts:46 | the mask grants exactly STAKE_ADMIN, REWARD_CONFIGURATOR, REWARD_CONTROLLER, REWARD_CONFIG_ADMIN, REFERRAL_REGISTRY and WETH_GATEWAY |
| RegistryAudit.IsMockName | tasks/migrations/augmented-mainnet.ts:108 | `key.startsWith('Mock')` holds iff the name is "Mock" followed by some suffix, possibly empty |
| RegistryAudit.HasWarn | tasks/migrations/augmented-mainnet.ts:98-112 | the value `hasWarn` ends with: multiCount > 0, or the entry count differs from instanceCount, or some name starts with "Mock"; ScanRegistry proves the loop computes it |
| RegistryAudit.MockWarnings | tasks/migrations/augmented-mainnet.ts:107-112 | one warning per mock-named entry in iteration order, so never more warnings than entries |
| RegistryAudit.MockWarningsContents | tasks/migrations/augmented-mainnet.ts:107-112 | the per-entry scan warns about exactly the entries whose name starts with "Mock", and about nothing else |
| RegistryAudit.MockWarningsNonEmpty | tasks/migrations/augmented-mainnet.ts:107-112 | some mock warning is printed iff some entry name starts with "Mock" |
| RegistryAudit.CountWarnings | tasks/migrations/augmented-mainnet.ts:99-105 | at most one count message: multi-deployment iff multiCount > 0, unknown contracts iff there is none and the entry count differs from instanceCount |
| RegistryAudit.WarningsMeaning | tasks/migrations/augmented-mainnet.ts:96-112 | a warning is printed iff multiCount > 0, or the entry count differs from instanceCount, or a name starts with "Mock"; the `else if` chooses the message only |
| RegistryAudit.Warnings | tasks/migrations/augmented-mainnet.ts:98-112 | the warnings printed: the count message, then the mock messages; WarningsMeaning states what they contain |
| RegistryAudit.ScanRegistry | tasks/migrations/augmented-mainnet.ts:98-112 | the loop over the entries leaves hasWarn equal to that three-way disjunction, with the warnings printed in order |
| RegistryAudit.AuditThrows | tasks/migrations/augmented-mainnet.ts:114-116 | the audit throws iff `hasWarn && strict`; SuccessCondition and NonStrictAuditIgnored state its effect on the run |
| AugmentedMainnet.RunSteps | tasks/migrations/augmented-mainnet.ts:52-86 | the steps attempted are a prefix of the list; all but the last completed; a run of steps completes only if none throws, and otherwise stops at the first that throws |
| AugmentedMainnet.StepsInSourceOrder | tasks/migrations/augmented-mainnet.ts:52-86 | the twelve steps are listed in the order of their calls in the source |
| AugmentedMainnet.NoFault | tasks/migrations/augmented-mainnet.ts:32-93 | every awaited call of the try block before the audit completes: the UI config cleanup, the wipe in a non-incremental run, all twelve steps, and the pluck on a mainnet fork; SuccessCondition states its role |
| AugmentedMainnet.Prelude | tasks/migrations/augmented-mainnet.ts:33-47 | before the steps, the run calls the UI config cleanup and at most the registry wipe |
| AugmentedMainnet.Deploy | tasks/migrations/augmented-mainnet.ts:119-120 | when the try block succeeds, `renounce` holds too |
| AugmentedMainnet.Closing | tasks/migrations/augmented-mainnet.ts:88-117 | after the steps, the pluck is called iff the run is on a mainnet fork, and the audit is the last call iff the pluck did not throw |
| AugmentedMainnet.TryBlockFlags | tasks/migrations/augmented-mainnet.ts:29-126 | the try block succeeds iff every call in it completes and the strict audit does not throw; on failure `renounce` holds iff the run is non-incremental and secure and the registry wipe completed |
| AugmentedMainnet.PreludeChronological | tasks/migrations/augmented-mainnet.ts:33-47 | the prelude's calls are in source order, all at or before line 45 |
| AugmentedMainnet.ClosingChronological | tasks/migrations/augmented-mainnet.ts:88-117 | the pluck comes before the audit, between lines 91 and 96 |
| AugmentedMainnet.StepEventsChronological | tasks/migrations/augmented-mainnet.ts:52-86 | the steps of any prefix run in listed order, between lines 53 and 86 |
| AugmentedMainnet.TryBlockChronological | tasks/migrations/augmented-mainnet.ts:32-126 | the try block's calls are made in strictly increasing source order, all before the catch at line 121 |
| AugmentedMainnet.TryBlockWipe | tasks/migrations/augmented-mainnet.ts:36-47 | the registry is wiped iff the run is non-incremental and the UI config cleanup completed |
| AugmentedMainnet.TryBlockSteps | tasks/migrations/augmented-mainnet.ts:52-86 | a step runs iff the prelude completed and the step sequence reached it |
| AugmentedMainnet.TryBlockAudit | tasks/migrations/augmented-mainnet.ts:88-117 | the audit runs iff every earlier call of the try block completed |
| AugmentedMainnet.Finally | tasks/migrations/augmented-mainnet.ts:128-136 | the finally section calls finalize at most once |
| AugmentedMainnet.AfterSuccess | tasks/migrations/augmented-mainnet.ts:161-177 | the post-success work starts with the UI config write |
| AugmentedMainnet.SuccessEnding | tasks/migrations/augmented-mainnet.ts:161-177 | a successful try block never ends in exit(1) |
| AugmentedMainnet.Conclude | tasks/migrations/augmented-mainnet.ts:156-159 | the run calls `exit(1)` iff `success` is false |
| AugmentedMainnet.Run | tasks/migrations/augmented-mainnet.ts:20-177 | a run's `success` implies `renounce`, and it calls `exit(1)` iff it did not succeed |
| AugmentedMainnet.DeployShaped | tasks/migrations/augmented-mainnet.ts:32-126 | the try block leaves a chronological log of calls before line 121, with success implying renounce |
| AugmentedMainnet.ConcludeExtends | tasks/migrations/augmented-mainnet.ts:128-177 | after the try block the flags are kept and the log only grows by calls from line 131 on |
| AugmentedMainnet.ConcludeChronological | tasks/migrations/augmented-mainnet.ts:128-177 | the calls after the try block keep the log in source order |
| AugmentedMainnet.ConcludeFinalize | tasks/migrations/augmented-mainnet.ts:128-136 | finalize is called iff `renounce || success`, always with `register = success` |
| AugmentedMainnet.ConcludePostSuccess | tasks/migrations/augmented-mainnet.ts:156-177 | the UI config is written iff `success`, directly after finalize; verification runs iff `success`, `verify` and the write completed; the run is rejected iff one of them throws |
| AugmentedMainnet.RunChronological | tasks/migrations/augmented-mainnet.ts:20-177 | every call of a run happens in strictly increasing source order: no call is repeated or reordered |
| AugmentedMainnet.FinalizeAtMostOnce | tasks/migrations/augmented-mainnet.ts:128-136 | finalize appears at most once in a run: it is never retried |
| AugmentedMainnet.FinalizeGuard | tasks/migrations/augmented-mainnet.ts:128-131 | finalize is called iff `renounce || success`, and every finalize call has `register = success` |
| AugmentedMainnet.SuccessCondition | tasks/migrations/augmented-mainnet.ts:114-120 | a run succeeds iff every try-block call completes and the strict audit does not throw; strict with a warning means failure |
| AugmentedMainnet.FailedRunFinalization | tasks/migrations/augmented-mainnet.ts:128-131 | a failed run finalizes iff it is non-incremental and secure and both cleanups completed; a failed incremental run never finalizes |
| AugmentedMainnet.NonStrictAuditIgnored | tasks/migrations/augmented-mainnet.ts:114-116 | without `strict`, changing the audit figures changes neither `success`, `renounce` nor how the run ends |
| AugmentedMainnet.FinalizeErrorIgnored | tasks/migrations/augmented-mainnet.ts:132-135 | whether finalize throws changes neither `success`, `renounce` nor how the run ends |
| AugmentedMainnet.AttemptedInOrder | tasks/migrations/augmented-mainnet.ts:52-86 | if the step sequence reaches step j, it attempted and completed every earlier step |
| AugmentedMainnet.StepsRunInOrder | tasks/migrations/augmented-mainnet.ts:52-86 | a step runs only if every earlier step ran and completed |
| AugmentedMainnet.ThrowingStepEndsTryBlock | tasks/migrations/augmented-mainnet.ts:52-126 | if step k throws, no later step runs, the audit is skipped and the run fails |
| AugmentedMainnet.StepsFollowPrelude | tasks/migrations/augmented-mainnet.ts:32-53 | a step runs only if the UI config cleanup completed and, in a non-incremental run, the registry wipe completed and was logged |
| AugmentedMainnet.RegistryWipe | tasks/migrations/augmented-mainnet.ts:36-47 | a run wipes the registry iff it is non-incremental and the UI config cleanup completed |
| AugmentedMainnet.PostSuccessWork | tasks/migrations/augmented-mainnet.ts:156-177 | in a whole run, the UI config is written iff it succeeded, right after finalize with `register = true`; verification and rejection are as in ConcludePostSuccess |

## Left out

- AugmentedMainnet.Prelude: its contract states only the two possible shapes of the prelude. TryBlockWipe and RegistryWipe state when the wipe happens.
- AugmentedMainnet.Deploy: its contract states only that success implies renounce. TryBlockFlags and the other TryBlock lemmas state the rest.
- AugmentedMainnet.Finally: its contract states only that finalize is called at most once. ConcludeFinalize and FinalizeGuard state the guard and the `register` flag.
- AugmentedMainnet.AfterSuccess: its contract states only that the UI config write comes first. ConcludePostSuccess states when verification runs.
- AugmentedMainnet.SuccessEnding: its contract states only that a successful try block never exits with status 1. ConcludePostSuccess states when the run is rejected.
- AugmentedMainnet.Conclude: its contract states only the exit decision. The ConcludeExtends, ConcludeFinalize and ConcludePostSuccess lemmas state the rest.
- AugmentedMainnet.Run: its contract states only success implies renounce and the exit decision. The lemmas after it state the rest.

- Balance, expense and gas reporting (tasks/migrations/augmented-mainnet.ts lines 26, 34, 88, 93 and 138-154) is left out. It is console output computed with `toNumber()` and floating-point division.
- The balance reads of lines 26, 88 and 93, `set-DRE`, `getFirstSigner` and `printContracts` are assumed not to throw. If one did throw inside the try block, it would behave like a step that throws.
- The end-balance read of line 139 and the `div(gasPrice).toNumber()` of line 147 run outside the try block and are assumed not to throw. If one did, the run would end before `exit(1)` and before the UI config write.
- Console output and the Tenderly dashboard links and fork information (lines 122-125 and 166-172) are left out, on the assumption that they do not throw. `getTenderlyDashboardLink()` at line 123 runs inside the catch: if it threw, the exception would escape and finalize would be skipped.
- The exit status of a `Rejected` run is set by Hardhat, whose runner receives the uncaught exception. The model records only that the run was rejected and that `exit(1)` was not called.
- `reuse` is only forwarded to the oracle deployment step. That step is an opaque outcome here, so the flag has no effect in the model.
- `MAINNET_FORK` comes from the environment. It is a field of `Env` rather than an environment read.
- The bodies of the `DRE.run` subtasks are not shown in the source, and they deploy remote contracts. Each is an outcome, `Ok` or `Throws`.
- The token pluck and the Etherscan verification are also opaque outcomes.
- `exit(1)` is modelled as the `ExitFailure` ending. Nothing after it runs.
- `Run` models an exception from the UI config write or from verification as the `Rejected` ending. Nothing catches these.
- `RegistryAudit.Figures` keeps the registry entry names as a sequence in iteration order. Distinctness of the keys is not assumed, so the model also covers inputs a `Map` cannot produce.
- types/ILendingPoolAddressesProvider.d.ts is not part of this model. It holds typings for remote calls.
- tasks/dev/4_oracles.ts is not part of this model. It is deployment plumbing. Its line 65 names `AccessFlags.LENDING_RATE_ADMIN`, which helpers/access-flags.ts does not define.
- tasks/migrations/augmented-test-local-staking.ts is not modelled. It is a straight-line sequence of remote calls. Only its literal role mask (line 46) is decoded against the flag table.

## Findings

| source | as written | input that shows it | evidently intended | confidence | as-written member | corrected member |
|---|---|---|---|---|---|---|
| helpers/access-flags.ts:29-32 | `REWARD_MINT = 1 << 64`, `REWARD_BURN = 1 << 65`, `POOL_SPONSORED_LOAN_USER = 1 << 66`; JavaScript's `<<` takes the count modulo 32, so these evaluate to 1, 2 and 4 | the shifts 64, 65, 66: the values equal EMERGENCY_ADMIN, POOL_ADMIN and TREASURY_ADMIN, so granting REWARD_MINT grants EMERGENCY_ADMIN | three new distinct bits, 2^64, 2^65 and 2^66, colliding with no other flag | high; not executed | AccessFlags.WrappedValues (with AccessFlags.JsCollisions) | AccessFlags.MathCollisions (with AccessFlags.MathValue and AccessFlags.BeyondThirtyTwoBits) |
