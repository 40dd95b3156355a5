# Exclusive gamble: a Dafny model of the `example1` wager program

The `example1` on-chain program keeps a pooled fund, the *bank*. Only holders of one token
mint may wager against it. It has two instructions:

- `init_bank(start_bank_balance, permitted_mint)` writes the bank record. The record holds
  the banker's key as `authority` and the mint whose holders may play. The instruction then
  deposits `start_bank_balance` lamports from the banker into the bank.
- `gamble(gamble_amount)` first runs Anchor's account checks: the caller must hold the
  stake, and the bank must hold twice the stake. It then tests whether the caller is
  eligible. Four conditions must all hold:
  - the token account's mint is the bank's permitted mint;
  - it is also the pool mint passed in;
  - the account holds at least one token;
  - the account sits at the caller's associated token address.

  An eligible caller loses the stake to the bank when the block timestamp is odd. On any
  other timestamp the caller wins twice the stake from the bank. An ineligible caller is
  not refused: the program moves the caller's whole balance into the bank.

The model has three layers:

- `Exclusive`: pure functions on a `Ledger` value. The ledger holds the banker's, the
  bank's and the caller's lamports, and the bank record. `InitBankStep` and `GambleStep`
  return either the new ledger or the error the instruction aborts with. `Session` runs any
  sequence of `gamble` instructions by the one modelled caller, one after another, as the
  runtime serialises them.
- `ExclusiveProgram.Accounts`: a class with the same accounts as fields. Its methods
  `InitBank` and `Gamble` update those fields in place. Each method's `ensures` ties the new
  state to the matching step function.
- `ExclusiveProperties`: lemmas that relate several instructions or restate the test
  scenarios.

`SystemProgram.Transfer` models the system program's lamport transfer as one atomic step
that either completes or fails. `Solana` holds the machine types (`u64`, `u32`, `i64`), the
32-byte `Pubkey` and the error kinds.

Inputs from outside and how the model takes them:

- The block clock (`Clock::get()`) becomes the parameter `ts: I64`.
- The associated-token-address derivation becomes a function parameter `ataOf(owner, mint)`
  and is otherwise uninterpreted.
- The token account passed to `gamble` becomes a value holding its key, mint and amount.

Facts about the code that the model keeps:

- The eligibility test `Exclusive.Eligible` is the four-conjunct condition of lib.rs:54-57 as written. It carries no contract of its own; what it means for a wager is stated by `Exclusive.GambleStep` and `ExclusiveProperties.AnyFailedConjunctDrains`.
- An ineligible caller is drained, not refused: the instruction succeeds.
- `start_bank_balance` is a deposit moved from the banker to the bank.
- The outcome is the parity of `unix_timestamp`.
- A zero stake is admitted.

Arithmetic on `u64` is checked: an overflow aborts the instruction with
`ArithmeticOverflow`. This matches the `overflow-checks = true` release profile that Anchor
workspaces use; the build profile is not part of this model. The three accounts are assumed
to be distinct.

## Model

| member | source | states |
|---|---|---|
| `SystemProgram.Transfer` | examples_spl/programs/example1-exclusive/src/lib.rs:19-29 | the move succeeds exactly when the source covers the amount and the target stays within `u64`; otherwise it fails with `InsufficientLamports` or `ArithmeticOverflow`; on success the source loses exactly the amount and the two balances keep their sum |
| `Exclusive.Bits` | examples_spl/programs/example1-exclusive/src/lib.rs:60-68 | the timestamp's bit pattern is a 64-bit number that agrees with the signed `i64` modulo 2^64 (two's complement) |
| `Exclusive.LowBit` | examples_spl/programs/example1-exclusive/src/lib.rs:62-68 | `now_ts & 1` is 0 or 1, and it is 1 exactly when the timestamp is odd, negative timestamps included |
| `Exclusive.InitBankStep` | examples_spl/programs/example1-exclusive/src/lib.rs:13-32 | fails with `AccountAlreadyInUse` on a bank that already holds a record; succeeds exactly when the bank holds none, the banker covers the deposit and the bank stays within `u64`; fails with `InsufficientLamports` when the banker cannot cover it; on success the record is (banker's key, `permitted_mint`, count 0), the bank gains exactly the deposit, banker plus bank is conserved and the caller is untouched |
| `Exclusive.Admission` | examples_spl/programs/example1-exclusive/src/lib.rs:128-146 | a wager is admitted exactly when the bank holds a record, the stake is at most the caller's lamports and twice the stake is at most the bank's; otherwise the first failed check, in Anchor's order, gives the error: `AccountNotInitialized` for a bank with no record, `ConstraintRaw` on the caller account when the caller cannot cover the stake, `ArithmeticOverflow` when doubling the stake overflows `u64`, and `ConstraintRaw` on the bank account when the bank cannot cover twice the stake |
| `Exclusive.GambleStep` | examples_spl/programs/example1-exclusive/src/lib.rs:35-122 | a wager that is not admitted fails with the admission error; a successful wager was admitted, never writes the bank record or the banker and conserves caller plus bank; it drains exactly when one of the four eligibility conditions fails; when eligible, the bank wins exactly on an odd timestamp; bank won: the caller loses the stake and the bank gains it; caller won: the caller gains twice the stake and the bank loses it; drained: the caller ends at 0 and the bank gains the caller's whole prior balance |
| `Exclusive.After` | examples_spl/programs/example1-exclusive/src/lib.rs:35-122 | the accounts after one `gamble`: a failed instruction leaves them exactly as they were; in every case the bank record, the banker and the keys are unchanged and caller plus bank is conserved |
| `Exclusive.Session` | examples_spl/programs/example1-exclusive/src/lib.rs:35-122 | after any sequence of `gamble` instructions by one caller against one bank, the bank record, the banker's lamports and the account keys are unchanged, and caller plus bank is conserved |
| `ExclusiveProperties.InitBankOnlyOnce` | examples_spl/programs/example1-exclusive/src/lib.rs:149-152 | after a successful `init_bank`, a second `init_bank` on the same bank fails with `AccountAlreadyInUse`, whatever its arguments |
| `ExclusiveProperties.AnyFailedConjunctDrains` | examples_spl/programs/example1-exclusive/src/lib.rs:54-57 | for an admitted wager, a successful `Drained` outcome happens only when one of the four conditions fails, and each single failed condition (a token of a mint other than the bank's or the pool's, a zero token amount, a token account that is not the caller's associated one) drains: when bank plus caller fits in `u64` the caller ends at 0 and the bank gains the caller's whole prior balance, and otherwise the wager fails with `ArithmeticOverflow` (the "Can't gamble" scenarios of the tests) |
| `ExclusiveProperties.OutcomeFollowsParity` | examples_spl/programs/example1-exclusive/src/lib.rs:60-99 | for an admitted eligible wager, an odd timestamp yields exactly "caller minus stake, bank plus stake" when bank plus stake fits in `u64`, and an even one yields exactly "caller plus twice the stake, bank minus twice the stake" when caller plus twice the stake fits in `u64`; when the credit of that branch would overflow, the wager fails with `ArithmeticOverflow`; so both outcomes are reachable |
| `ExclusiveProperties.RejectedWagerChangesNothing` | examples_spl/programs/example1-exclusive/src/lib.rs:135-143 | a wager whose stake exceeds the caller's lamports, or whose doubled stake exceeds the bank's, fails and leaves every account as it was |
| `ExclusiveProperties.DrainedCallerStaysDrained` | examples_spl/programs/example1-exclusive/src/lib.rs:135-138 | a caller with 0 lamports still has 0, and the bank's balance is unchanged, after any sequence of `gamble` instructions: positive stakes fail the caller's constraint and a zero stake moves nothing |
| `ExclusiveProgram.Accounts.constructor` | examples_spl/programs/example1-exclusive/src/lib.rs:149-156 | the accounts before `init_bank`: the given balances and keys, and a bank account that holds no record |
| `ExclusiveProgram.Accounts.InitBank` | examples_spl/programs/example1-exclusive/src/lib.rs:13-32 | the new state is the one `InitBankStep` gives, and nothing changes on failure; on success the record is initialised with the banker as authority and the given permitted mint, and banker plus bank is conserved; the caller's lamports never change |
| `ExclusiveProgram.Accounts.Gamble` | examples_spl/programs/example1-exclusive/src/lib.rs:35-122 | the new state and the outcome are the ones `GambleStep` gives, and nothing changes on failure; the bank record (initialised flag, authority, permitted mint, count) is never written; caller plus bank is conserved |

## Left out

- Rent: the lamports that `#[account(init)]` takes from the banker to make the bank account rent-exempt, and the runtime's rent-exemption checks. Account space sizing (`64 + Bank::MAXIMUM_SIZE`) and Anchor (de)serialisation are left out too.
- Transaction fees and signature verification: the runtime handles these before the program runs.
- `msg!` logging.
- The internals of associated-token-address derivation: `ataOf` is a parameter with no properties.
- The `Clock` sysvar read: the timestamp is a parameter, and nothing is said about how unpredictable it is.
- Error codes of the overflows that panic: doubling the stake in the bank constraint (lib.rs:142) and crediting the caller with twice the stake on the winning branch (lib.rs:98) abort by a panic, and the system-program transfers abort with a system-program error when a credit overflows. The model reports all of these as `ArithmeticOverflow`.
- Aliasing between accounts: the same key passed as caller and bank, or as banker and caller, is not modelled. The three balances are separate cells.
- The exact error Anchor's `Account<Bank>` loader gives for a bank account without a `Bank` record: it depends on the account's owner and lamports, and the model reports every such case as `AccountNotInitialized`.
- Owner and type checks that Anchor makes on `Account<TokenAccount>`, `Account<Mint>` and `Signer`: the token account and the pool mint key arrive as already-validated values.
- Accounts left at 0 lamports: the runtime removes an account whose balance ends at 0, together with its data. A caller can pay the bank down to exactly 0 (stake half an even bank balance and win), after which the real bank record is gone, later gambles fail to load it and `init_bank` can run again. The model keeps the record of a bank at 0 lamports, and likewise keeps a drained caller as an empty account.
- Several callers: the ledger holds one caller, so gambles by different callers against the same bank, interleaved as the tests run them, are not modelled; `Session` covers repeated gambles by one caller.
- Concurrency: the runtime serialises instructions that write the same account, and `Session` models that serial order only.
