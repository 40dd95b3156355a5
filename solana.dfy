/** Machine types, account keys and instruction errors of the ledger the program runs on. */
module Solana {

  const U64_MAX: int := 0xFFFF_FFFF_FFFF_FFFF
  const U32_MAX: int := 0xFFFF_FFFF

  /** Lamport balances and instruction arguments are `u64`. */
  type U64 = x: int | 0 <= x <= U64_MAX

  /** The `count` field of the bank record is a `u32`. */
  type U32 = x: int | 0 <= x <= U32_MAX

  /** `Clock::unix_timestamp` is an `i64`. */
  type I64 = x: int | -0x8000_0000_0000_0000 <= x < 0x8000_0000_0000_0000

  /** An account address: 32 bytes. */
  type Pubkey = k: seq<bv8> | |k| == 32 witness seq(32, _ => 0)

  /** The all-zero key, which is what a freshly allocated account's key fields hold. */
  const ZeroKey: Pubkey := seq(32, _ => 0)

  /** Which account of an instruction an Anchor constraint failed on. */
  datatype Role = CallerAccount | BankAccount

  /**
   * Ways an instruction can fail. Every failure aborts the whole instruction: the runtime
   * discards all of its account writes.
   */
  datatype Error =
    | AccountAlreadyInUse       // `#[account(init)]` on a bank account that already holds a record
    | AccountNotInitialized     // the bank account holds no `Bank` record
    | ConstraintRaw(on: Role)   // a `constraint = ...` attribute evaluated to false
    | InsufficientLamports      // a transfer's source holds fewer lamports than it sends
    | ArithmeticOverflow        // a checked `u64` operation overflowed

  datatype Result<T> = Ok(value: T) | Err(error: Error)
}
