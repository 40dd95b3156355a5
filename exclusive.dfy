/**
 * The wager program `example1`, as functions on a snapshot of the accounts it touches:
 * the banker's, the bank's and the caller's lamport balances and the bank record.
 */
module Exclusive {
  import opened Solana
  import opened SystemProgram

  /** The record stored in the bank account. `count` is never read or written by the program. */
  datatype Bank = Bank(authority: Pubkey, permittedMint: Pubkey, count: U32)

  /** The fields of the SPL token account passed to `gamble` that the program reads. */
  datatype TokenAccount = TokenAccount(key: Pubkey, mint: Pubkey, amount: U64)

  /**
   * The accounts of one deployment: the banker (who initialises the bank), the bank and
   * one caller, with their balances. `data` is the bank record, `None` before `init_bank`.
   * The three accounts are distinct.
   */
  datatype Ledger = Ledger(
    bankerKey: Pubkey,
    callerKey: Pubkey,
    banker: U64,
    bank: U64,
    caller: U64,
    data: Option<Bank>)

  datatype Option<T> = None | Some(value: T)

  /** The arguments of one `gamble` instruction, with the clock reading it sees. */
  datatype Wager = Wager(amount: U64, ts: I64, token: TokenAccount, poolMintKey: Pubkey)

  /** How a `gamble` that succeeded was settled. */
  datatype Outcome =
    | BankWon   // eligible caller, odd timestamp: the stake went to the bank
    | CallerWon // eligible caller, even timestamp: twice the stake went to the caller
    | Drained   // ineligible caller: the caller's whole balance went to the bank

  /** A mapping from (owner, mint) to the owner's associated token account address. */
  type AtaDerivation = (Pubkey, Pubkey) -> Pubkey

  /**
   * The eligibility test of `gamble`: the token belongs to the bank's permitted mint and to
   * the pool mint passed in, holds at least one token, and sits at the caller's associated
   * token address for the pool mint.
   */
  predicate Eligible(token: TokenAccount, permittedMint: Pubkey, poolMintKey: Pubkey,
                     callerKey: Pubkey, ataOf: AtaDerivation)
  {
    && token.mint == permittedMint
    && token.mint == poolMintKey
    && token.amount > 0
    && ataOf(callerKey, poolMintKey) == token.key
  }

  /** The 64-bit two's-complement pattern of an `i64` timestamp, read as an unsigned number. */
  function Bits(ts: I64): (u: nat)
    ensures u < 0x1_0000_0000_0000_0000
    ensures (u - ts) % 0x1_0000_0000_0000_0000 == 0
  {
    if ts < 0 then ts + 0x1_0000_0000_0000_0000 else ts
  }

  /**
   * `now_ts & 1`, the mask of the source: the lowest binary digit of the timestamp's bit
   * pattern, which is 1 exactly on odd timestamps, negative ones included.
   */
  function LowBit(ts: I64): (b: nat)
    ensures b == 0 || b == 1
    ensures b == 1 <==> ts % 2 == 1
  {
    Bits(ts) % 2
  }

  /**
   * `init_bank(start_bank_balance, permitted_mint)`: the `init` attribute refuses a bank
   * account that already holds a record; the record is written with the banker as authority,
   * and `start_bank_balance` lamports are moved from the banker to the bank.
   */
  function InitBankStep(s: Ledger, startBankBalance: U64, permittedMint: Pubkey): (r: Result<Ledger>)
    ensures s.data.Some? ==> r == Err(AccountAlreadyInUse)
    ensures r.Ok? <==> s.data.None? && startBankBalance <= s.banker && s.bank + startBankBalance <= U64_MAX
    ensures s.data.None? && startBankBalance > s.banker ==> r == Err(InsufficientLamports)
    ensures r.Ok? ==> r.value.data == Some(Bank(s.bankerKey, permittedMint, 0))
    ensures r.Ok? ==> r.value.bank == s.bank + startBankBalance
    ensures r.Ok? ==> r.value.banker + r.value.bank == s.banker + s.bank
    ensures r.Ok? ==> r.value.caller == s.caller
    ensures r.Ok? ==> r.value.bankerKey == s.bankerKey && r.value.callerKey == s.callerKey
  {
    if s.data.Some? then Err(AccountAlreadyInUse)
    else
      match Transfer(s.banker, s.bank, startBankBalance)
      case Err(e) => Err(e)
      case Ok(moved) =>
        Ok(s.(banker := moved.0, bank := moved.1, data := Some(Bank(s.bankerKey, permittedMint, 0))))
  }

  /**
   * The account checks of `gamble` before its body runs: the bank account must hold a
   * record, the caller must hold the stake, and the bank twice the stake (the doubling is a
   * checked `u64` multiplication). Returns the error the instruction fails with, if any.
   */
  function Admission(s: Ledger, amount: U64): (e: Option<Error>)
    ensures e.None? <==> s.data.Some? && amount <= s.caller && 2 * amount <= s.bank
    ensures s.data.None? ==> e == Some(AccountNotInitialized)
    ensures s.data.Some? && amount > s.caller ==> e == Some(ConstraintRaw(CallerAccount))
    ensures s.data.Some? && amount <= s.caller && 2 * amount > U64_MAX ==> e == Some(ArithmeticOverflow)
    ensures s.data.Some? && amount <= s.caller && 2 * amount <= U64_MAX && 2 * amount > s.bank ==>
              e == Some(ConstraintRaw(BankAccount))
  {
    if s.data.None? then Some(AccountNotInitialized)
    else if amount > s.caller then Some(ConstraintRaw(CallerAccount))
    else if 2 * amount > U64_MAX then Some(ArithmeticOverflow)
    else if 2 * amount > s.bank then Some(ConstraintRaw(BankAccount))
    else None
  }

  /**
   * `gamble(gamble_amount)` with the clock reading `w.ts`. An admitted eligible caller loses
   * the stake to the bank on an odd timestamp and wins twice the stake on any other; an
   * admitted ineligible caller is drained. A failed step leaves every account unchanged.
   */
  function GambleStep(s: Ledger, w: Wager, ataOf: AtaDerivation): (r: Result<(Ledger, Outcome)>)
    ensures Admission(s, w.amount).Some? ==> r == Err(Admission(s, w.amount).value)
    ensures r.Ok? ==> s.data.Some? && w.amount <= s.caller && 2 * w.amount <= s.bank
    ensures r.Ok? ==> r.value.0.data == s.data && r.value.0.banker == s.banker
    ensures r.Ok? ==> r.value.0.bankerKey == s.bankerKey && r.value.0.callerKey == s.callerKey
    ensures r.Ok? ==> r.value.0.caller + r.value.0.bank == s.caller + s.bank
    ensures r.Ok? ==>
              (r.value.1 == Drained <==>
                 !Eligible(w.token, s.data.value.permittedMint, w.poolMintKey, s.callerKey, ataOf))
    ensures r.Ok? && r.value.1 != Drained ==> (r.value.1 == BankWon <==> w.ts % 2 == 1)
    ensures r.Ok? && r.value.1 == BankWon ==>
              r.value.0.caller == s.caller - w.amount && r.value.0.bank == s.bank + w.amount
    ensures r.Ok? && r.value.1 == CallerWon ==>
              r.value.0.caller == s.caller + 2 * w.amount && r.value.0.bank == s.bank - 2 * w.amount
    ensures r.Ok? && r.value.1 == Drained ==>
              r.value.0.caller == 0 && r.value.0.bank == s.bank + s.caller
  {
    match Admission(s, w.amount)
    case Some(e) => Err(e)
    case None =>
      if Eligible(w.token, s.data.value.permittedMint, w.poolMintKey, s.callerKey, ataOf) then
        if LowBit(w.ts) == 1 then
          match Transfer(s.caller, s.bank, w.amount)
          case Err(e) => Err(e)
          case Ok(moved) => Ok((s.(caller := moved.0, bank := moved.1), BankWon))
        else
          match Transfer(s.bank, s.caller, 2 * w.amount)
          case Err(e) => Err(e)
          case Ok(moved) => Ok((s.(bank := moved.0, caller := moved.1), CallerWon))
      else
        match Transfer(s.caller, s.bank, s.caller)
        case Err(e) => Err(e)
        case Ok(moved) => Ok((s.(caller := moved.0, bank := moved.1), Drained))
  }

  /**
   * The accounts after one `gamble` instruction: the runtime discards all writes of a failed
   * instruction, so a failure leaves the accounts as they were.
   */
  function After(s: Ledger, w: Wager, ataOf: AtaDerivation): (t: Ledger)
    ensures GambleStep(s, w, ataOf).Err? ==> t == s
    ensures t.data == s.data && t.banker == s.banker
    ensures t.bankerKey == s.bankerKey && t.callerKey == s.callerKey
    ensures t.caller + t.bank == s.caller + s.bank
  {
    match GambleStep(s, w, ataOf)
    case Ok(settled) => settled.0
    case Err(_) => s
  }

  /**
   * A sequence of `gamble` instructions against one bank, executed one after another as the
   * runtime serialises instructions that write the same account. Whatever the wagers, the
   * bank record, the banker and the caller+bank total are as before.
   */
  function Session(s: Ledger, ws: seq<Wager>, ataOf: AtaDerivation): (t: Ledger)
    ensures t.data == s.data && t.banker == s.banker
    ensures t.bankerKey == s.bankerKey && t.callerKey == s.callerKey
    ensures t.caller + t.bank == s.caller + s.bank
    decreases |ws|
  {
    if ws == [] then s else Session(After(s, ws[0], ataOf), ws[1..], ataOf)
  }
}
