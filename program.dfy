/**
 * The program's two instructions as methods that update, in place, the accounts of one
 * deployment: the banker's, the bank's and one caller's lamports, and the bank record.
 */
module ExclusiveProgram {
  import opened Solana
  import opened SystemProgram
  import opened Exclusive

  class Accounts {
    const bankerKey: Pubkey
    const callerKey: Pubkey
    var bankerLamports: U64
    var bankLamports: U64
    var callerLamports: U64

    /** Whether the bank account holds a bank record. */
    var initialized: bool
    var authority: Pubkey
    var permittedMint: Pubkey
    var count: U32

    /** The accounts as a `Ledger` value, the state the specification functions describe. */
    function State(): Ledger
      reads this
    {
      Ledger(bankerKey, callerKey, bankerLamports, bankLamports, callerLamports,
             if initialized then Some(Bank(authority, permittedMint, count)) else None)
    }

    /** Accounts before `init_bank`: the bank account holds lamports but no record. */
    constructor (bankerKey: Pubkey, callerKey: Pubkey, banker: U64, bank: U64, caller: U64)
      ensures State() == Ledger(bankerKey, callerKey, banker, bank, caller, None)
    {
      this.bankerKey, this.callerKey := bankerKey, callerKey;
      bankerLamports, bankLamports, callerLamports := banker, bank, caller;
      initialized := false;
      authority, permittedMint, count := ZeroKey, ZeroKey, 0;
    }

    /**
     * `init_bank(start_bank_balance, permitted_mint)`. On success the record holds the
     * banker as authority and `permittedMint`, and `startBankBalance` lamports have moved
     * from the banker to the bank; on failure nothing has changed.
     */
    method InitBank(startBankBalance: U64, permittedMint: Pubkey) returns (r: Result<()>)
      modifies this
      ensures var step := InitBankStep(old(State()), startBankBalance, permittedMint);
              if step.Ok? then r == Ok(()) && State() == step.value
              else r == Err(step.error) && State() == old(State())
      ensures r.Ok? ==> initialized && authority == bankerKey && this.permittedMint == permittedMint
      ensures r.Ok? ==> bankerLamports + bankLamports == old(bankerLamports + bankLamports)
      ensures callerLamports == old(callerLamports)
    {
      if initialized {
        return Err(AccountAlreadyInUse);
      }
      // The runtime discards every write of a failed instruction, so the record is only
      // committed once the deposit has gone through.
      var deposit := Transfer(bankerLamports, bankLamports, startBankBalance);
      if deposit.Err? {
        return Err(deposit.error);
      }
      initialized, count := true, 0;
      authority := bankerKey;
      this.permittedMint := permittedMint;
      bankerLamports, bankLamports := deposit.value.0, deposit.value.1;
      r := Ok(());
    }

    /**
     * `gamble(gamble_amount)` with `token_account`, the pool mint's key, the clock reading
     * `ts` and the associated-token-address derivation `ataOf`. On success the balances are
     * settled as `GambleStep` says and the outcome is returned; on failure nothing has
     * changed. The bank record is never written.
     */
    method Gamble(amount: U64, ts: I64, token: TokenAccount, poolMintKey: Pubkey, ataOf: AtaDerivation)
      returns (r: Result<Outcome>)
      modifies this
      ensures var step := GambleStep(old(State()), Wager(amount, ts, token, poolMintKey), ataOf);
              if step.Ok? then r == Ok(step.value.1) && State() == step.value.0
              else r == Err(step.error) && State() == old(State())
      ensures initialized == old(initialized) && authority == old(authority)
      ensures permittedMint == old(permittedMint) && count == old(count)
      ensures callerLamports + bankLamports == old(callerLamports + bankLamports)
    {
      // Account checks, in the order Anchor runs them.
      if !initialized {
        return Err(AccountNotInitialized);
      }
      if amount > callerLamports {
        return Err(ConstraintRaw(CallerAccount));
      }
      if 2 * amount > U64_MAX {
        return Err(ArithmeticOverflow);
      }
      if 2 * amount > bankLamports {
        return Err(ConstraintRaw(BankAccount));
      }
      if Eligible(token, permittedMint, poolMintKey, callerKey, ataOf) {
        var nowTs := LowBit(ts);
        if nowTs == 1 {
          // The caller loses: a system transfer of the stake to the bank.
          var moved := Transfer(callerLamports, bankLamports, amount);
          if moved.Err? {
            return Err(moved.error);
          }
          callerLamports, bankLamports := moved.value.0, moved.value.1;
          r := Ok(BankWon);
        } else {
          // The caller wins: the program debits the bank and credits the caller directly,
          // with checked `u64` arithmetic.
          var payout: U64 := 2 * amount;
          if callerLamports + payout > U64_MAX {
            return Err(ArithmeticOverflow);
          }
          bankLamports := bankLamports - payout;
          callerLamports := callerLamports + payout;
          r := Ok(CallerWon);
        }
      } else {
        // The caller is not eligible: a system transfer of the caller's whole balance.
        var moved := Transfer(callerLamports, bankLamports, callerLamports);
        if moved.Err? {
          return Err(moved.error);
        }
        callerLamports, bankLamports := moved.value.0, moved.value.1;
        r := Ok(Drained);
      }
    }
  }
}
