/** Properties of the wager program that relate several instructions or name test scenarios. */
module ExclusiveProperties {
  import opened Solana
  import opened Exclusive

  /** A bank account that `init_bank` has written cannot be initialised again. */
  lemma InitBankOnlyOnce(s: Ledger, start: U64, mint: Pubkey, start': U64, mint': Pubkey)
    requires InitBankStep(s, start, mint).Ok?
    ensures InitBankStep(InitBankStep(s, start, mint).value, start', mint') == Err(AccountAlreadyInUse)
  {
  }

  /**
   * An admitted wager drains the caller exactly when one of the four conjuncts fails: its
   * token is of another mint than the bank's or the pool's, holds no token, or is not the
   * caller's associated token account. Such a wager sweeps the caller's whole balance into
   * the bank, or aborts when the bank's new balance would leave `u64`.
   */
  lemma AnyFailedConjunctDrains(s: Ledger, w: Wager, ataOf: AtaDerivation)
    requires Admission(s, w.amount).None?
    ensures var failed := || w.token.mint != s.data.value.permittedMint
                          || w.token.mint != w.poolMintKey
                          || w.token.amount == 0
                          || ataOf(s.callerKey, w.poolMintKey) != w.token.key;
            && (failed && s.bank + s.caller <= U64_MAX ==>
                  GambleStep(s, w, ataOf) == Ok((s.(caller := 0, bank := s.bank + s.caller), Drained)))
            && (failed && s.bank + s.caller > U64_MAX ==> GambleStep(s, w, ataOf) == Err(ArithmeticOverflow))
            && (GambleStep(s, w, ataOf).Ok? && GambleStep(s, w, ataOf).value.1 == Drained ==> failed)
  {
  }

  /**
   * Both outcomes are reachable for an eligible caller: the same admitted wager is lost on an
   * odd timestamp and won on an even one. Each settlement needs only its own credit to stay
   * within `u64`; when that credit would overflow, the instruction aborts.
   */
  lemma OutcomeFollowsParity(s: Ledger, w: Wager, ataOf: AtaDerivation)
    requires Admission(s, w.amount).None?
    requires Eligible(w.token, s.data.value.permittedMint, w.poolMintKey, s.callerKey, ataOf)
    ensures w.ts % 2 == 1 && s.bank + w.amount <= U64_MAX ==>
              GambleStep(s, w, ataOf) == Ok((s.(caller := s.caller - w.amount, bank := s.bank + w.amount), BankWon))
    ensures w.ts % 2 == 0 && s.caller + 2 * w.amount <= U64_MAX ==>
              GambleStep(s, w, ataOf) == Ok((s.(caller := s.caller + 2 * w.amount, bank := s.bank - 2 * w.amount), CallerWon))
    ensures w.ts % 2 == 1 && s.bank + w.amount > U64_MAX ==> GambleStep(s, w, ataOf) == Err(ArithmeticOverflow)
    ensures w.ts % 2 == 0 && s.caller + 2 * w.amount > U64_MAX ==> GambleStep(s, w, ataOf) == Err(ArithmeticOverflow)
  {
  }

  /** A rejected wager (failed account check) leaves all accounts as they were. */
  lemma RejectedWagerChangesNothing(s: Ledger, w: Wager, ataOf: AtaDerivation)
    requires w.amount > s.caller || 2 * w.amount > s.bank
    ensures GambleStep(s, w, ataOf).Err?
    ensures After(s, w, ataOf) == s
  {
  }

  /**
   * A caller with no lamports cannot get any back by gambling: every positive stake fails
   * the caller's constraint, and a zero stake moves nothing whatever the outcome. Funds
   * have to arrive from outside the program before such a caller can play again.
   */
  lemma {:induction false} DrainedCallerStaysDrained(s: Ledger, ws: seq<Wager>, ataOf: AtaDerivation)
    requires s.caller == 0
    ensures Session(s, ws, ataOf).caller == 0
    ensures Session(s, ws, ataOf).bank == s.bank
    decreases |ws|
  {
    if ws != [] {
      DrainedCallerStaysDrained(After(s, ws[0], ataOf), ws[1..], ataOf);
    }
  }
}
