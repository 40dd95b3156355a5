/** The system program's lamport transfer, treated as one atomic move-or-fail step. */
module SystemProgram {
  import opened Solana

  /**
   * Moves `amount` lamports from a balance `from` to a balance `to` of a different account
   * and returns the two new balances. It fails when the source cannot cover the amount, and
   * when the credited balance would leave `u64`.
   */
  function Transfer(from: U64, to: U64, amount: U64): (r: Result<(U64, U64)>)
    ensures r.Ok? <==> amount <= from && to + amount <= U64_MAX
    ensures amount > from ==> r == Err(InsufficientLamports)
    ensures amount <= from && to + amount > U64_MAX ==> r == Err(ArithmeticOverflow)
    ensures r.Ok? ==> r.value.0 == from - amount && r.value.0 + r.value.1 == from + to
  {
    if amount > from then Err(InsufficientLamports)
    else if to + amount > U64_MAX then Err(ArithmeticOverflow)
    else Ok((from - amount, to + amount))
  }
}
