/**
 * index.js: the in-memory database record and its two mutating operations.
 * Here addLiquidity takes the two deposit amounts independently.
 */
module Index {
  import opened Amm

  /** The record `data` that each operation loads, updates in place and saves. */
  class Database {
    var poolA: real   // data.pool.tokenA
    var poolB: real   // data.pool.tokenB
    var k: real       // data.pool.K
    var userA: real   // data.userBalance.tokenA
    var userB: real   // data.userBalance.tokenB

    /** The five numbers as a value. */
    function State(): Ledger
      reads this
    {
      Ledger(poolA, poolB, k, userA, userB)
    }

    /** The pool invariant on the current fields. */
    ghost predicate Valid()
      reads this
    {
      Consistent(State())
    }

    /** The record as loaded from the database file. */
    constructor (loaded: Ledger)
      ensures State() == loaded
    {
      poolA, poolB, k := loaded.poolA, loaded.poolB, loaded.k;
      userA, userB := loaded.userA, loaded.userB;
    }

    /**
     * Adds both amounts to the reserves and recomputes K from the new
     * reserves; the wallet is not touched. From any non-negative reserves,
     * whatever the old K, the pool invariant holds afterwards.
     */
    method AddLiquidity(amountA: real, amountB: real)
      requires amountA > 0.0 && amountB > 0.0
      modifies this
      ensures State() == Deposit(old(State()), amountA, amountB)
      ensures userA == old(userA) && userB == old(userB)
      ensures old(poolA) >= 0.0 && old(poolB) >= 0.0 ==> Valid()
    {
      poolA := poolA + amountA;
      poolB := poolB + amountB;
      k := poolA * poolB;
    }

    /**
     * Swaps `amount` of the input token for the output token. When the amount
     * exceeds the wallet's input balance it reports which token was short and
     * changes nothing; otherwise it moves the amount into the pool and the
     * received amount into the wallet, leaving K as it was.
     */
    method Swap(direction: Direction, amount: real) returns (outcome: SwapOutcome)
      requires amount > 0.0 && poolA >= 0.0 && poolB >= 0.0
      modifies this
      ensures SwapResult(outcome, State()) == Amm.Swap(old(State()), direction, amount)
      ensures outcome.InsufficientBalance? ==> unchanged(this)
      ensures k == old(k)
      ensures old(Valid()) ==> Valid()
    {
      if direction == AToB {
        if amount > userA {
          return InsufficientBalance(TokenA);
        }
        var received := Received(poolA, poolB, k, amount);
        userA := userA - amount;
        userB := userB + received;
        poolA := poolA + amount;
        poolB := poolB - received;
        outcome := Swapped(received);
      } else {
        if amount > userB {
          return InsufficientBalance(TokenB);
        }
        var received := Received(poolB, poolA, k, amount);
        userB := userB - amount;
        userA := userA + received;
        poolB := poolB + amount;
        poolA := poolA - received;
        outcome := Swapped(received);
      }
      if old(Valid()) {
        SwapKeepsInvariant(old(State()), direction, amount);
      }
    }
  }
}
