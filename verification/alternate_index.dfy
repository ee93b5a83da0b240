/**
 * alternate_index.js: the same record and swap as index.js, but addLiquidity
 * takes a single amount and deposits it on both sides 1:1.
 */
module AlternateIndex {
  import opened Amm

  /** The record `data` that each operation loads, updates in place and saves. */
  class Database {
    var poolA: real   // data.pool.tokenA
    var poolB: real   // data.pool.tokenB
    var k: real       // data.pool.K
    var userA: real   // data.userBalance.tokenA
    var userB: real   // data.userBalance.tokenB

    /** The five numbers as a value. */
    function State(): Ledger
      reads this
    {
      Ledger(poolA, poolB, k, userA, userB)
    }

    /** The pool invariant on the current fields. */
    ghost predicate Valid()
      reads this
    {
      Consistent(State())
    }

    /** The record as loaded from the database file. */
    constructor (loaded: Ledger)
      ensures State() == loaded
    {
      poolA, poolB, k := loaded.poolA, loaded.poolB, loaded.k;
      userA, userB := loaded.userA, loaded.userB;
    }

    /**
     * Deposits `amount` of each token, a fixed 1:1 ratio whatever the pool's
     * price, and recomputes K from the new reserves; the wallet is not
     * touched. From any non-negative reserves the pool invariant holds
     * afterwards.
     */
    method AddLiquidity(amount: real)
      requires amount > 0.0
      modifies this
      ensures State() == Deposit(old(State()), amount, amount)
      ensures poolA - old(poolA) == poolB - old(poolB) == amount
      ensures userA == old(userA) && userB == old(userB)
      ensures old(poolA) >= 0.0 && old(poolB) >= 0.0 ==> Valid()
    {
      var amountB := amount;
      poolA := poolA + amount;
      poolB := poolB + amountB;
      k := poolA * poolB;
    }

    /**
     * Swaps `amount` of the input token for the output token. When the amount
     * exceeds the wallet's input balance it reports which token was short and
     * changes nothing; otherwise it moves the amount into the pool and the
     * received amount into the wallet, leaving K as it was.
     */
    method Swap(direction: Direction, amount: real) returns (outcome: SwapOutcome)
      requires amount > 0.0 && poolA >= 0.0 && poolB >= 0.0
      modifies this
      ensures SwapResult(outcome, State()) == Amm.Swap(old(State()), direction, amount)
      ensures outcome.InsufficientBalance? ==> unchanged(this)
      ensures k == old(k)
      ensures old(Valid()) ==> Valid()
    {
      if direction == AToB {
        if amount > userA {
          return InsufficientBalance(TokenA);
        }
        var received := Received(poolA, poolB, k, amount);
        userA := userA - amount;
        userB := userB + received;
        poolA := poolA + amount;
        poolB := poolB - received;
        outcome := Swapped(received);
      } else {
        if amount > userB {
          return InsufficientBalance(TokenB);
        }
        var received := Received(poolB, poolA, k, amount);
        userB := userB - amount;
        userA := userA + received;
        poolB := poolB + amount;
        poolA := poolA - received;
        outcome := Swapped(received);
      }
      if old(Valid()) {
        SwapKeepsInvariant(old(State()), direction, amount);
      }
    }
  }

  /**
   * Pool 100/100 with K 10000 and wallet 50/0: swapping 10 of token A pays
   * out 100/11 of token B.
   */
  method SwapScenario() returns (outcome: SwapOutcome, after: Ledger)
    ensures outcome == Swapped(100.0 / 11.0)
    ensures after == Ledger(110.0, 1000.0 / 11.0, 10000.0, 40.0, 100.0 / 11.0)
  {
    var data := new Database(Ledger(100.0, 100.0, 10000.0, 50.0, 0.0));
    outcome := data.Swap(AToB, 10.0);
    after := data.State();
  }

  /** The same starting pool with 25 added on each side gives 125/125 and K 15625. */
  method AddLiquidityScenario() returns (after: Ledger)
    ensures after == Ledger(125.0, 125.0, 15625.0, 50.0, 0.0)
  {
    var data := new Database(Ledger(100.0, 100.0, 10000.0, 50.0, 0.0));
    data.AddLiquidity(25.0);
    after := data.State();
  }
}
