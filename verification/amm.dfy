/**
 * The constant-product (x * y = K) pool engine shared by both copies of the
 * simulator: the persisted record, the price formula, and the effect of a
 * liquidity deposit and of a swap on that record, as pure functions.
 * The classes in modules Index and AlternateIndex update the same five numbers
 * in place and are proved against these functions.
 */
module Amm {

  /** The two assets of the single trading pair. */
  datatype Token = TokenA | TokenB

  /** The two choices offered by the swap prompt. */
  datatype Direction = AToB | BToA

  /**
   * The persisted database: `pool.tokenA`, `pool.tokenB`, `pool.K`,
   * `userBalance.tokenA` and `userBalance.tokenB`. JavaScript numbers are
   * modelled as exact reals.
   */
  datatype Ledger = Ledger(poolA: real, poolB: real, k: real, userA: real, userB: real)

  /** What a swap reports: the amount received, or which balance was short. */
  datatype SwapOutcome = Swapped(received: real) | InsufficientBalance(token: Token)

  datatype SwapResult = SwapResult(outcome: SwapOutcome, ledger: Ledger)

  /** One swap request, as the menu collects it. */
  datatype Order = Order(direction: Direction, amount: real)

  /** The pool invariant: K is the product of two positive reserves. */
  predicate Consistent(s: Ledger)
  {
    s.k == s.poolA * s.poolB && s.poolA > 0.0 && s.poolB > 0.0
  }

  /** Neither wallet balance is negative. */
  predicate Solvent(s: Ledger)
  {
    s.userA >= 0.0 && s.userB >= 0.0
  }

  function Reverse(direction: Direction): Direction
  {
    match direction
    case AToB => BToA
    case BToA => AToB
  }

  /** The token the user gives up in a swap in this direction. */
  function InputToken(direction: Direction): Token
  {
    match direction
    case AToB => TokenA
    case BToA => TokenB
  }

  function InputBalance(s: Ledger, direction: Direction): real
  {
    match direction
    case AToB => s.userA
    case BToA => s.userB
  }

  function OutputBalance(s: Ledger, direction: Direction): real
  {
    match direction
    case AToB => s.userB
    case BToA => s.userA
  }

  function InputReserve(s: Ledger, direction: Direction): real
  {
    match direction
    case AToB => s.poolA
    case BToA => s.poolB
  }

  function OutputReserve(s: Ledger, direction: Direction): real
  {
    match direction
    case AToB => s.poolB
    case BToA => s.poolA
  }

  /**
   * The amount paid out for `amountIn` of the other token, priced with the
   * stored K rather than with the current product of the reserves. Whatever K
   * is, the reserves left after the trade multiply back to exactly K.
   */
  function Received(reserveIn: real, reserveOut: real, k: real, amountIn: real): (out: real)
    requires reserveIn + amountIn != 0.0
    ensures (reserveIn + amountIn) * (reserveOut - out) == k
  {
    reserveOut - k / (reserveIn + amountIn)
  }

  /** With a consistent K, a swap pays out something, and never the whole output reserve. */
  lemma ReceivedBounds(reserveIn: real, reserveOut: real, k: real, amountIn: real)
    requires reserveIn > 0.0 && reserveOut > 0.0 && amountIn > 0.0
    requires k == reserveIn * reserveOut
    ensures 0.0 < Received(reserveIn, reserveOut, k, amountIn) < reserveOut
  {
  }

  /**
   * Adding liquidity: both reserves grow by the deposited amounts, K is
   * recomputed from the new reserves whatever it was before, and the wallet
   * is not debited.
   */
  function Deposit(s: Ledger, amountA: real, amountB: real): (r: Ledger)
    requires amountA > 0.0 && amountB > 0.0
    ensures r.poolA == s.poolA + amountA && r.poolB == s.poolB + amountB
    ensures r.k == r.poolA * r.poolB
    ensures r.userA == s.userA && r.userB == s.userB
    ensures s.poolA >= 0.0 && s.poolB >= 0.0 ==> Consistent(r)
  {
    var poolA := s.poolA + amountA;
    var poolB := s.poolB + amountB;
    s.(poolA := poolA, poolB := poolB, k := poolA * poolB)
  }

  /**
   * A swap of `amount` in `direction`. It is refused, with nothing changed, when
   * the amount exceeds the wallet's balance of the input token; otherwise the
   * amount moves from the wallet into the pool and the received amount moves
   * from the pool into the wallet, and K is left as it was.
   */
  function Swap(s: Ledger, direction: Direction, amount: real): (r: SwapResult)
    requires amount > 0.0 && s.poolA >= 0.0 && s.poolB >= 0.0
    ensures r.outcome.InsufficientBalance? <==> amount > InputBalance(s, direction)
    ensures r.outcome.InsufficientBalance? ==>
      r.ledger == s && r.outcome.token == InputToken(direction)
    ensures r.ledger.k == s.k
    ensures r.ledger.poolA + r.ledger.userA == s.poolA + s.userA
    ensures r.ledger.poolB + r.ledger.userB == s.poolB + s.userB
    ensures r.outcome.Swapped? ==>
      && InputBalance(r.ledger, direction) == InputBalance(s, direction) - amount
      && InputBalance(r.ledger, direction) >= 0.0
      && InputReserve(r.ledger, direction) == InputReserve(s, direction) + amount
      && OutputBalance(r.ledger, direction) == OutputBalance(s, direction) + r.outcome.received
      && OutputReserve(r.ledger, direction) == OutputReserve(s, direction) - r.outcome.received
      && r.ledger.poolA * r.ledger.poolB == s.k
  {
    match direction
    case AToB =>
      if amount > s.userA then
        SwapResult(InsufficientBalance(TokenA), s)
      else
        var received := Received(s.poolA, s.poolB, s.k, amount);
        SwapResult(Swapped(received),
          s.(userA := s.userA - amount, userB := s.userB + received,
             poolA := s.poolA + amount, poolB := s.poolB - received))
    case BToA =>
      if amount > s.userB then
        SwapResult(InsufficientBalance(TokenB), s)
      else
        var received := Received(s.poolB, s.poolA, s.k, amount);
        SwapResult(Swapped(received),
          s.(userB := s.userB - amount, userA := s.userA + received,
             poolB := s.poolB + amount, poolA := s.poolA - received))
  }

  /**
   * From a consistent pool, a swap keeps the pool consistent with the same K,
   * pays out strictly between zero and the whole output reserve, and leaves a
   * solvent wallet solvent.
   */
  lemma SwapKeepsInvariant(s: Ledger, direction: Direction, amount: real)
    requires Consistent(s) && amount > 0.0
    ensures Consistent(Swap(s, direction, amount).ledger)
    ensures Swap(s, direction, amount).ledger.k == s.k
    ensures Swap(s, direction, amount).outcome.Swapped? ==>
      0.0 < Swap(s, direction, amount).outcome.received < OutputReserve(s, direction)
    ensures Solvent(s) ==> Solvent(Swap(s, direction, amount).ledger)
  {
    match direction
    case AToB => SwapAToBKeepsInvariant(s, amount);
    case BToA => SwapBToAKeepsInvariant(s, amount);
  }

  lemma SwapAToBKeepsInvariant(s: Ledger, amount: real)
    requires Consistent(s) && amount > 0.0
    ensures Consistent(Swap(s, AToB, amount).ledger)
    ensures Swap(s, AToB, amount).outcome.Swapped? ==>
      0.0 < Swap(s, AToB, amount).outcome.received < s.poolB
    ensures Solvent(s) ==> Solvent(Swap(s, AToB, amount).ledger)
  {
    if amount <= s.userA {
      ReceivedBounds(s.poolA, s.poolB, s.k, amount);
      var y := Received(s.poolA, s.poolB, s.k, amount);
      assert 0.0 < y < s.poolB;
      assert Swap(s, AToB, amount) == SwapResult(Swapped(y), s.(userA := s.userA - amount, userB := s.userB + y,
                     poolA := s.poolA + amount, poolB := s.poolB - y));
    }
  }

  lemma SwapBToAKeepsInvariant(s: Ledger, amount: real)
    requires Consistent(s) && amount > 0.0
    ensures Consistent(Swap(s, BToA, amount).ledger)
    ensures Swap(s, BToA, amount).outcome.Swapped? ==>
      0.0 < Swap(s, BToA, amount).outcome.received < s.poolA
    ensures Solvent(s) ==> Solvent(Swap(s, BToA, amount).ledger)
  {
    if amount <= s.userB {
      assert s.k == s.poolB * s.poolA;
      ReceivedBounds(s.poolB, s.poolA, s.k, amount);
      var y := Received(s.poolB, s.poolA, s.k, amount);
      assert 0.0 < y < s.poolA;
      assert Swap(s, BToA, amount) == SwapResult(Swapped(y), s.(userB := s.userB - amount, userA := s.userA + y,
                     poolB := s.poolB + amount, poolA := s.poolA - y));
    }
  }

  /**
   * A swap's precondition is kept by the swap itself: from non-negative
   * reserves and a non-negative K the reserves stay non-negative, even when K
   * no longer matches them. (A deposit re-establishes `Consistent`.)
   */
  lemma SwapKeepsReservesNonNegative(s: Ledger, direction: Direction, amount: real)
    requires amount > 0.0 && s.poolA >= 0.0 && s.poolB >= 0.0 && s.k >= 0.0
    ensures Swap(s, direction, amount).ledger.poolA >= 0.0
    ensures Swap(s, direction, amount).ledger.poolB >= 0.0
  {
  }

  /**
   * In exact arithmetic a swap followed by the reverse swap of the amount just
   * received hands back exactly the amount put in and restores every field.
   */
  lemma SwapRoundTrip(s: Ledger, direction: Direction, amount: real)
    requires Consistent(s) && OutputBalance(s, direction) >= 0.0
    requires 0.0 < amount <= InputBalance(s, direction)
    ensures Swap(s, direction, amount).outcome.Swapped?
    ensures
      var first := Swap(s, direction, amount);
      first.outcome.received > 0.0 &&
      Swap(first.ledger, Reverse(direction), first.outcome.received) == SwapResult(Swapped(amount), s)
  {
    match direction
    case AToB => SwapAToBRoundTrip(s, amount);
    case BToA => SwapBToARoundTrip(s, amount);
  }

  lemma SwapAToBRoundTrip(s: Ledger, amount: real)
    requires Consistent(s) && s.userB >= 0.0 && 0.0 < amount <= s.userA
    ensures Swap(s, AToB, amount).outcome.Swapped?
    ensures
      var first := Swap(s, AToB, amount);
      first.outcome.received > 0.0 &&
      Swap(first.ledger, BToA, first.outcome.received) == SwapResult(Swapped(amount), s)
  {
    SwapAToBKeepsInvariant(s, amount);
    var y := Received(s.poolA, s.poolB, s.k, amount);
    ReceivedBounds(s.poolA, s.poolB, s.k, amount);
    var mid := s.(userA := s.userA - amount, userB := s.userB + y,
                  poolA := s.poolA + amount, poolB := s.poolB - y);
    assert Swap(s, AToB, amount) == SwapResult(Swapped(y), mid);
    // The reverse trade brings reserve B back to where it was, so it is priced
    // at K over the old reserve B, which is the old reserve A.
    assert mid.poolB + y == s.poolB;
    assert Received(mid.poolB, mid.poolA, mid.k, y) == amount;
  }

  lemma SwapBToARoundTrip(s: Ledger, amount: real)
    requires Consistent(s) && s.userA >= 0.0 && 0.0 < amount <= s.userB
    ensures Swap(s, BToA, amount).outcome.Swapped?
    ensures
      var first := Swap(s, BToA, amount);
      first.outcome.received > 0.0 &&
      Swap(first.ledger, AToB, first.outcome.received) == SwapResult(Swapped(amount), s)
  {
    SwapBToAKeepsInvariant(s, amount);
    var y := Received(s.poolB, s.poolA, s.k, amount);
    assert s.k == s.poolB * s.poolA;
    ReceivedBounds(s.poolB, s.poolA, s.k, amount);
    var mid := s.(userB := s.userB - amount, userA := s.userA + y,
                  poolB := s.poolB + amount, poolA := s.poolA - y);
    assert Swap(s, BToA, amount) == SwapResult(Swapped(y), mid);
    assert mid.poolA + y == s.poolA;
    assert Received(mid.poolA, mid.poolB, mid.k, y) == amount;
  }

  /** The state after a sequence of swaps and no deposits. */
  function SwapAll(s: Ledger, orders: seq<Order>): (r: Ledger)
    requires Consistent(s)
    requires forall i :: 0 <= i < |orders| ==> orders[i].amount > 0.0
    ensures Consistent(r) && r.k == s.k
    ensures r.poolA + r.userA == s.poolA + s.userA
    ensures r.poolB + r.userB == s.poolB + s.userB
    ensures Solvent(s) ==> Solvent(r)
    decreases |orders|
  {
    if orders == [] then s
    else
      SwapKeepsInvariant(s, orders[0].direction, orders[0].amount);
      SwapAll(Swap(s, orders[0].direction, orders[0].amount).ledger, orders[1..])
  }
}
