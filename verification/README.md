# Constant-product pool simulator, modelled in Dafny

The system is a single-user, offline simulator of a two-token automated
market maker priced by the constant-product rule x · y = K. Its state is one
record of five numbers: the pool's reserves `pool.tokenA` and `pool.tokenB`,
the stored constant `pool.K`, and the user's wallet `userBalance.tokenA` and
`userBalance.tokenB`. Two operations change it:

- **addLiquidity** adds amounts to both reserves and recomputes `K` as the
  product of the new reserves. It does not debit the wallet. In `index.js`
  the two amounts are entered independently. In `alternate_index.js` one
  amount is entered and deposited on both sides 1:1.
- **swapTokens** takes a direction (A→B or B→A) and an amount `x`. It refuses
  the swap when `x` exceeds the wallet's balance of the input token. Otherwise
  it pays out `reserveOut − K / (reserveIn + x)`, moves `x` from the wallet
  into the pool and the payout from the pool into the wallet. It leaves `K`
  as it is. The swap code is the same in both files.

Files:

- `amm.dfy`, module `Amm`: the record as a value (`Ledger`), the direction,
  the payout formula `Received`, and the effect of a deposit (`Deposit`), of a
  swap (`Swap`) and of a run of swaps (`SwapAll`) as pure functions. It also
  holds the lemmas about them: payout bounds, the pool invariant kept by a
  swap, and the exact round trip.
- `index.dfy`, module `Index`: class `Database` with the five fields, updated
  in place by `AddLiquidity(amountA, amountB)` and `Swap`.
- `alternate_index.dfy`, module `AlternateIndex`: the same class with the
  single-amount `AddLiquidity(amount)`, and two worked scenarios on the class
  whose results are proved.

Each mutating method is proved against the pure function in `Amm`: the new
state equals `Deposit` or `Swap` applied to the old state. The pool
invariant `Consistent` says `K == poolA * poolB` and both reserves are
positive. The methods promise to keep or establish it.

JavaScript numbers are modelled as exact reals. Three points about the
program that the model makes explicit:

- `index.js` takes the two deposit amounts independently; `alternate_index.js`
  takes one amount and mirrors it 1:1 onto token B. Both are modelled.
- In real arithmetic, from a consistent pool (K equal to the product of two
  positive reserves) and a non-negative wallet, an A→B swap of `x` followed
  by a B→A swap of the amount received restores every field exactly
  (`Amm.SwapRoundTrip`); only floating-point rounding can make it differ.
- The code only prints a success or an insufficient-balance message; the
  model's `Swap` returns the payout or the short token as its outcome.

## Model

| member | source | states |
|---|---|---|
| `Amm.Received` | index.js:92 | The payout priced with the stored K leaves reserves whose product is exactly that K: `(reserveIn + x) * (reserveOut - out) == K`. |
| `Amm.ReceivedBounds` | alternate_index.js:84 | With `K == reserveIn * reserveOut`, both reserves positive and `x > 0`, the payout satisfies `0 < out < reserveOut`, so one swap never empties the output reserve. |
| `Amm.Deposit` | index.js:55-58 | Reserves grow by the deposited amounts. K equals the product of the new reserves whatever it was before. The wallet is unchanged. From non-negative reserves the pool invariant holds afterwards. |
| `Amm.Swap` | index.js:85-113 | Refused exactly when the amount exceeds the input-side wallet balance; then the state is unchanged and the short token is reported. K is never changed. Pool-plus-wallet totals of each token are conserved. On success the input balance drops by the amount and stays `>= 0`. The pool gains the amount, the wallet gains the payout, the pool loses it. The new reserves multiply to the stored K. |
| `Amm.SwapKeepsInvariant` | alternate_index.js:84-100 | From a consistent pool, a swap in either direction leaves the pool consistent with the same K. It pays out strictly between 0 and the output reserve. It keeps non-negative wallet balances non-negative. |
| `Amm.SwapAToBKeepsInvariant` | index.js:92-98 | The A→B case of the above: new state consistent, `0 < payout < poolB`, wallet stays non-negative. |
| `Amm.SwapBToAKeepsInvariant` | index.js:107-113 | The B→A case of the above: new state consistent, `0 < payout < poolA`, wallet stays non-negative. |
| `Amm.SwapKeepsReservesNonNegative` | index.js:92-113 | From non-negative reserves and a non-negative K, a swap in either direction leaves both reserves non-negative, even when K does not match the reserves; so the precondition of `Swap` holds again after a swap. |
| `Amm.SwapRoundTrip` | index.js:92-113 | From a consistent pool and a non-negative balance of the output token (otherwise the reverse swap would be refused), a successful swap followed by the reverse swap of the amount received succeeds. It pays back exactly the original amount and restores all five fields. |
| `Amm.SwapAToBRoundTrip` | alternate_index.js:84-100 | The A→B-then-B→A case of the round trip. |
| `Amm.SwapBToARoundTrip` | index.js:92-113 | The B→A-then-A→B case of the round trip. |
| `Amm.SwapAll` | alternate_index.js:78-103 | Any sequence of positive swaps with no deposit keeps the pool consistent with the original K. It conserves each token's pool-plus-wallet total and keeps a non-negative wallet non-negative. |
| `Index.Database.constructor` | index.js:37 | The fields hold the loaded record. |
| `Index.Database.AddLiquidity` | index.js:55-58 | The new state is `Deposit` of the old state with the two amounts. The wallet fields are unchanged. From non-negative reserves the pool invariant holds afterwards, whatever the old K. |
| `Index.Database.Swap` | index.js:85-113 | The returned outcome and new state are `Amm.Swap` of the old state. A refused swap changes no field. K is not assigned. A consistent pool stays consistent. |
| `AlternateIndex.Database.constructor` | alternate_index.js:34 | The fields hold the loaded record. |
| `AlternateIndex.Database.AddLiquidity` | alternate_index.js:47-52 | The new state is `Deposit` of the old state with the same amount on both sides. Both reserves grow by exactly that amount. The wallet is unchanged. From non-negative reserves the pool invariant holds afterwards. |
| `AlternateIndex.Database.Swap` | alternate_index.js:78-100 | The returned outcome and new state are `Amm.Swap` of the old state. A refused swap changes no field. K is not assigned. A consistent pool stays consistent. |
| `AlternateIndex.SwapScenario` | alternate_index.js:84-88 | Pool 100/100, K 10000, wallet 50/0, swap 10 A→B: payout `100/11`, pool `110` and `1000/11`, K 10000, wallet `40` and `100/11`. |
| `AlternateIndex.AddLiquidityScenario` | alternate_index.js:47-52 | Pool 100/100, K 10000, adding 25: pool 125/125, K 15625, wallet unchanged. |

## Left out

- Reading and writing the JSON database file (`readDatabase`, `writeDatabase`). The record is held in memory; the constructor stands for the loaded record.
- The command-line setup, the `menu` command and its endless dispatch loop. `Amm.SwapAll` covers a run of swaps issued one after another.
- The input prompts, their validation lambdas and `parseFloat`. Amounts are taken as real numbers with the precondition `amount > 0`.
- Amounts that pass validation but reach the engine as 0. The prompts validate the text by numeric coercion (index.js:45, 51, 79; alternate_index.js:42, 72), while the operations convert it with `parseFloat` (index.js:56-57, 83; alternate_index.js:47, 76), so an input such as `0x10` is accepted and used as 0. A zero-amount swap pays out 0, so `0 < out` would not hold for it. The model excludes these inputs with its `amount > 0` preconditions.
- Coloured console messages, `viewPoolStatus` and `viewUserBalance` (they only print the record; `State()` is the read) and `exitProgram`.
- IEEE-754 rounding and overflow. All arithmetic is exact; no floating-point error bounds are stated. Overflow to `Infinity` is not modelled either: inputs such as `Infinity` or `1e309` pass validation (index.js:45, 51, 79; alternate_index.js:42, 72) and `parseFloat` turns them into `Infinity`, and reserves above about 1.3e154 make `K = tokenA * tokenB` overflow (index.js:58; alternate_index.js:52).
- Division by zero. When `reserveIn + x` is 0, JavaScript gives a non-finite payout. Both `Swap` methods and `Amm.Swap` instead require non-negative reserves, so the divisor is positive. Those reserves stay non-negative: `addLiquidity` sets K to the product of non-negative reserves, and a swap from non-negative reserves with K ≥ 0 keeps them non-negative (`Amm.SwapKeepsReservesNonNegative`).
- The source does not check that the stored K matches the reserves before a swap. The model does not assume it either. `Swap` states what happens for any K. The payout bounds and the invariant are proved only from a consistent pool.
