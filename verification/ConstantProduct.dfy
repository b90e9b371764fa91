/** Uniswap V2 swap arithmetic: integer constant-product quotes with a basis-point fee,
    computed in a calculator whose scratch fields are reused between calls. */
module ConstantProduct {
  import opened Arithmetic
  import opened Outcome

  const BASIS_POINTS := 10000

  datatype Pool = Pool(id: nat, token0: nat, token1: nat, reserve0: int, reserve1: int, kind: nat, feeBps: nat)

  datatype Error = NilAmount | InvalidAmount | TokenMismatch | InvalidState | InsufficientLiquidity

  function GetReserves(tokenIn: nat, tokenOut: nat, pool: Pool): Result<(int, int), Error> {
    if tokenIn == pool.token0 && tokenOut == pool.token1 then Ok((pool.reserve0, pool.reserve1))
    else if tokenIn == pool.token1 && tokenOut == pool.token0 then Ok((pool.reserve1, pool.reserve0))
    else Err(TokenMismatch)
  }

  /** The quote itself; big.Int division is Euclidean, like Dafny's. */
  function QuoteOut(x: int, y: int, fee: int, a: int): Result<int, Error> {
    var withFee := a * (BASIS_POINTS - fee);
    if x <= 0 || y <= 0 then Ok(0)
    else if x * BASIS_POINTS + withFee == 0 then Err(InvalidState)
    else Ok(y * withFee / (x * BASIS_POINTS + withFee))
  }

  function QuoteIn(x: int, y: int, fee: int, out: int): Result<int, Error> {
    if x <= 0 || y <= 0 || out >= y then Err(InsufficientLiquidity)
    else if (y - out) * (BASIS_POINTS - fee) == 0 then Err(InvalidState)
    else Ok(x * out * BASIS_POINTS / ((y - out) * (BASIS_POINTS - fee)) + 1)
  }

  function AmountOut(amountIn: Option<int>, tokenIn: nat, tokenOut: nat, pool: Pool): Result<int, Error> {
    if amountIn.None? then Err(NilAmount)
    else if amountIn.value < 0 then Err(InvalidAmount)
    else
      match GetReserves(tokenIn, tokenOut, pool)
      case Err(e) => Err(e)
      case Ok((x, y)) => QuoteOut(x, y, pool.feeBps, amountIn.value)
  }

  function AmountIn(amountOut: Option<int>, tokenIn: nat, tokenOut: nat, pool: Pool): Result<int, Error> {
    if amountOut.None? then Err(NilAmount)
    else if amountOut.value < 0 then Err(InvalidAmount)
    else
      match GetReserves(tokenIn, tokenOut, pool)
      case Err(e) => Err(e)
      case Ok((x, y)) => QuoteIn(x, y, pool.feeBps, amountOut.value)
  }

  function Simulate(amountIn: Option<int>, tokenIn: nat, tokenOut: nat, pool: Pool): Result<(int, Pool), Error> {
    match AmountOut(amountIn, tokenIn, tokenOut, pool)
    case Err(e) => Err(e)
    case Ok(out) =>
      Ok((out,
          if tokenIn == pool.token0
          then pool.(reserve0 := pool.reserve0 + amountIn.value, reserve1 := pool.reserve1 - out)
          else pool.(reserve1 := pool.reserve1 + amountIn.value, reserve0 := pool.reserve0 - out)))
  }

  /** The pooled calculator: whatever an earlier call left in the scratch fields, results do not depend on it. */
  class Calculator {
    var feeMultiplier: int
    var amountInWithFee: int
    var numerator: int
    var denominator: int
    var numeratorIn: int
    var denominatorIn: int
    var newReserve0: int
    var newReserve1: int

    constructor ()
    {
      feeMultiplier, amountInWithFee, numerator, denominator := 0, 0, 0, 0;
      numeratorIn, denominatorIn, newReserve0, newReserve1 := 0, 0, 0, 0;
    }

    method GetAmountOut(amountIn: Option<int>, tokenIn: nat, tokenOut: nat, pool: Pool) returns (r: Result<int, Error>)
      modifies this
      ensures r == AmountOut(amountIn, tokenIn, tokenOut, pool)
    {
      if amountIn.None? {
        return Err(NilAmount);
      }
      if amountIn.value < 0 {
        return Err(InvalidAmount);
      }
      var reserves := GetReserves(tokenIn, tokenOut, pool);
      if reserves.Err? {
        return Err(reserves.error);
      }
      var (reserveIn, reserveOut) := reserves.value;
      if reserveIn <= 0 || reserveOut <= 0 {
        return Ok(0);
      }
      feeMultiplier := BASIS_POINTS - pool.feeBps;
      amountInWithFee := amountIn.value * feeMultiplier;
      numerator := reserveOut * amountInWithFee;
      denominator := reserveIn * BASIS_POINTS;
      denominator := denominator + amountInWithFee;
      if denominator == 0 {
        return Err(InvalidState);
      }
      return Ok(numerator / denominator);
    }

    method GetAmountIn(amountOut: Option<int>, tokenIn: nat, tokenOut: nat, pool: Pool) returns (r: Result<int, Error>)
      modifies this
      ensures r == AmountIn(amountOut, tokenIn, tokenOut, pool)
    {
      if amountOut.None? {
        return Err(NilAmount);
      }
      if amountOut.value < 0 {
        return Err(InvalidAmount);
      }
      var reserves := GetReserves(tokenIn, tokenOut, pool);
      if reserves.Err? {
        return Err(reserves.error);
      }
      var (reserveIn, reserveOut) := reserves.value;
      if reserveIn <= 0 || reserveOut <= 0 || amountOut.value >= reserveOut {
        return Err(InsufficientLiquidity);
      }
      numeratorIn := reserveIn * amountOut.value;
      numeratorIn := numeratorIn * BASIS_POINTS;
      feeMultiplier := BASIS_POINTS - pool.feeBps;
      denominatorIn := reserveOut - amountOut.value;
      denominatorIn := denominatorIn * feeMultiplier;
      if denominatorIn == 0 {
        return Err(InvalidState);
      }
      var amountIn := numeratorIn / denominatorIn;
      return Ok(amountIn + 1);
    }

    method SimulateSwap(amountIn: Option<int>, tokenIn: nat, tokenOut: nat, pool: Pool)
      returns (r: Result<(int, Pool), Error>)
      modifies this
      ensures r == Simulate(amountIn, tokenIn, tokenOut, pool)
    {
      var quoted := GetAmountOut(amountIn, tokenIn, tokenOut, pool);
      if quoted.Err? {
        return Err(quoted.error);
      }
      var amountOut := quoted.value;
      if tokenIn == pool.token0 {
        newReserve0 := pool.reserve0 + amountIn.value;
        newReserve1 := pool.reserve1 - amountOut;
      } else {
        newReserve1 := pool.reserve1 + amountIn.value;
        newReserve0 := pool.reserve0 - amountOut;
      }
      return Ok((amountOut, pool.(reserve0 := newReserve0, reserve1 := newReserve1)));
    }
  }

  // ----- Integer bounds -----

  ghost predicate Live(x: int, y: int, fee: int) {
    x > 0 && y > 0 && 0 <= fee <= BASIS_POINTS
  }

  ghost function Denominator(x: int, fee: int, a: int): int {
    x * BASIS_POINTS + a * (BASIS_POINTS - fee)
  }

  lemma DenominatorBounds(x: int, y: int, fee: int, a: int)
    requires Live(x, y, fee) && a >= 0
    ensures 0 < x * BASIS_POINTS <= Denominator(x, fee, a) <= (x + a) * BASIS_POINTS
  {
    MulMono(0, BASIS_POINTS - fee, a);
    MulMono(BASIS_POINTS - fee, BASIS_POINTS, a);
  }

  /** An output `o` is payable exactly when what stays behind covers y * x. */
  lemma QuoteIsMaximal(x: int, y: int, fee: int, a: int, o: int)
    requires Live(x, y, fee) && a >= 0
    ensures QuoteOut(x, y, fee, a).Ok?
    ensures o <= QuoteOut(x, y, fee, a).value <==> y * x * BASIS_POINTS <= (y - o) * Denominator(x, fee, a)
    ensures o <= QuoteOut(x, y, fee, a).value <==> y * x * 10000 <= (y - o) * (x * 10000 + a * (10000 - fee))
  {
    var d := Denominator(x, fee, a);
    var withFee := a * (BASIS_POINTS - fee);
    DenominatorBounds(x, y, fee, a);
    FloorIs(y * withFee, d, o);
    calc {
      (y - o) * d;
      y * d - o * d;
      { assert y * d == y * (x * BASIS_POINTS) + y * withFee; }
      y * (x * BASIS_POINTS) + y * withFee - o * d;
      { assert y * (x * BASIS_POINTS) == y * x * BASIS_POINTS; }
      y * x * BASIS_POINTS + y * withFee - o * d;
    }
  }

  lemma QuoteBounds(x: int, y: int, fee: int, a: int)
    requires Live(x, y, fee) && a >= 0
    ensures var r := QuoteOut(x, y, fee, a); r.Ok? && 0 <= r.value < y
  {
    var d := Denominator(x, fee, a);
    DenominatorBounds(x, y, fee, a);
    QuoteIsMaximal(x, y, fee, a, 0);
    MulMono(x * BASIS_POINTS, d, y);
    QuoteIsMaximal(x, y, fee, a, y);
    MulMono(1, x * BASIS_POINTS, y);
  }

  lemma QuoteKeepsProduct(x: int, y: int, fee: int, a: int)
    requires Live(x, y, fee) && a >= 0
    ensures var r := QuoteOut(x, y, fee, a); r.Ok? && x * y <= (x + a) * (y - r.value)
  {
    QuoteBounds(x, y, fee, a);
    var o := QuoteOut(x, y, fee, a).value;
    var d := Denominator(x, fee, a);
    QuoteIsMaximal(x, y, fee, a, o);
    DenominatorBounds(x, y, fee, a);
    MulMono(d, (x + a) * BASIS_POINTS, y - o);
    assert (y - o) * ((x + a) * BASIS_POINTS) == (x + a) * (y - o) * BASIS_POINTS;
    assert y * x * BASIS_POINTS == x * y * BASIS_POINTS;
    MulCancel(x * y, (x + a) * (y - o), BASIS_POINTS);
  }

  /** The two-step denominators never undercut the one-step one; the gap is the fee kept by the pool. */
  lemma SplitDenominators(x: int, y: int, fee: int, a: int, b: int)
    requires Live(x, y, fee) && a >= 0 && b >= 0
    ensures Denominator(x, fee, a) * Denominator(x + a, fee, b) <= (x + a) * BASIS_POINTS * Denominator(x, fee, a + b)
  {
    SplitGap(x, a, b, BASIS_POINTS, BASIS_POINTS - fee);
  }

  lemma SplitGap(x: int, a: int, b: int, s: int, f: int)
    requires a >= 0 && b >= 0 && 0 <= f <= s
    ensures (x * s + a * f) * ((x + a) * s + b * f) <= (x + a) * s * (x * s + (a + b) * f)
  {
    var p := f * (s - f);
    MulMono(0, f, s - f);
    MulMono(0, a, b);
    MulMono(0, p, a * b);
    SplitIdentity(x, a, b, s, f);
  }

  lemma SplitIdentity(x: int, a: int, b: int, s: int, f: int)
    ensures (x + a) * s * (x * s + (a + b) * f) - (x * s + a * f) * ((x + a) * s + b * f) == f * (s - f) * (a * b)
  {
    var u, v, w := x * s, a * f, b * f;
    assert (x + a) * s == u + a * s;
    assert (a + b) * f == v + w;
    assert (u + a * s) * (u + (v + w)) == u * u + u * v + u * w + a * s * u + a * s * v + a * s * w;
    assert (u + v) * (u + a * s + w) == u * u + u * (a * s) + u * w + v * u + v * (a * s) + v * w;
    assert a * s * w - v * w == (a * s - v) * w;
    assert a * s - v == a * (s - f);
    assert a * (s - f) * (b * f) == f * (s - f) * (a * b);
  }

  lemma SplitCore(x: int, y: int, fee: int, a: int, b: int)
    requires Live(x, y, fee) && a >= 0 && b >= 0
    ensures var o1 := QuoteOut(x, y, fee, a);
            && o1.Ok? && o1.value < y
            && var o2 := QuoteOut(x + a, y - o1.value, fee, b);
               var o := QuoteOut(x, y, fee, a + b);
               o2.Ok? && o.Ok? && o1.value + o2.value <= o.value
  {
    hide QuoteOut, Denominator;
    QuoteBounds(x, y, fee, a);
    var o1 := QuoteOut(x, y, fee, a).value;
    var y1 := y - o1;
    QuoteBounds(x + a, y1, fee, b);
    var o2 := QuoteOut(x + a, y1, fee, b).value;
    var y2 := y1 - o2;
    var d1, d2, d := Denominator(x, fee, a), Denominator(x + a, fee, b), Denominator(x, fee, a + b);
    QuoteIsMaximal(x, y, fee, a, o1);
    QuoteIsMaximal(x + a, y1, fee, b, o2);
    DenominatorBounds(x, y, fee, a);
    DenominatorBounds(x + a, y1, fee, b);
    DenominatorBounds(x, y, fee, a + b);
    SplitDenominators(x, y, fee, a, b);
    MulAssociates(y1, x + a, BASIS_POINTS);
    assert y - (o1 + o2) == y2;
    assert y * x * BASIS_POINTS >= 0 by { MulMono(0, x, y); }
    SplitChain(y * x * BASIS_POINTS, (x + a) * BASIS_POINTS, y1, y2, d1, d2, d);
    QuoteIsMaximal(x, y, fee, a + b, o1 + o2);
  }

  /** From k <= y1*d1, y1*s <= y2*d2 and d1*d2 <= s*d it follows that k <= y2*d. */
  lemma SplitChain(k: int, s: int, y1: int, y2: int, d1: int, d2: int, d: int)
    requires k <= y1 * d1 && y1 * s <= y2 * d2 && d1 * d2 <= s * d
    requires k >= 0 && s > 0 && d > 0 && d1 > 0 && d2 > 0 && y2 >= 0
    ensures k <= y2 * d
  {
    MulMono(k, y1 * d1, s * d);
    MulMono(0, d1, d);
    MulMono(y1 * s, y2 * d2, d1 * d);
    MulMono(0, y2, d);
    MulMono(d1 * d2, s * d, y2 * d);
    MulSwap(y1, d1, s, d);
    MulSwap(y2, d2, d, d1);
    MulMono(1, d, s);
    MulCancel(k, y2 * d, s * d);
  }

  // ----- Whole-pool laws -----

  ghost predicate Tradable(pool: Pool) {
    pool.reserve0 > 0 && pool.reserve1 > 0 && pool.feeBps <= BASIS_POINTS && pool.token0 != pool.token1
  }

  ghost predicate Matches(tokenIn: nat, tokenOut: nat, pool: Pool) {
    || (tokenIn == pool.token0 && tokenOut == pool.token1)
    || (tokenIn == pool.token1 && tokenOut == pool.token0)
  }

  /** What each query answers without a price: a missing or negative amount and foreign tokens are refused, in that
      order; an empty reserve quotes zero out, and cannot be bought from. */
  lemma QueriesRefuse(amount: Option<int>, tokenIn: nat, tokenOut: nat, pool: Pool)
    ensures var out, need := AmountOut(amount, tokenIn, tokenOut, pool), AmountIn(amount, tokenIn, tokenOut, pool);
            && (amount == None ==> out == Err(NilAmount) && need == Err(NilAmount))
            && (amount.Some? && amount.value < 0 ==> out == Err(InvalidAmount) && need == Err(InvalidAmount))
            && (amount.Some? && amount.value >= 0 && !Matches(tokenIn, tokenOut, pool) ==>
                  out == Err(TokenMismatch) && need == Err(TokenMismatch))
            && var dry := pool.reserve0 <= 0 || pool.reserve1 <= 0;
               (amount.Some? && amount.value >= 0 && Matches(tokenIn, tokenOut, pool) && dry ==>
                  out == Ok(0) && need == Err(InsufficientLiquidity))
  {
  }

  /** A simulated swap fails as its quote does; otherwise it moves exactly the amounts between the reserves. */
  lemma SimulateConserves(amountIn: Option<int>, tokenIn: nat, tokenOut: nat, pool: Pool)
    requires pool.token0 != pool.token1
    ensures var quote, r := AmountOut(amountIn, tokenIn, tokenOut, pool), Simulate(amountIn, tokenIn, tokenOut, pool);
            && (quote.Err? ==> r == Err(quote.error))
            && (quote.Ok? ==>
                  && r.Ok? && r.value.0 == quote.value && Matches(tokenIn, tokenOut, pool)
                  && var (x0, x1) := (r.value.1.reserve0, r.value.1.reserve1);
                     && r.value.1 == pool.(reserve0 := x0, reserve1 := x1)
                     && x0 - pool.reserve0 == (if tokenIn == pool.token0 then amountIn.value else -quote.value)
                     && x1 - pool.reserve1 == if tokenIn == pool.token1 then amountIn.value else -quote.value)
  {
  }

  /** An input is quoted exactly when the output is below the reserve and the fee leaves something to trade; it is one
      more than the largest q that does not exceed the exact price. */
  lemma AmountInExactly(pool: Pool, tokenIn: nat, tokenOut: nat, out: nat, q: int)
    requires Tradable(pool) && Matches(tokenIn, tokenOut, pool)
    ensures var x := if tokenIn == pool.token0 then pool.reserve0 else pool.reserve1;
            var y := if tokenIn == pool.token0 then pool.reserve1 else pool.reserve0;
            var need := AmountIn(Some(out), tokenIn, tokenOut, pool);
            && (need.Ok? <==> out < y && pool.feeBps < 10000)
            && (out >= y ==> need == Err(InsufficientLiquidity))
            && (out < y && pool.feeBps == 10000 ==> need == Err(InvalidState))
            && (need.Ok? ==>
                  (q * ((y - out) * (10000 - pool.feeBps)) <= x * out * 10000 <==> q <= need.value - 1))
  {
    var x := if tokenIn == pool.token0 then pool.reserve0 else pool.reserve1;
    var y := if tokenIn == pool.token0 then pool.reserve1 else pool.reserve0;
    var f := 10000 - pool.feeBps;
    if out < y {
      if f == 0 {
        assert (y - out) * f == 0;
      } else {
        MulMono(1, y - out, f);
        FloorIs(x * out * 10000, (y - out) * f, q);
      }
    }
  }

  /** Splitting a trade never beats making it at once, floors included. */
  lemma SplitNeverBeatsWhole(pool: Pool, tokenIn: nat, tokenOut: nat, a: nat, b: nat)
    requires Tradable(pool) && GetReserves(tokenIn, tokenOut, pool).Ok?
    ensures var first := Simulate(Some(a), tokenIn, tokenOut, pool);
            && first.Ok?
            && var second := AmountOut(Some(b), tokenIn, tokenOut, first.value.1);
               var whole := AmountOut(Some(a + b), tokenIn, tokenOut, pool);
               second.Ok? && whole.Ok? && first.value.0 + second.value <= whole.value
  {
    var (x, y) := GetReserves(tokenIn, tokenOut, pool).value;
    SplitCore(x, y, pool.feeBps, a, b);
  }

  /** On an empty input side the code quotes zero yet accepts the deposit, so a second trade can be paid:
      the law holds exactly when that cannot happen. */
  lemma SplitLawExact(x: nat, y: nat, fee: nat)
    requires fee <= BASIS_POINTS
    ensures (forall a: nat, b: nat :: SplitHolds(x, y, fee, a, b)) <==> (x > 0 || y <= 1 || fee == BASIS_POINTS)
  {
    if x > 0 || y <= 1 || fee == BASIS_POINTS {
      forall a: nat, b: nat ensures SplitHolds(x, y, fee, a, b) {
        SplitHoldsWhen(x, y, fee, a, b);
      }
    } else {
      SplitFailsWhen(y, fee);
    }
  }

  lemma SplitHoldsWhen(x: nat, y: nat, fee: nat, a: nat, b: nat)
    requires fee <= BASIS_POINTS && (x > 0 || y <= 1 || fee == BASIS_POINTS)
    ensures SplitHolds(x, y, fee, a, b)
  {
    if x > 0 && y > 0 {
      SplitCore(x, y, fee, a, b);
    } else if y == 1 && a > 0 {
      QuoteBounds(a, 1, fee, b);
    }
  }

  lemma SplitFailsWhen(y: nat, fee: nat)
    requires y >= 2 && fee < BASIS_POINTS
    ensures !SplitHolds(0, y, fee, 1, BASIS_POINTS)
  {
    var n := BASIS_POINTS * (BASIS_POINTS - fee);
    MulMono(2, y, n);
    FloorIs(y * n, BASIS_POINTS + n, 1);
  }

  ghost predicate SplitHolds(x: nat, y: nat, fee: nat, a: nat, b: nat) {
    var o1 := QuoteOut(x, y, fee, a);
    o1.Ok? &&
    var o2 := QuoteOut(x + a, y - o1.value, fee, b);
    var o := QuoteOut(x, y, fee, a + b);
    o2.Ok? && o.Ok? && o1.value + o2.value <= o.value
  }

  /** The quoted input is enough, and no smaller by more than one unit than any input that is enough. */
  lemma AmountInSufficientAndTight(pool: Pool, tokenIn: nat, tokenOut: nat, out: nat)
    requires Tradable(pool) && pool.feeBps < BASIS_POINTS
    requires GetReserves(tokenIn, tokenOut, pool).Ok? && out < GetReserves(tokenIn, tokenOut, pool).value.1
    ensures var need := AmountIn(Some(out), tokenIn, tokenOut, pool);
            && need.Ok? && need.value > 0
            && var got := AmountOut(Some(need.value), tokenIn, tokenOut, pool);
               got.Ok? && got.value >= out
    ensures forall a: nat :: var got := AmountOut(Some(a), tokenIn, tokenOut, pool);
            got.Ok? && got.value >= out ==> a >= AmountIn(Some(out), tokenIn, tokenOut, pool).value - 1
  {
    var (x, y) := GetReserves(tokenIn, tokenOut, pool).value;
    var fee := pool.feeBps;
    var f := BASIS_POINTS - fee;
    var n, d := x * out * BASIS_POINTS, (y - out) * f;
    MulMono(1, y - out, f);
    MulMono(0, out, x);
    var q := n / d;
    FloorIs(n, d, 0);
    FloorIs(n, d, q + 1);
    EnoughInput(x, y, fee, q + 1, out);
    forall a: nat
      ensures AmountOut(Some(a), tokenIn, tokenOut, pool).Ok?
      ensures AmountOut(Some(a), tokenIn, tokenOut, pool).value >= out ==> a >= q
    {
      EnoughInput(x, y, fee, a, out);
      if n <= a * d { FloorIs(n, d, q); MulCancel(q, a, d); }
    }
  }

  lemma EnoughInput(x: int, y: int, fee: int, a: int, out: int)
    requires Live(x, y, fee) && a >= 0
    ensures QuoteOut(x, y, fee, a).Ok?
    ensures out <= QuoteOut(x, y, fee, a).value <==> x * out * BASIS_POINTS <= a * ((y - out) * (BASIS_POINTS - fee))
  {
    QuoteIsMaximal(x, y, fee, a, out);
    var f := BASIS_POINTS - fee;
    calc {
      (y - out) * Denominator(x, fee, a);
      (y - out) * (x * BASIS_POINTS) + (y - out) * (a * f);
      { assert (y - out) * (x * BASIS_POINTS) == y * x * BASIS_POINTS - x * out * BASIS_POINTS; }
      y * x * BASIS_POINTS - x * out * BASIS_POINTS + (y - out) * (a * f);
      { assert (y - out) * (a * f) == a * ((y - out) * f); }
      y * x * BASIS_POINTS - x * out * BASIS_POINTS + a * ((y - out) * f);
    }
  }

  // ----- Runs of simulated swaps -----

  datatype Swap = Swap(amountIn: Option<int>, tokenIn: nat, tokenOut: nat)

  /** A rejected swap leaves the caller with the pool it had. */
  function Trade(pool: Pool, s: Swap): Pool {
    match Simulate(s.amountIn, s.tokenIn, s.tokenOut, pool)
    case Ok((_, next)) => next
    case Err(_) => pool
  }

  function TradeAll(pool: Pool, swaps: seq<Swap>): Pool {
    if swaps == [] then pool else Trade(TradeAll(pool, swaps[..|swaps| - 1]), swaps[|swaps| - 1])
  }

  lemma TradeStep(pool: Pool, swaps: seq<Swap>, s: Swap)
    ensures TradeAll(pool, []) == pool && TradeAll(pool, swaps + [s]) == Trade(TradeAll(pool, swaps), s)
  {
    assert (swaps + [s])[..|swaps|] == swaps;
  }

  lemma TradeKeepsProduct(pool: Pool, s: Swap)
    requires Tradable(pool)
    ensures var next := Trade(pool, s);
            && Tradable(next) && next == pool.(reserve0 := next.reserve0, reserve1 := next.reserve1)
            && pool.reserve0 * pool.reserve1 <= next.reserve0 * next.reserve1
  {
    if Simulate(s.amountIn, s.tokenIn, s.tokenOut, pool).Ok? {
      var (x, y) := GetReserves(s.tokenIn, s.tokenOut, pool).value;
      QuoteBounds(x, y, pool.feeBps, s.amountIn.value);
      QuoteKeepsProduct(x, y, pool.feeBps, s.amountIn.value);
    }
  }

  /** Over any run of swaps in either direction the product never falls and both reserves stay positive. */
  lemma {:induction false} RunKeepsProduct(pool: Pool, swaps: seq<Swap>)
    requires Tradable(pool)
    ensures var last := TradeAll(pool, swaps);
            && Tradable(last) && last == pool.(reserve0 := last.reserve0, reserve1 := last.reserve1)
            && pool.reserve0 * pool.reserve1 <= last.reserve0 * last.reserve1
  {
    if swaps != [] {
      var n := |swaps| - 1;
      RunKeepsProduct(pool, swaps[..n]);
      TradeKeepsProduct(TradeAll(pool, swaps[..n]), swaps[n]);
    }
  }

  /** No run of swaps takes from one reserve without adding to the other. */
  lemma NoFreeLunch(pool: Pool, swaps: seq<Swap>)
    requires Tradable(pool)
    ensures var last := TradeAll(pool, swaps);
            && (last.reserve1 < pool.reserve1 ==> last.reserve0 > pool.reserve0)
            && (last.reserve0 < pool.reserve0 ==> last.reserve1 > pool.reserve1)
            && (last.reserve1 == pool.reserve1 ==> last.reserve0 >= pool.reserve0)
  {
    hide TradeAll;
    RunKeepsProduct(pool, swaps);
    var last := TradeAll(pool, swaps);
    MulCommutes(pool.reserve0, pool.reserve1);
    MulCommutes(last.reserve0, last.reserve1);
    ProductOrder(pool.reserve0, pool.reserve1, last.reserve0, last.reserve1);
    ProductOrder(pool.reserve1, pool.reserve0, last.reserve1, last.reserve0);
  }

  lemma ProductOrder(x: int, y: int, x': int, y': int)
    requires x > 0 && y > 0 && x' > 0 && y' > 0 && x * y <= x' * y'
    ensures y' < y ==> x < x'
    ensures y' <= y ==> x <= x'
  {
    if y' <= y && x' <= x {
      MulMono(x', x, y');
      MulCommutes(x, y);
      MulCommutes(x, y');
      MulCancel(y, y', x);
      MulCancel(x, x', y);
    }
  }

  /** Swapping there and straight back never returns more than was put in. */
  lemma RoundTripLoses(pool: Pool, tokenIn: nat, tokenOut: nat, a: nat)
    requires Tradable(pool) && GetReserves(tokenIn, tokenOut, pool).Ok?
    ensures var there := Simulate(Some(a), tokenIn, tokenOut, pool);
            && there.Ok? && there.value.0 >= 0
            && var back := AmountOut(Some(there.value.0), tokenOut, tokenIn, there.value.1);
               back.Ok? && back.value <= a
  {
    var (x, y) := GetReserves(tokenIn, tokenOut, pool).value;
    QuoteBounds(x, y, pool.feeBps, a);
    var (o, mid) := Simulate(Some(a), tokenIn, tokenOut, pool).value;
    QuoteBounds(y - o, x + a, pool.feeBps, o);
    var swaps := [Swap(Some(a), tokenIn, tokenOut), Swap(Some(o), tokenOut, tokenIn)];
    assert swaps[..1][..0] == [] && swaps[..1] == [swaps[0]];
    assert TradeAll(pool, swaps[..1]) == Trade(TradeAll(pool, swaps[..1][..0]), swaps[0]);
    NoFreeLunch(pool, swaps);
  }
}
