/** What a call costs: the estimate `agt provider check` prints (cmd/agt/check_json.go) against the
    governor's bill (kernel/governor/pricing_cost.go). Prices are microcents per million tokens. */
module Pricing {
  import Int64

  const PER_MTOK := 1_000_000
  const TWO_64 := 2 * Int64.TOP

  /** Go's division truncates toward zero. */
  function Quotient(n: int): int { if n >= 0 then n / PER_MTOK else -(-n / PER_MTOK) }

  datatype Price = Price(input: int, output: int, cacheRead: int, cacheWrite: int)

  predicate FitsPrice(p: Price) {
    Int64.Fits(p.input) && Int64.Fits(p.output) && Int64.Fits(p.cacheRead) && Int64.Fits(p.cacheWrite)
  }

  /** The command's estimate: each product divided on its own, in wrapping arithmetic. */
  function ComputeCost(input: int, output: int, p: Price): int {
    Int64.Wrap(Quotient(Int64.Wrap(input * p.input)) + Quotient(Int64.Wrap(output * p.output)))
  }

  // ---------- the governor's bill ----------

  /** The high and low halves of an unsigned 128-bit product decide whether it fits. */
  function SaturatingMul(tokens: int, price: int): int {
    if tokens <= 0 || price <= 0 then 0
    else
      var high, low := tokens * price / TWO_64, tokens * price % TWO_64;
      if high != 0 || low > Int64.MAX then Int64.MAX else low
  }

  function SaturatingAdd(a: int, b: int): int {
    var sum := Int64.Wrap(a + b);
    if sum < a then Int64.MAX else sum
  }

  function CostMicrocents(input: int, output: int, p: Price): int {
    SaturatingAdd(SaturatingMul(input, p.input), SaturatingMul(output, p.output)) / PER_MTOK
  }

  /** How a prompt's tokens are divided: plain, read from the cache, written to it. */
  datatype Shares = Shares(plain: int, cached: int, written: int)

  function Split(input: int, cached: int, written: int): Shares {
    var c0 := if cached < 0 then 0 else cached;
    var w0 := if written < 0 then 0 else written;
    var c := if c0 > input then input else c0;
    var w := if Int64.Wrap(c + w0) > input then Int64.Wrap(input - c) else w0;
    Shares(Int64.Wrap(Int64.Wrap(input - c) - w), c, w)
  }

  function CostMicrocentsCached(input: int, cached: int, written: int, output: int, p: Price): int {
    var s := Split(input, cached, written);
    var readRate := if p.cacheRead <= 0 then p.input else p.cacheRead;
    var writeRate := if p.cacheWrite <= 0 then p.input else p.cacheWrite;
    SaturatingAdd(
      SaturatingAdd(SaturatingMul(s.plain, p.input), SaturatingMul(s.cached, readRate)),
      SaturatingAdd(SaturatingMul(s.written, writeRate), SaturatingMul(output, p.output))) / PER_MTOK
  }

  // ---------- saturation ----------

  function Clamp(n: nat): nat { if n > Int64.MAX then Int64.MAX else n }

  function Charge(tokens: int, price: int): nat { if tokens <= 0 || price <= 0 then 0 else Product(tokens, price) }

  function Product(a: nat, b: nat): nat { a * b }

  lemma MulIsClampedCharge(tokens: int, price: int)
    ensures SaturatingMul(tokens, price) == Clamp(Charge(tokens, price))
  {
    if tokens > 0 && price > 0 {
      HalvesDecide(Product(tokens, price));
    }
  }

  lemma HalvesDecide(n: nat)
    ensures (n / TWO_64 != 0 || n % TWO_64 > Int64.MAX) <==> n > Int64.MAX
    ensures n <= Int64.MAX ==> n % TWO_64 == n
  {}

  lemma AddIsClampedSum(a: int, b: int)
    requires 0 <= a <= Int64.MAX && 0 <= b <= Int64.MAX
    ensures SaturatingAdd(a, b) == Clamp(a + b)
  {
  }

  lemma ClampOfClamps(m: nat, n: nat)
    ensures SaturatingAdd(Clamp(m), Clamp(n)) == Clamp(m + n)
  {
    AddIsClampedSum(Clamp(m), Clamp(n));
  }

  /** The bill is the exact sum of the charges, clamped once, whatever the counts and prices: it
      never wraps and is never negative. */
  lemma BillIsClampedSum(input: int, output: int, p: Price)
    ensures CostMicrocents(input, output, p) == Clamp(Charge(input, p.input) + Charge(output, p.output)) / PER_MTOK
    ensures CostMicrocents(input, output, p) >= 0
  {
    MulIsClampedCharge(input, p.input);
    MulIsClampedCharge(output, p.output);
    ClampOfClamps(Charge(input, p.input), Charge(output, p.output));
    hide Charge;
  }

  /** So is the bill with a prompt cache. */
  lemma CachedBillIsClampedSum(input: int, cached: int, written: int, output: int, p: Price)
    ensures var s := Split(input, cached, written);
      CostMicrocentsCached(input, cached, written, output, p)
      == Clamp(Charge(s.plain, p.input) + Charge(s.cached, if p.cacheRead <= 0 then p.input else p.cacheRead)
               + (Charge(s.written, if p.cacheWrite <= 0 then p.input else p.cacheWrite)
                  + Charge(output, p.output))) / PER_MTOK
  {
    hide Charge, SaturatingMul, Split, SaturatingAdd, Clamp;
    var s := Split(input, cached, written);
    var readRate := if p.cacheRead <= 0 then p.input else p.cacheRead;
    var writeRate := if p.cacheWrite <= 0 then p.input else p.cacheWrite;
    MulIsClampedCharge(s.plain, p.input);
    MulIsClampedCharge(s.cached, readRate);
    MulIsClampedCharge(s.written, writeRate);
    MulIsClampedCharge(output, p.output);
    ClampOfClamps(Charge(s.plain, p.input), Charge(s.cached, readRate));
    ClampOfClamps(Charge(s.written, writeRate), Charge(output, p.output));
    ClampOfClamps(Charge(s.plain, p.input) + Charge(s.cached, readRate),
                  Charge(s.written, writeRate) + Charge(output, p.output));
  }

  /** Without cache traffic the two bills are the same, for any counts and prices. */
  lemma NoCacheIsPlain(input: int, output: int, p: Price)
    requires Int64.Fits(input) && Int64.Fits(output) && FitsPrice(p)
    ensures CostMicrocentsCached(input, 0, 0, output, p) == CostMicrocents(input, output, p)
  {
    CachedBillIsClampedSum(input, 0, 0, output, p);
    BillIsClampedSum(input, output, p);
    var s := Split(input, 0, 0);
    hide CostMicrocents, CostMicrocentsCached;
    if input >= 0 {
      assert s == Shares(input, 0, 0);
    } else {
      assert s.plain == 0 && s.cached == input && s.written == 0;
    }
  }

  /** Every prompt token is billed at one rate and only once, unless the reported cache reads and
      writes add up to more than 64 bits hold. */
  lemma PromptTokensBilledOnceIff(input: int, cached: int, written: int)
    requires 0 <= input <= Int64.MAX && Int64.Fits(cached) && Int64.Fits(written)
    ensures var s := Split(input, cached, written);
      var c := if cached < 0 then 0 else if cached > input then input else cached;
      (s.plain >= 0 && s.cached >= 0 && s.written >= 0 && s.plain + s.cached + s.written == input)
      <==> c + written <= Int64.MAX
  {
    var c := if cached < 0 then 0 else if cached > input then input else cached;
    var w0 := if written < 0 then 0 else written;
    if c + w0 > Int64.MAX { OverTheTop(c + w0); }
    hide Int64.Wrap;
  }

  lemma OverTheTop(n: int)
    requires Int64.MAX < n <= 2 * Int64.MAX
    ensures Int64.Wrap(n) == n - TWO_64 < 0
  {}

  // ---------- estimate and bill ----------

  /** While both products fit 64 bits: for sound counts whose charges add up within 64 bits the estimate
      is the bill or one microcent less, and it is the bill exactly if the two remainders do not add up
      to a microcent. A negative count is billed as none; the estimate credits it, and is then the bill
      exactly if no credit reaches a microcent. Charges that add up beyond 64 bits are billed as the
      greatest amount, which the estimate can undercut by one microcent or exceed. */
  lemma EstimateIsBillIff(input: int, output: int, p: Price)
    requires p.input >= 0 && p.output >= 0 && Int64.Fits(input * p.input) && Int64.Fits(output * p.output)
    ensures var estimate, bill := ComputeCost(input, output, p), CostMicrocents(input, output, p);
      var a, b := input * p.input, output * p.output;
      && (a >= 0 && b >= 0 && a + b <= Int64.MAX ==>
            && (estimate == bill || estimate == bill - 1)
            && (estimate == bill <==> a % PER_MTOK + b % PER_MTOK < PER_MTOK))
      && (a < 0 || b < 0 ==>
            estimate <= bill && (estimate == bill <==> a > -PER_MTOK && b > -PER_MTOK))
      && (a + b > Int64.MAX ==>
            && bill == Int64.MAX / PER_MTOK && estimate >= bill - 1
            && (estimate == bill <==> a / PER_MTOK + b / PER_MTOK == Int64.MAX / PER_MTOK))
  {
    var a, b := input * p.input, output * p.output;
    SignOf(input, p.input);
    SignOf(output, p.output);
    BillIsClampedSum(input, output, p);
    EstimateOf(input, output, p, a, b);
    hide CostMicrocents, ComputeCost, Charge, Product;
    CompareQuotients(a, b);
  }

  /** A charge is the product, or nothing for a negative count. */
  lemma SignOf(tokens: int, price: nat)
    ensures Charge(tokens, price) == if tokens * price > 0 then tokens * price else 0
  {
    if tokens > 0 && price > 0 {
      assert Product(tokens, price) == tokens * price > 0;
    } else if tokens < 0 && price > 0 {
      assert tokens * price < 0;
    } else {
      assert tokens * price == 0;
    }
  }

  lemma CompareQuotients(a: int, b: int)
    requires Int64.Fits(a) && Int64.Fits(b)
    ensures var estimate := Quotient(a) + Quotient(b);
      var bill := Clamp((if a > 0 then a else 0) + (if b > 0 then b else 0)) / PER_MTOK;
      && (a >= 0 && b >= 0 && a + b <= Int64.MAX ==>
            && (estimate == bill || estimate == bill - 1)
            && (estimate == bill <==> a % PER_MTOK + b % PER_MTOK < PER_MTOK))
      && (a < 0 || b < 0 ==>
            estimate <= bill && (estimate == bill <==> a > -PER_MTOK && b > -PER_MTOK))
      && (a + b > Int64.MAX ==>
            && bill == Int64.MAX / PER_MTOK && estimate >= bill - 1
            && (estimate == bill <==> a / PER_MTOK + b / PER_MTOK == Int64.MAX / PER_MTOK))
  {
    if a >= 0 && b >= 0 { Carry(a, b); }
  }

  /** Only the products wrap; what they come to in microcents adds up within 64 bits. */
  lemma EstimateOf(input: int, output: int, p: Price, a: int, b: int)
    requires a == input * p.input && b == output * p.output
    ensures ComputeCost(input, output, p) == Quotient(Int64.Wrap(a)) + Quotient(Int64.Wrap(b))
  {
    QuotientsFit(Int64.Wrap(a), Int64.Wrap(b));
    hide Int64.Wrap, Quotient;
  }

  lemma QuotientsFit(u: int, v: int)
    requires Int64.Fits(u) && Int64.Fits(v)
    ensures Int64.Fits(Quotient(u) + Quotient(v))
  {}

  /** Beyond 64 bits the estimate adds up what the products wrap to. A product above them is billed as the
      greatest amount, and a single one is never estimated higher, and the same exactly if it wraps to the
      topmost microcent. A credit below them is billed as none, and the estimate is then the bill exactly
      if the credit wraps to less than a microcent either way. */
  lemma WrappedEstimateIsBillIff(input: int, output: int, p: Price)
    requires p.input >= 0 && p.output >= 0
    ensures var estimate, bill := ComputeCost(input, output, p), CostMicrocents(input, output, p);
      var a, b := input * p.input, output * p.output;
      var u, v := Int64.Wrap(a), Int64.Wrap(b);
      && (a > Int64.MAX || b > Int64.MAX ==>
            bill == Int64.MAX / PER_MTOK && (estimate == bill <==> Quotient(u) + Quotient(v) == Int64.MAX / PER_MTOK))
      && (a > Int64.MAX && b == 0 ==> estimate <= bill && (estimate == bill <==> u >= Int64.MAX / PER_MTOK * PER_MTOK))
      && (b > Int64.MAX && a == 0 ==> estimate <= bill && (estimate == bill <==> v >= Int64.MAX / PER_MTOK * PER_MTOK))
      && (a < Int64.MIN && 0 <= b <= Int64.MAX ==>
            bill == b / PER_MTOK && (estimate == bill <==> -PER_MTOK < u < PER_MTOK))
      && (b < Int64.MIN && 0 <= a <= Int64.MAX ==>
            bill == a / PER_MTOK && (estimate == bill <==> -PER_MTOK < v < PER_MTOK))
      && (a < 0 && b < 0 ==> bill == 0 && (estimate == bill <==> Quotient(u) == -Quotient(v)))
  {
    var a, b := input * p.input, output * p.output;
    SignOf(input, p.input);
    SignOf(output, p.output);
    BillIsClampedSum(input, output, p);
    EstimateOf(input, output, p, a, b);
    hide CostMicrocents, ComputeCost, Charge, Product, Int64.Wrap;
    CompareWrapped(a, b, Int64.Wrap(a), Int64.Wrap(b));
    hide Clamp, Quotient;
  }

  lemma CompareWrapped(a: int, b: int, u: int, v: int)
    requires Int64.Fits(u) && Int64.Fits(v) && (Int64.Fits(a) ==> u == a) && (Int64.Fits(b) ==> v == b)
    ensures var estimate := Quotient(u) + Quotient(v);
      var bill := Clamp((if a > 0 then a else 0) + (if b > 0 then b else 0)) / PER_MTOK;
      && (a > Int64.MAX || b > Int64.MAX ==> bill == Int64.MAX / PER_MTOK)
      && (a > Int64.MAX && b == 0 ==> estimate <= bill && (estimate == bill <==> u >= Int64.MAX / PER_MTOK * PER_MTOK))
      && (b > Int64.MAX && a == 0 ==> estimate <= bill && (estimate == bill <==> v >= Int64.MAX / PER_MTOK * PER_MTOK))
      && (a < Int64.MIN && 0 <= b <= Int64.MAX ==>
            bill == b / PER_MTOK && (estimate == bill <==> -PER_MTOK < u < PER_MTOK))
      && (b < Int64.MIN && 0 <= a <= Int64.MAX ==>
            bill == a / PER_MTOK && (estimate == bill <==> -PER_MTOK < v < PER_MTOK))
      && (a < 0 && b < 0 ==> bill == 0)
  {}

  lemma Carry(a: nat, b: nat)
    ensures (a + b) / PER_MTOK == a / PER_MTOK + b / PER_MTOK + if a % PER_MTOK + b % PER_MTOK < PER_MTOK then 0 else 1
  {}

  /** They do differ: 500000 tokens each way at one microcent per million. */
  lemma EstimateMissesAMicrocent()
    ensures ComputeCost(500_000, 500_000, Price(1, 1, 0, 0)) == 0
    ensures CostMicrocents(500_000, 500_000, Price(1, 1, 0, 0)) == 1
  {
    hide CostMicrocents, ComputeCost, Charge, Int64.Wrap;
    var p := Price(1, 1, 0, 0);
    SignOf(500_000, 1);
    BillIsClampedSum(500_000, 500_000, p);
    EstimateOf(500_000, 500_000, p, 500_000, 500_000);
  }

  /** Beyond 64 bits the estimate wraps, even below zero, where the bill saturates. */
  lemma EstimateWraps()
    ensures ComputeCost(10_000_000_000, 0, Price(1_500_000_000, 0, 0, 0)) < 0
    ensures CostMicrocents(10_000_000_000, 0, Price(1_500_000_000, 0, 0, 0)) == Int64.MAX / PER_MTOK
  {
    hide CostMicrocents, ComputeCost, Charge, Int64.Wrap;
    var p := Price(1_500_000_000, 0, 0, 0);
    SignOf(10_000_000_000, 1_500_000_000);
    SignOf(0, 0);
    BillIsClampedSum(10_000_000_000, 0, p);
    EstimateOf(10_000_000_000, 0, p, 15_000_000_000_000_000_000, 0);
    OverTheTop(15_000_000_000_000_000_000);
  }
}
