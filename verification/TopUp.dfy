/**
 The bounds of a top-up order (`getTopUpQuota`, `getMaxTopUpAmount`, `validateTopUpQuota`, `getMinTopup` and the
 stored amount of `RequestEpay` in controller/topup.go, over `saturateQuotaBounded` and
 `WalletQuotaFromDecimalStrict` of common/quota_math.go). An order is given in currency units or, in token
 display, in tokens. Decimal division is modelled as it is done, rounded half away from zero at sixteen digits.
 The unit price in quota is a positive integer; the largest wallet is 2^53 - 1, below which the conversion to a
 float is exact.
 */
module TopUp {
  import opened Basics

  const MAX_WALLET := 9007199254740991
  // One in the last digit of a quotient.
  const DIVISION_SCALE := 10000000000000000

  // Decimals

  // Half away from zero.
  function RoundDiv(n: int, d: int): int
    requires d > 0
  {
    if n >= 0 then (2 * n + d) / (2 * d) else -((2 * -n + d) / (2 * d))
  }

  function TruncDiv(n: int, d: int): int
    requires d > 0
  {
    if n >= 0 then n / d else -(-n / d)
  }

  // a.Div(b) in units of the last digit, and its integer part.
  function Quotient(a: int, b: int, scale: int): int
    requires b > 0
  {
    RoundDiv(a * scale, b)
  }

  function DivInt(a: int, b: int): int
    requires b > 0
  {
    TruncDiv(Quotient(a, b, DIVISION_SCALE), DIVISION_SCALE)
  }

  lemma HalfUp(n: int, d: int, q: int)
    requires n >= 0 && d > 0 && q == (2 * n + d) / (2 * d)
    ensures -d <= 2 * n - 2 * (q * d) < d
  {
    var e := 2 * d;
    assert 2 * n + d == q * e + (2 * n + d) % e;
    assert q * e == 2 * (q * d);
  }

  // The nearest integer, and of two the one further from zero.
  lemma RoundDivIs(n: int, d: int)
    requires d > 0
    ensures var off := 2 * (n - RoundDiv(n, d) * d);
      -d <= off <= d && (off == d ==> n < 0) && (off == -d ==> n > 0)
  {
    if n >= 0 {
      HalfUp(n, d, RoundDiv(n, d));
    } else {
      var q := -RoundDiv(n, d);
      HalfUp(-n, d, q);
      assert -q * d == -(q * d);
    }
  }

  lemma DivBetween(n: int, d: int, low: int, high: int)
    requires d > 0 && low * d <= n < high * d
    ensures low <= n / d < high
  {
    var q := n / d;
    assert n == q * d + n % d;
    assert (q - low) * d == q * d - low * d;
    assert (q - high) * d == q * d - high * d;
    Whole(q - low, d);
    if q >= high {
      Product(q - high, d);
    }
  }

  lemma Product(k: int, d: int)
    requires k >= 0 && d > 0
    ensures k * d >= 0
  {
  }

  // Rounding never carries into the integer part.
  lemma RoundedIntPart(a: int, b: int, scale: int)
    requires a >= 0 && 0 < b < 2 * scale
    ensures RoundDiv(a * scale, b) >= 0 && RoundDiv(a * scale, b) / scale == a / b
  {
    var k, r := a / b, a % b;
    assert a == k * b + r;
    Product(k, scale);
    Product(a, scale);
    Parts(a, b, scale, k, r);
    var n, low := a * scale, k * scale;
    DivBetween(2 * n + b, 2 * b, low, low + scale);
    assert low + scale == (k + 1) * scale;
    DivBetween(RoundDiv(n, b), scale, k, k + 1);
  }

  lemma Parts(a: int, b: int, scale: int, k: int, r: int)
    requires b > 0 && scale > 0 && a == k * b + r && 0 <= r < b && b < 2 * scale
    ensures (k * scale) * (2 * b) <= 2 * (a * scale) + b < (k * scale + scale) * (2 * b)
  {
    var whole, part := (k * b) * scale, r * scale;
    assert a * scale == whole + part;
    assert (k * scale) * (2 * b) == 2 * whole;
    assert (k * scale + scale) * (2 * b) == 2 * whole + 2 * (b * scale);
    Product(r, scale);
    assert (b - r) * scale == b * scale - part;
    Whole(b - r, scale);
  }

  // For every price up to the largest wallet, division and truncation are integer division.
  lemma DivIntIs(a: int, b: int)
    requires 0 < b <= MAX_WALLET
    ensures DivInt(a, b) == TruncDiv(a, b)
  {
    if a >= 0 {
      RoundedIntPart(a, b, DIVISION_SCALE);
    } else {
      RoundedIntPart(-a, b, DIVISION_SCALE);
    }
  }

  // Conversion

  datatype Saturated = Exact(value: int) | Clamped(bound: int)

  function Saturate(value: int, max: int, min: int): Saturated {
    if value > max then Clamped(max) else if value < min then Clamped(min) else Exact(value)
  }

  datatype Result = Ok(quota: int) | OutOfRange

  // A clamped value is an error, not a result.
  function WalletQuotaStrict(value: int): (r: Result)
    ensures r.Ok? <==> -MAX_WALLET <= value <= MAX_WALLET
    ensures r.Ok? ==> r.quota == value
  {
    var s := Saturate(value, MAX_WALLET, -MAX_WALLET);
    if s.Clamped? then OutOfRange else Ok(s.value)
  }

  // Orders

  // Price of a unit in quota, whether amounts are tokens, and the smallest order in units.
  datatype Settings = Settings(price: int, tokens: bool, minTopUp: int)

  predicate Sound(s: Settings) {
    0 < s.price <= MAX_WALLET
  }

  function TopUpQuota(s: Settings, amount: int): Result
    requires s.price > 0
  {
    WalletQuotaStrict((if s.tokens then DivInt(amount, s.price) else amount) * s.price)
  }

  function MaxAmount(s: Settings): int {
    if s.price <= 0 then 0
    else
      var maxStored := DivInt(MAX_WALLET, s.price);
      if s.tokens then (maxStored + 1) * s.price - 1 else maxStored
  }

  function StoredAmount(s: Settings, amount: int): int
    requires s.price > 0
  {
    if s.tokens then DivInt(amount, s.price) else amount
  }

  datatype Validation = Valid(quota: int) | AboveMax(max: int) | Invalid

  function Validate(s: Settings, amount: int): Validation
    requires s.price > 0
  {
    var r, max := TopUpQuota(s, amount), MaxAmount(s);
    if r.Ok? && r.quota > 0 then Valid(r.quota)
    else if max > 0 && amount > max then AboveMax(max)
    else Invalid
  }

  function MinAmount(s: Settings): int {
    if !s.tokens then s.minTopUp
    else
      var r := WalletQuotaStrict(s.minTopUp * s.price);
      if r.Ok? then r.quota else MAX_WALLET
  }

  lemma DivideIs(n: int, d: int, k: int)
    requires d > 0
    ensures k <= n / d <==> k * d <= n
  {
    var q := n / d;
    assert n == q * d + n % d;
    assert (q - k) * d == q * d - k * d;
    Whole(q - k, d);
  }

  // Exactly the amounts up to the maximum convert without overflow.
  lemma BoundIsTight(s: Settings, amount: int)
    requires Sound(s) && amount > 0
    ensures TopUpQuota(s, amount).Ok? <==> amount <= MaxAmount(s)
  {
    var top := MAX_WALLET / s.price;
    DivIntIs(MAX_WALLET, s.price);
    if s.tokens {
      DivIntIs(amount, s.price);
      var units := amount / s.price;
      Product(units, s.price);
      DivideIs(MAX_WALLET, s.price, units);
      DivideIs(amount, s.price, top + 1);
    } else {
      Product(amount, s.price);
      DivideIs(MAX_WALLET, s.price, amount);
    }
  }

  // The smallest amount that buys anything.
  function LeastAmount(s: Settings): int {
    if s.tokens then s.price else 1
  }

  lemma QuotaSign(s: Settings, amount: int)
    requires Sound(s)
    ensures TopUpQuota(s, amount).Ok? && amount >= LeastAmount(s) ==> TopUpQuota(s, amount).quota > 0
    ensures TopUpQuota(s, amount).Ok? && amount < LeastAmount(s) ==> TopUpQuota(s, amount).quota <= 0
  {
    var units := StoredAmount(s, amount);
    if s.tokens {
      DivIntIs(amount, s.price);
      DivideIs(amount, s.price, 1);
      DivideIs(-amount, s.price, 0);
    }
    Whole(units, s.price);
  }

  lemma LeastFits(s: Settings)
    requires Sound(s)
    ensures 0 < LeastAmount(s) <= MaxAmount(s)
  {
    DivIntIs(MAX_WALLET, s.price);
    var top := MAX_WALLET / s.price;
    DivideIs(MAX_WALLET, s.price, 1);
    assert (top + 1) * s.price == top * s.price + s.price;
    Whole(top, s.price);
  }

  // On every amount, of any sign: accepted exactly between the least and the largest, told the maximum exactly
  // above it, and invalid otherwise.
  lemma ValidationIs(s: Settings, amount: int)
    requires Sound(s)
    ensures Validate(s, amount).Valid? <==> LeastAmount(s) <= amount <= MaxAmount(s)
    ensures Validate(s, amount) == AboveMax(MaxAmount(s)) <==> amount > MaxAmount(s)
  {
    LeastFits(s);
    QuotaSign(s, amount);
    if amount > 0 {
      BoundIsTight(s, amount);
    }
  }

  // The amount stored with an accepted order is worth exactly the quota that was validated.
  lemma StoredIsValidated(s: Settings, amount: int)
    requires Sound(s) && Validate(s, amount).Valid?
    ensures StoredAmount(s, amount) * s.price == Validate(s, amount).quota <= MAX_WALLET
    ensures StoredAmount(s, amount) > 0
  {
    Whole(StoredAmount(s, amount), s.price);
    QuotaSign(s, amount);
  }

  predicate Accepts(s: Settings, amount: int)
    requires s.price > 0
  {
    amount >= MinAmount(s) && Validate(s, amount).Valid?
  }

  // In currency an order is accepted exactly from the minimum on, and from one on, as long as it is worth no more
  // than a wallet holds; in tokens exactly from the price of the minimum on, or from the largest wallet on if that
  // price does not fit one, and from the price of one unit on, as long as the units it makes fit a wallet.
  lemma AcceptsExactly(s: Settings, amount: int)
    requires Sound(s)
    ensures !s.tokens ==>
      (Accepts(s, amount) <==> amount >= s.minTopUp && amount >= 1 && amount * s.price <= MAX_WALLET)
    ensures s.tokens ==>
      var least := s.minTopUp * s.price;
      (Accepts(s, amount) <==>
        && amount >= (if -MAX_WALLET <= least <= MAX_WALLET then least else MAX_WALLET)
        && amount >= s.price && (amount / s.price) * s.price <= MAX_WALLET)
  {
    ValidationIs(s, amount);
    if amount > 0 {
      BoundIsTight(s, amount);
      if s.tokens {
        DivIntIs(amount, s.price);
        Product(amount / s.price, s.price);
      } else {
        Product(amount, s.price);
      }
    }
  }

  lemma StoredAtLeast(s: Settings, amount: int)
    requires Sound(s) && Accepts(s, amount) && s.minTopUp * s.price <= MAX_WALLET
    ensures StoredAmount(s, amount) >= s.minTopUp
  {
    if s.tokens {
      ValidationIs(s, amount);
      DivIntIs(amount, s.price);
      DivideIs(amount, s.price, 1);
      if s.minTopUp > 0 {
        Product(s.minTopUp, s.price);
        DivideIs(amount, s.price, s.minTopUp);
      }
    }
  }

  lemma LargestIsAccepted(s: Settings)
    requires Sound(s) && s.tokens && s.minTopUp * s.price > MAX_WALLET
    ensures Accepts(s, MAX_WALLET) && StoredAmount(s, MAX_WALLET) < s.minTopUp
  {
    ValidationIs(s, MAX_WALLET);
    DivIntIs(MAX_WALLET, s.price);
    DivideIs(MAX_WALLET, s.price, MAX_WALLET / s.price + 1);
    DivideIs(MAX_WALLET, s.price, s.minTopUp);
  }

  // In token display no accepted order is below the configured minimum exactly when that minimum fits a wallet:
  // above it the minimum asked for is cut to the largest wallet.
  lemma MinimumHoldsExactlyWhen(s: Settings)
    requires Sound(s) && s.tokens
    ensures (forall amount :: Accepts(s, amount) ==> StoredAmount(s, amount) >= s.minTopUp) <==>
            s.minTopUp * s.price <= MAX_WALLET
  {
    if s.minTopUp * s.price <= MAX_WALLET {
      forall amount | Accepts(s, amount) ensures StoredAmount(s, amount) >= s.minTopUp {
        StoredAtLeast(s, amount);
      }
    } else {
      LargestIsAccepted(s);
    }
  }
}
