/** The payout quote: who pays the platform fee, and how the shares are rounded. */
module Quote {
  import opened Escrow

  /** `totalWithFee` is what the buyer is asked for, `sellerNetAmount` what the seller is paid. */
  datatype PayoutQuote = PayoutQuote(platformFeeAmount: real, totalWithFee: real, sellerNetAmount: real)

  /** An amount counted in rounding units: millionths for USDC, whole units otherwise. */
  function Units(c: Currency, x: real): real {
    if c == USDC then x * 1000000.0 else x
  }

  /** `Math.round`: halves go up. */
  function RoundHalfUp(x: real): int {
    (x + 0.5).Floor
  }

  /** The integer `toFixed` prints: halves go away from zero. */
  function RoundHalfAway(x: real): int {
    if x < 0.0 then -RoundHalfUp(-x) else RoundHalfUp(x)
  }

  /** `parseFloat(x.toFixed(6))` for USDC, `Math.round(x)` otherwise. */
  function RoundTo(c: Currency, x: real): real {
    if c == USDC then RoundHalfAway(x * 1000000.0) as real / 1000000.0 else RoundHalfUp(x) as real
  }

  predicate OnGrid(c: Currency, x: real) {
    IsWhole(Units(c, x))
  }

  /** `calculateEscrowPayoutQuote`; `fee` is what the fee settings charge for this amount. */
  function PayoutQuoteFor(amount: real, c: Currency, payer: FeePayer, fee: real): PayoutQuote {
    var platformFee := NonNegative(fee);
    var halfFee := RoundTo(c, platformFee / 2.0);
    match payer
    case BuyerPays => PayoutQuote(platformFee, RoundTo(c, amount + platformFee), RoundTo(c, amount))
    case SellerPays => PayoutQuote(platformFee, RoundTo(c, amount), RoundTo(c, amount - platformFee))
    case SplitFee => PayoutQuote(platformFee, RoundTo(c, amount + halfFee),
                                 RoundTo(c, amount - (platformFee - halfFee)))
  }

  /** What the buyer pays beyond what the seller gets and the platform takes. */
  function Drift(q: PayoutQuote): real {
    q.totalWithFee - q.sellerNetAmount - q.platformFeeAmount
  }

  lemma RoundsToNearest(x: real)
    ensures -0.5 < RoundHalfUp(x) as real - x <= 0.5
  {
  }

  lemma RoundShifts(x: real, n: int)
    ensures RoundHalfUp(x + n as real) == RoundHalfUp(x) + n
  {
  }

  /** The rounding of a currency, on numbers of units. */
  function RoundUnits(c: Currency, u: real): int {
    if c == USDC then RoundHalfAway(u) else RoundHalfUp(u)
  }

  lemma RoundToInUnits(c: Currency, x: real)
    ensures Units(c, RoundTo(c, x)) == RoundUnits(c, Units(c, x)) as real
  {
  }

  /** The two figures a quote rounds, before rounding. */
  function Unrounded(amount: real, c: Currency, payer: FeePayer, fee: real): (real, real) {
    var halfFee := RoundTo(c, NonNegative(fee) / 2.0);
    match payer
    case BuyerPays => (amount + NonNegative(fee), amount)
    case SellerPays => (amount, amount - NonNegative(fee))
    case SplitFee => (amount + halfFee, amount - (NonNegative(fee) - halfFee))
  }

  lemma HalfFeeInUnits(c: Currency, fee: real)
    ensures var half := RoundTo(c, NonNegative(fee) / 2.0);
            && Units(c, half) == RoundHalfUp(Units(c, NonNegative(fee) / 2.0)) as real
            && -0.5 < Units(c, half) - Units(c, NonNegative(fee) / 2.0) <= 0.5
            && 0.0 <= half && (half == 0.0 || NonNegative(fee) - half >= 0.0)
  {
    RoundToInUnits(c, NonNegative(fee) / 2.0);
    RoundsToNearest(Units(c, NonNegative(fee) / 2.0));
  }

  lemma QuoteInUnits(amount: real, c: Currency, payer: FeePayer, fee: real)
    ensures var q, (t, n) := PayoutQuoteFor(amount, c, payer, fee), Unrounded(amount, c, payer, fee);
            && Units(c, q.totalWithFee) == RoundUnits(c, Units(c, t)) as real
            && Units(c, q.sellerNetAmount) == RoundUnits(c, Units(c, n)) as real
            && t - n == q.platformFeeAmount
  {
    var (t, n) := Unrounded(amount, c, payer, fee);
    HalfFeeInUnits(c, fee);
    RoundToInUnits(c, t);
    RoundToInUnits(c, n);
  }

  /** The whole number nearest to `x`; of two, the one above, or, for the negative figures that `toFixed` prints, the
      one below. */
  predicate NearestWhole(k: int, x: real, toFixed: bool) {
    if toFixed && x < 0.0 then -0.5 <= k as real - x < 0.5 else -0.5 < k as real - x <= 0.5
  }

  /** The figure is `x`, rounded to `k` millionths of USDC, or of another currency to the whole number `k`. */
  predicate RoundedAs(c: Currency, figure: real, x: real, k: int) {
    if c == USDC then figure == k as real / 1000000.0 && NearestWhole(k, 1000000.0 * x, true)
    else figure == k as real && NearestWhole(k, x, false)
  }

  ghost predicate RoundedFrom(c: Currency, figure: real, x: real) {
    exists k :: RoundedAs(c, figure, x, k)
  }

  lemma RoundToIsNearest(c: Currency, x: real)
    ensures RoundedFrom(c, RoundTo(c, x), x)
  {
    if c == USDC {
      var k := RoundHalfAway(x * 1000000.0);
      RoundsToNearest(x * 1000000.0);
      RoundsToNearest(-(x * 1000000.0));
      assert RoundedAs(c, RoundTo(c, x), x, k);
    } else {
      RoundsToNearest(x);
      assert RoundedAs(c, RoundTo(c, x), x, RoundHalfUp(x));
    }
  }

  /** The buyer bears `half` of the fee, which is the half rounded, and the seller the rest. */
  ghost predicate SplitAs(c: Currency, q: PayoutQuote, amount: real, half: real) {
    && RoundedFrom(c, half, q.platformFeeAmount / 2.0)
    && RoundedFrom(c, q.totalWithFee, amount + half)
    && RoundedFrom(c, q.sellerNetAmount, amount - (q.platformFeeAmount - half))
  }

  /** What the two sides are asked for and paid: the payer's side bears the fee, the other the bare amount, and of a
      split the buyer bears the rounded half and the seller the rest. */
  lemma QuoteFigures(amount: real, c: Currency, payer: FeePayer, fee: real)
    ensures var q := PayoutQuoteFor(amount, c, payer, fee);
            var charged := q.platformFeeAmount;
            && charged == (if fee > 0.0 then fee else 0.0)
            && match payer
               case BuyerPays =>
                 RoundedFrom(c, q.totalWithFee, amount + charged) && RoundedFrom(c, q.sellerNetAmount, amount)
               case SellerPays =>
                 RoundedFrom(c, q.totalWithFee, amount) && RoundedFrom(c, q.sellerNetAmount, amount - charged)
               case SplitFee =>
                 exists half :: SplitAs(c, q, amount, half)
  {
    var charged := NonNegative(fee);
    match payer
    case BuyerPays => RoundToIsNearest(c, amount + charged); RoundToIsNearest(c, amount);
    case SellerPays => RoundToIsNearest(c, amount); RoundToIsNearest(c, amount - charged);
    case SplitFee =>
      var half := RoundTo(c, charged / 2.0);
      RoundToIsNearest(c, charged / 2.0);
      RoundToIsNearest(c, amount + half);
      RoundToIsNearest(c, amount - (charged - half));
      assert SplitAs(c, PayoutQuoteFor(amount, c, payer, fee), amount, half);
  }

  predicate IsWhole(u: real) {
    u.Floor as real == u
  }

  predicate IsHalf(u: real) {
    u - u.Floor as real == 0.5
  }

  /** Rounding half up shortens or stretches a difference by less than one, and not at all exactly when it is an
      integer. */
  lemma RoundedDifference(t: real, n: real)
    ensures var d := (RoundHalfUp(t) - RoundHalfUp(n)) as real;
            -1.0 < d - (t - n) < 1.0 && (d == t - n <==> IsWhole(t - n))
  {
    RoundsToNearest(t);
    RoundsToNearest(n);
    if IsWhole(t - n) {
      RoundShifts(n, (t - n).Floor);
      assert n + (t - n).Floor as real == t;
    }
  }

  /** The two roundings differ on negative halves alone. */
  lemma AwayAgainstUp(u: real)
    ensures RoundHalfAway(u) == RoundHalfUp(u) - (if u < 0.0 && IsHalf(u) then 1 else 0)
  {
    var f := u.Floor;
    assert f as real <= u < f as real + 1.0;
    if u < 0.0 {
      var v := -u;
      assert -f as real - 1.0 < v <= -f as real;
      NearestBelow(v + 0.5, if u - f as real > 0.5 then -f - 1 else -f);
      NearestBelow(u + 0.5, if u - f as real >= 0.5 then f + 1 else f);
    }
  }

  lemma NearestBelow(x: real, k: int)
    requires k as real <= x < k as real + 1.0
    ensures x.Floor == k
  {
  }

  /** A figure below zero and one that is not, a whole number apart and both ending in a half: they are rounded
      apart. */
  predicate Straddles(c: Currency, t: real, n: real) {
    c == USDC && Units(c, n) < 0.0 <= Units(c, t) && IsHalf(Units(c, n))
  }

  lemma UnitsRoundApart(c: Currency, t: real, n: real)
    requires n <= t
    ensures var d := (RoundUnits(c, Units(c, t)) - RoundUnits(c, Units(c, n))) as real - (Units(c, t) - Units(c, n));
            && -1.0 < d <= 1.0
            && (d == 0.0 <==> OnGrid(c, t - n) && !Straddles(c, t, n))
            && (d == 1.0 <==> OnGrid(c, t - n) && Straddles(c, t, n))
  {
    var u, v := Units(c, t), Units(c, n);
    assert Units(c, t - n) == u - v;
    RoundedDifference(u, v);
    if c == USDC {
      AwayAgainstUp(u);
      AwayAgainstUp(v);
      HalfRounds(u);
      HalfRounds(v);
      RoundsToNearest(u);
      RoundsToNearest(v);
      if IsWhole(u - v) {
        WholeApart(u, v);
      } else if IsHalf(u) && IsHalf(v) {
        HalvesApart(u, v);
      }
    }
  }

  /** Numbers a whole number apart have the same fraction. */
  lemma WholeApart(u: real, v: real)
    requires IsWhole(u - v)
    ensures IsHalf(u) <==> IsHalf(v)
  {
    NearestBelow(u, v.Floor + (u - v).Floor);
  }

  lemma HalvesApart(u: real, v: real)
    requires IsHalf(u) && IsHalf(v)
    ensures IsWhole(u - v)
  {
    assert u - v == (u.Floor - v.Floor) as real;
  }

  lemma HalfRounds(u: real)
    ensures IsHalf(u) <==> RoundHalfUp(u) as real - u == 0.5
  {
    if IsHalf(u) {
      NearestBelow(u + 0.5, u.Floor + 1);
    } else if RoundHalfUp(u) as real - u == 0.5 {
      NearestBelow(u, RoundHalfUp(u) - 1);
    }
  }

  /** For every amount, fee, payer and currency: what the buyer pays beyond what the seller gets and the platform takes
      is more than minus one rounding unit and at most one. It is nothing exactly when the fee is a whole number of
      units and the unrounded figures do not straddle zero on halves, and a whole unit exactly when they do. */
  lemma QuoteDrift(amount: real, c: Currency, payer: FeePayer, fee: real)
    ensures var q, (t, n) := PayoutQuoteFor(amount, c, payer, fee), Unrounded(amount, c, payer, fee);
            && -1.0 < Units(c, Drift(q)) <= 1.0
            && (Drift(q) == 0.0 <==> OnGrid(c, q.platformFeeAmount) && !Straddles(c, t, n))
            && (Units(c, Drift(q)) == 1.0 <==> OnGrid(c, q.platformFeeAmount) && Straddles(c, t, n))
  {
    var (t, n) := Unrounded(amount, c, payer, fee);
    QuoteInUnits(amount, c, payer, fee);
    UnitsRoundApart(c, t, n);
    DriftInUnits(c, PayoutQuoteFor(amount, c, payer, fee));
  }

  lemma DriftInUnits(c: Currency, q: PayoutQuote)
    ensures Units(c, Drift(q)) == Units(c, q.totalWithFee) - Units(c, q.sellerNetAmount) - Units(c, q.platformFeeAmount)
    ensures Drift(q) == 0.0 <==> Units(c, Drift(q)) == 0.0
  {
  }

  /** A quote that pays the seller nothing negative does not straddle; nor does one whose fee the amount covers. */
  lemma StraddlingPaysNegative(amount: real, c: Currency, payer: FeePayer, fee: real)
    ensures var q, (t, n) := PayoutQuoteFor(amount, c, payer, fee), Unrounded(amount, c, payer, fee);
            Straddles(c, t, n) ==> q.sellerNetAmount < 0.0 && NonNegative(fee) > amount
  {
    var (t, n) := Unrounded(amount, c, payer, fee);
    HalfFeeInUnits(c, fee);
    QuoteInUnits(amount, c, payer, fee);
    if Straddles(c, t, n) {
      AwayAgainstUp(Units(c, n));
      HalfRounds(Units(c, n));
    }
  }

  /** Rounding takes a figure above a bound exactly when it comes within a half of the next whole number. */
  lemma RoundsBelow(c: Currency, u: real, bound: real)
    requires u <= bound && 0.0 <= bound
    ensures RoundUnits(c, u) as real <= bound <==> u < bound.Floor as real + 0.5
  {
    AwayAgainstUp(u);
    UpRoundsBelow(u, bound);
    if u < 0.0 {
      NearestBelow(0.0, 0);
      UpRoundsBelow(u, 0.0);
    }
  }

  lemma UpRoundsBelow(u: real, bound: real)
    ensures RoundHalfUp(u) as real <= bound <==> u < bound.Floor as real + 0.5
  {
    var k, f := RoundHalfUp(u), bound.Floor;
    assert k as real <= u + 0.5 < k as real + 1.0;
    if u < f as real + 0.5 {
      assert k < f + 1;
    } else {
      assert f + 1 < k + 1;
    }
  }

  /** The quoted net is at most the amount exactly when the amount is not negative and the seller's share of the fee
      makes up for what rounding adds. */
  lemma QuotedNetFits(amount: real, c: Currency, payer: FeePayer, fee: real)
    ensures var q, (_, n) := PayoutQuoteFor(amount, c, payer, fee), Unrounded(amount, c, payer, fee);
            NonNegative(q.sellerNetAmount) <= amount <==>
              0.0 <= amount && Units(c, n) < Units(c, amount).Floor as real + 0.5
  {
    var (_, n) := Unrounded(amount, c, payer, fee);
    HalfFeeInUnits(c, fee);
    QuoteInUnits(amount, c, payer, fee);
    if 0.0 <= amount {
      RoundsBelow(c, Units(c, n), Units(c, amount));
    }
  }

  /** An input that straddles: a seller who is owed 1/128 USDC and pays a fee of 1/64. All its figures are binary
      fractions, which a floating-point number holds exactly. */
  lemma UncoveredQuoteDrifts()
    ensures var q := PayoutQuoteFor(0.0078125, USDC, SellerPays, 0.015625);
            OnGrid(USDC, q.platformFeeAmount) && Units(USDC, Drift(q)) == 1.0
  {
    var (t, n) := Unrounded(0.0078125, USDC, SellerPays, 0.015625);
    assert Units(USDC, n) == -7812.5;
    NearestBelow(-7812.5, -7813);
    QuoteDrift(0.0078125, USDC, SellerPays, 0.015625);
  }

  /** A split asks the two sides for shares that differ by at most one unit, before the last rounding. */
  lemma SplitIsFair(amount: real, c: Currency, fee: real)
    ensures var (t, n) := Unrounded(amount, c, SplitFee, fee);
            -1.0 <= Units(c, (t - amount) - (amount - n)) <= 1.0
  {
    HalfFeeInUnits(c, fee);
  }

  /** On a whole-unit amount the quoted figures keep the two shares within one unit of each other, whatever the fee. */
  lemma QuotedSplitIsFair(amount: real, c: Currency, fee: real)
    requires OnGrid(c, amount)
    ensures var q := PayoutQuoteFor(amount, c, SplitFee, fee);
            -1.0 <= Units(c, (q.totalWithFee - amount) - (amount - q.sellerNetAmount)) <= 1.0
  {
    var q := PayoutQuoteFor(amount, c, SplitFee, fee);
    var (t, n) := Unrounded(amount, c, SplitFee, fee);
    QuoteInUnits(amount, c, SplitFee, fee);
    HalfFeeInUnits(c, fee);
    SplitIsFair(amount, c, fee);
    var a, h := Units(c, amount).Floor, RoundHalfUp(Units(c, NonNegative(fee) / 2.0));
    WholeRounds(a + h);
    RoundsToNearest(Units(c, n));
    RoundsToNearest(-Units(c, n));
    NearInteger(h - (a - RoundUnits(c, Units(c, n))), Units(c, (t - amount) - (amount - n)));
  }

  /** An integer within a half of a number between -1 and 1 is itself between -1 and 1. */
  lemma NearInteger(k: int, x: real)
    requires -1.0 <= x <= 1.0 && -0.5 <= k as real - x <= 0.5
    ensures -1 <= k <= 1
  {
  }

  /** With a whole-unit amount and fee, nothing is rounded but the split's half: the buyer pays the
      amount and its share, the seller gets the amount less its share. */
  lemma WholeQuote(amount: real, c: Currency, payer: FeePayer, fee: real)
    requires OnGrid(c, amount) && OnGrid(c, NonNegative(fee))
    ensures var q, (t, n) := PayoutQuoteFor(amount, c, payer, fee), Unrounded(amount, c, payer, fee);
            && q.totalWithFee == t && q.sellerNetAmount == n
            && q.sellerNetAmount <= amount <= q.totalWithFee
  {
    QuoteInUnits(amount, c, payer, fee);
    var half := Units(c, NonNegative(fee) / 2.0);
    HalfFeeInUnits(c, fee);
    var a, f, h := Units(c, amount).Floor, Units(c, NonNegative(fee)).Floor, RoundHalfUp(half);
    match payer
    case BuyerPays => WholeRounds(a); WholeRounds(a + f);
    case SellerPays => WholeRounds(a); WholeRounds(a - f);
    case SplitFee => WholeRounds(a + h); WholeRounds(a - (f - h));
  }

  lemma WholeRounds(n: int)
    ensures RoundHalfUp(n as real) == n == RoundHalfAway(n as real)
  {
  }
}
