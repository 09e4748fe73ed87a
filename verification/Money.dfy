/** Go's int64 arithmetic and the fee split used by charges and hosted checkouts. */
module Money {

  const INT64_MAX: int := 0x7fff_ffff_ffff_ffff
  const INT64_MIN: int := -0x8000_0000_0000_0000
  const TWO_64: int := 0x1_0000_0000_0000_0000

  /** The largest amount that no rate up to 100% can take past int64. */
  const NO_WRAP_MAX := INT64_MAX / 10000

  predicate IsInt64(x: int) {
    INT64_MIN <= x <= INT64_MAX
  }

  /** Two's-complement wrap-around of an int64 result. */
  function Wrap64(x: int): (r: int)
    ensures IsInt64(r)
    ensures IsInt64(x) ==> r == x
  {
    (x - INT64_MIN) % TWO_64 + INT64_MIN
  }

  /** Go's integer division, which truncates toward zero. */
  function TruncDiv(x: int, y: int): int
    requires y > 0
  {
    if x >= 0 then x / y else -((-x) / y)
  }

  /** feeAmount := (amount * feeBasisPoints) / 10000, in int64. */
  function Fee(amount: int, bps: int): int {
    TruncDiv(Wrap64(amount * bps), 10000)
  }

  /** netAmount := amount - feeAmount, in int64. */
  function Net(amount: int, fee: int): int {
    Wrap64(amount - fee)
  }

  function Positive(x: int): int {
    if x > 0 then x else 0
  }

  /** What a payment credits (net, and the fee when it is positive) beyond what it debits. */
  function Drift(amount: int, fee: int, net: int): int {
    net + Positive(fee) - amount
  }

  lemma FeeIsSmall(amount: int, bps: int)
    ensures -NO_WRAP_MAX <= Fee(amount, bps) <= NO_WRAP_MAX
  {
  }

  /** A payment credits exactly what it debits if and only if the int64 fee did not wrap below zero. */
  lemma SplitConservesIffFeeNonNegative(amount: int, bps: int)
    requires 0 < amount <= INT64_MAX
    ensures Drift(amount, Fee(amount, bps), Net(amount, Fee(amount, bps))) == 0 <==> Fee(amount, bps) >= 0
  {
    FeeIsSmall(amount, bps);
    var fee := Fee(amount, bps);
    if fee < 0 && !IsInt64(amount - fee) {
      assert (amount - fee - INT64_MIN) % TWO_64 == amount - fee - INT64_MIN - TWO_64;
    }
  }

  /** Without overflow the fee is the floored proportion, and the split is exact. */
  lemma FeeWithoutOverflow(amount: int, bps: int)
    requires 0 <= bps <= 10000
    requires 1 <= amount <= NO_WRAP_MAX
    ensures IsInt64(amount * bps)
    ensures Fee(amount, bps) == amount * bps / 10000
    ensures 0 <= Fee(amount, bps) <= amount
    ensures Fee(amount, bps) + Net(amount, Fee(amount, bps)) == amount
  {
    ProductIsMonotone(amount, 0, bps);
    ProductIsMonotone(amount, bps, 10000);
    var p := amount * bps;
    assert 0 <= p <= amount * 10000 <= INT64_MAX;
    assert 0 <= p / 10000 <= amount;
  }

  /** Exactly when a payment leaves its merchant nothing: at 100%, when the amount is small enough for the
      product to fit; or when a wrapped negative fee takes the net past int64. */
  lemma NothingLeftIff(amount: int, bps: int)
    requires 0 < amount <= INT64_MAX && 0 <= bps <= 10000
    ensures Net(amount, Fee(amount, bps)) <= 0
      <==> (bps == 10000 && amount <= NO_WRAP_MAX) || amount - Fee(amount, bps) > INT64_MAX
  {
    FeeIsSmall(amount, bps);
    if amount <= NO_WRAP_MAX {
      FeeWithoutOverflow(amount, bps);
      if bps < 10000 {
        ProductIsMonotone(amount, bps, 9999);
        assert amount * bps < amount * 10000;
      }
    } else {
      NetOfLargeAmount(amount, Fee(amount, bps));
    }
  }

  lemma NetOfLargeAmount(amount: int, fee: int)
    requires NO_WRAP_MAX < amount <= INT64_MAX && -NO_WRAP_MAX <= fee <= NO_WRAP_MAX
    ensures Net(amount, fee) <= 0 <==> amount - fee > INT64_MAX
  {
    if amount - fee > INT64_MAX {
      assert (amount - fee - INT64_MIN) % TWO_64 == amount - fee - INT64_MIN - TWO_64;
    }
  }

  lemma ProductIsMonotone(a: int, x: int, y: int)
    requires a >= 0 && x <= y
    ensures a * x <= a * y
  {
    assert a * (y - x) >= 0;
  }

  function TotalAmount(amounts: seq<int>): int {
    if amounts == [] then 0 else amounts[0] + TotalAmount(amounts[1..])
  }

  function TotalFee(amounts: seq<int>, bps: int): int {
    if amounts == [] then 0 else Fee(amounts[0], bps) + TotalFee(amounts[1..], bps)
  }

  lemma {:induction false} TotalIsPositive(amounts: seq<int>)
    requires amounts != [] && forall i :: 0 <= i < |amounts| ==> amounts[i] >= 1
    ensures TotalAmount(amounts) >= 1
  {
    if |amounts| > 1 {
      TotalIsPositive(amounts[1..]);
    }
  }

  /** Splitting a total into n payments lowers the total fee by between 0 and n - 1 minor units. */
  lemma {:induction false} SplittingLowersTheFee(amounts: seq<int>, bps: int)
    requires 0 <= bps <= 10000
    requires amounts != [] && forall i :: 0 <= i < |amounts| ==> amounts[i] >= 1
    requires TotalAmount(amounts) <= NO_WRAP_MAX
    ensures 0 <= Fee(TotalAmount(amounts), bps) - TotalFee(amounts, bps) <= |amounts| - 1
  {
    TotalIsPositive(amounts);
    if |amounts| == 1 {
      assert amounts[1..] == [];
    } else {
      var head, tail := amounts[0], TotalAmount(amounts[1..]);
      TotalIsPositive(amounts[1..]);
      SplittingLowersTheFee(amounts[1..], bps);
      FeeOfSum(head, tail, bps);
    }
  }

  lemma FeeOfSum(x: int, y: int, bps: int)
    requires 0 <= bps <= 10000
    requires x >= 1 && y >= 1 && x + y <= NO_WRAP_MAX
    ensures 0 <= Fee(x + y, bps) - Fee(x, bps) - Fee(y, bps) <= 1
  {
    FeeWithoutOverflow(x, bps);
    FeeWithoutOverflow(y, bps);
    FeeWithoutOverflow(x + y, bps);
    Distribute(x, y, bps);
    FloorOfSum(x * bps, y * bps);
  }

  lemma Distribute(x: int, y: int, z: int)
    ensures (x + y) * z == x * z + y * z
  {
  }

  lemma FloorOfSum(x: int, y: int)
    ensures 0 <= (x + y) / 10000 - x / 10000 - y / 10000 <= 1
  {
  }
}
