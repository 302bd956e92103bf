/** The numbers of single precision, and rounding to the nearest of them, as IEEE 754 defines them, for the
    range in which the bridge divides. */
module SinglePrecision {

  function Power(e: int): real
    decreases if e < 0 then -e else e
  {
    if e == 0 then 1.0 else if e > 0 then 2.0 * Power(e - 1) else Power(e + 1) / 2.0
  }

  function Scaled(m: int, e: int): real {
    m as real * Power(e)
  }

  const SIGNIFICAND_LIMIT := 0x100_0000
  const LEAST_EXPONENT := -149
  const GREATEST_EXPONENT := 104

  /** The finite numbers: 24 significant bits, scaled. */
  ghost predicate IsSingle(x: real) {
    exists m: int, e: int ::
      -SIGNIFICAND_LIMIT < m < SIGNIFICAND_LIMIT && LEAST_EXPONENT <= e <= GREATEST_EXPONENT && x == Scaled(m, e)
  }

  function Distance(x: real, y: real): real {
    if x <= y then y - x else x - y
  }

  /** y is the number that x is rounded to: none is nearer. A tie may go either way. */
  ghost predicate RoundsTo(x: real, y: real) {
    IsSingle(y) && forall z: real :: IsSingle(z) ==> Distance(x, y) <= Distance(x, z)
  }

  lemma IntegersAreSingle(n: int)
    requires -SIGNIFICAND_LIMIT < n < SIGNIFICAND_LIMIT
    ensures IsSingle(n as real)
  {
    assert n as real == Scaled(n, 0);
  }

  lemma PowerOfMinusEight()
    ensures Power(-8) == 1.0 / 256.0
  {
    assert Power(-4) == 1.0 / 16.0;
  }

  lemma FractionsAreSingle(m: int)
    requires -SIGNIFICAND_LIMIT < m < SIGNIFICAND_LIMIT
    ensures IsSingle(m as real / 256.0)
  {
    PowerOfMinusEight();
    hide Power;
    assert m as real / 256.0 == Scaled(m, -8);
  }

  lemma SingleIsExact(x: real, y: real)
    requires IsSingle(x) && RoundsTo(x, y)
    ensures y == x
  {
    hide IsSingle;
    assert Distance(x, x) == 0.0;
  }

  /** Below 2^16 neighbouring numbers are at most 1/256 apart, so rounding errs by at most 1/512. */
  lemma RoundingError(x: real, y: real)
    requires 0.0 <= x <= 65535.0 && RoundsTo(x, y)
    ensures -1.0 / 512.0 <= y - x <= 1.0 / 512.0
  {
    var m := (x * 256.0 + 0.5).Floor;
    assert m as real <= x * 256.0 + 0.5 < m as real + 1.0;
    FractionsAreSingle(m);
    hide IsSingle;
    assert Distance(x, m as real / 256.0) <= 1.0 / 512.0;
  }
}
