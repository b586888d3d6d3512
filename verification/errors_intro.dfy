/** Returning an error as the last result: quotient and remainder of two
    ints, or an error when the denominator is zero. */
module ErrorsIntro {
  import opened GoInt
  import opened GoTypes

  const DenominatorZero: string := "denominator is 0"

  /** `calcRemainderAndMod`: zeros and an error for a zero denominator;
      otherwise Go's quotient and remainder (the remainder takes the sign of
      the numerator) and a nil error. */
  function CalcRemainderAndMod(numerator: Int64, denominator: Int64): (r: (Int64, Int64, Option<string>))
    ensures denominator == 0 ==> r == (0, 0, Some(DenominatorZero))
    ensures denominator != 0 ==> r.2 == None && Wrap64(r.0 * denominator + r.1) == numerator
    ensures denominator != 0 ==> Abs(r.1) < Abs(denominator) && (numerator >= 0 ==> r.1 >= 0) && (numerator < 0 ==> r.1 <= 0)
    ensures denominator != 0 && !(numerator == MinInt64 && denominator == -1) ==> numerator == r.0 * denominator + r.1
  {
    if denominator == 0 then (0, 0, Some(DenominatorZero))
    else
      QuoRemIdentity(numerator, denominator);
      TruncDivModSound(numerator, denominator);
      (Quo(numerator, denominator), Rem(numerator, denominator), None)
  }

  /** The program's call: 10 and 3 give 3 and 1; a negative numerator gives
      a negative remainder. */
  lemma CalcSamples()
    ensures CalcRemainderAndMod(10, 3) == (3, 1, None)
    ensures CalcRemainderAndMod(-10, 3) == (-3, -1, None)
    ensures CalcRemainderAndMod(10, 0) == (0, 0, Some(DenominatorZero))
  {
  }
}
