/** The chapter-five exercises: a one-operator calculator that reports bad
    input as an error, and a closure that prefixes strings. */
module Calculator {
  import opened GoInt
  import opened GoTypes

  const UnsupportedOperand: string := "only supported operand is '/'"
  const DivideByZero: string := "can't divide by zero"

  /** `oneSimpleCalculator`: any operand other than "/" is rejected before
      the divisor is looked at; a zero divisor is rejected next; otherwise
      the quotient rounded toward zero comes back with a nil error, wrapping
      around to MinInt64 for MinInt64 / -1. */
  function OneSimpleCalculator(a: Int64, b: Int64, operand: string): (r: (Int64, Option<string>))
    ensures operand != "/" ==> r == (0, Some(UnsupportedOperand))
    ensures operand == "/" && b == 0 ==> r == (0, Some(DivideByZero))
    ensures r.1 == None <==> operand == "/" && b != 0
    ensures r.1 == None && !(a == MinInt64 && b == -1) ==> IsTruncDivision(a, b, r.0, a - r.0 * b)
    ensures operand == "/" && a == MinInt64 && b == -1 ==> r == (MinInt64, None)
  {
    if operand != "/" then (0, Some(UnsupportedOperand))
    else if b == 0 then (0, Some(DivideByZero))
    else
      TruncDivModSound(a, b);
      (Quo(a, b), None)
  }

  /** The program's call: 10 / 5 is 2; the zero check never masks a bad
      operand. */
  lemma CalculatorSamples()
    ensures OneSimpleCalculator(10, 5, "/") == (2, None)
    ensures OneSimpleCalculator(10, 0, "*") == (0, Some(UnsupportedOperand))
    ensures OneSimpleCalculator(-7, 2, "/") == (-3, None)
  {
  }

  /** `prefixer`: the returned closure puts the captured prefix in front of
      its argument, as `Sprintf("%s%s", ...)` does with two strings. */
  function Prefixer(prefix: string): (f: string -> string)
    ensures forall input :: prefix <= f(input) && |f(input)| == |prefix| + |input|
    ensures forall input :: f(input)[|prefix|..] == input
  {
    input => prefix + input
  }

  /** Prefixing and then dropping the prefix gives back the input, so two
      different inputs never print the same. The program's call gives
      ">>> cornholio". */
  lemma PrefixerInjective(prefix: string, x: string, y: string)
    requires Prefixer(prefix)(x) == Prefixer(prefix)(y)
    ensures x == y
    ensures Prefixer(">>> ")("cornholio") == ">>> cornholio"
  {
    assert x == Prefixer(prefix)(x)[|prefix|..];
  }
}
