/** Small functions showing Go's function features: variadic parameters,
    multiple and named results, closures, and the way maps and slices passed
    by value still share their contents with the caller. */
module Functions {
  import opened GoInt
  import opened GoTypes

  /** `addTo`: one result per value, each the base plus that value in int64
      arithmetic; no values give an empty result. */
  method AddTo(base: Int64, vals: seq<Int64>) returns (out: seq<Int64>)
    ensures |out| == |vals|
    ensures forall i :: 0 <= i < |vals| ==> out[i] == Wrap64(base + vals[i])
  {
    out := [];
    var k := 0;
    while k < |vals|
      invariant 0 <= k <= |vals|
      invariant |out| == k
      invariant forall i :: 0 <= i < k ==> out[i] == Wrap64(base + vals[i])
    {
      out := out + [Wrap64(base + vals[k])];
      k := k + 1;
    }
  }

  /** `div`: zero for a zero denominator, otherwise the quotient rounded
      toward zero (which wraps around only for MinInt64 / -1). */
  function Div(num: Int64, denom: Int64): (q: Int64)
    ensures denom == 0 ==> q == 0
    ensures denom != 0 && !(num == MinInt64 && denom == -1) ==> IsTruncDivision(num, denom, q, num - q * denom)
    ensures num == MinInt64 && denom == -1 ==> q == MinInt64
  {
    if denom == 0 then 0
    else
      TruncDivModSound(num, denom);
      Quo(num, denom)
  }

  const DivideByZero: string := "cannot divide by zero"

  /** `divAndRemainder`: zeros and an error for a zero denominator; otherwise
      the quotient and remainder Go's `/` and `%` give, and a nil error. */
  function DivAndRemainder(num: Int64, denom: Int64): (r: (Int64, Int64, Option<string>))
    ensures denom == 0 ==> r == (0, 0, Some(DivideByZero))
    ensures denom != 0 ==> r.2 == None && Wrap64(r.0 * denom + r.1) == num
    ensures denom != 0 && !(num == MinInt64 && denom == -1) ==> IsTruncDivision(num, denom, r.0, r.1)
    ensures num == MinInt64 && denom == -1 ==> r.0 == MinInt64 && r.1 == 0
  {
    if denom == 0 then (0, 0, Some(DivideByZero))
    else
      QuoRemIdentity(num, denom);
      (Quo(num, denom), Rem(num, denom), None)
  }

  /** `divAndRemainderNamedReturnValues`: the named results start at their
      zero values and the error is never assigned on the success path. */
  function DivAndRemainderNamedReturnValues(num: Int64, denom: Int64): (r: (Int64, Int64, Option<string>))
    ensures r == DivAndRemainder(num, denom)
  {
    var err: Option<string> := None;
    if denom == 0 then (0, 0, Some(DivideByZero))
    else
      var result, remainder := Quo(num, denom), Rem(num, denom);
      (result, remainder, err)
  }

  /** `returningFunctionFromAFunction`: the returned closure multiplies its
      argument by the captured base. */
  function ReturningFunctionFromAFunction(base: Int64): (f: Int64 -> Int64)
    ensures forall factor :: f(factor) == Wrap64(base * factor)
  {
    factor => Wrap64(base * factor)
  }

  /** The program's use: a closure over 7 applied to 12. The order of the
      two factors does not matter. */
  lemma MultiplierSample(a: Int64, b: Int64)
    ensures ReturningFunctionFromAFunction(7)(12) == 84
    ensures ReturningFunctionFromAFunction(a)(b) == ReturningFunctionFromAFunction(b)(a)
  {
    assert a * b == b * a;
  }

  /** `f1`: Go's `len` on a string counts the bytes of its UTF-8 encoding. */
  function F1(a: string): (n: nat)
    ensures |a| <= n <= 4 * |a|
    ensures n == |a| <==> IsAscii(a)
  {
    Utf8Length(a);
    |Utf8(a)|
  }

  lemma F1Sample()
    ensures F1("Hello") == 5
  {
    Utf8Length("Hello");
  }

  /** `modSlice`: every element of the caller's slice is doubled in place.
      The append afterwards grows only the callee's copy of the slice
      header; `local` is that copy, and the caller's length is unchanged. */
  method ModSlice(s: array<Int64>) returns (local: seq<Int64>)
    modifies s
    ensures forall i :: 0 <= i < s.Length ==> s[i] == Wrap64(2 * (old(s[i]) as int))
    ensures local == s[..] + [10]
  {
    var k := 0;
    while k < s.Length
      invariant 0 <= k <= s.Length
      invariant forall i :: 0 <= i < k ==> s[i] == Wrap64(2 * (old(s[i]) as int))
      invariant forall i :: k <= i < s.Length ==> s[i] == old(s[i])
    {
      s[k] := Wrap64(2 * (s[k] as int));
      k := k + 1;
    }
    local := s[..] + [10];
  }

  /** `modMap`: key 2 now holds "hello", key 3 holds "goodbye", key 1 is
      gone, and every other entry is as it was. */
  function ModMap(m: map<int, string>): (r: map<int, string>)
    ensures r.Keys == m.Keys - {1} + {2, 3}
    ensures r[2] == "hello" && r[3] == "goodbye"
    ensures forall k :: k in m && k != 1 && k != 2 && k != 3 ==> r[k] == m[k]
  {
    m[2 := "hello"][3 := "goodbye"] - {1}
  }

  /** Applying the update twice is the same as applying it once; the
      program's map {1: "first", 2: "second"} ends as {2: "hello",
      3: "goodbye"}. */
  lemma ModMapIdempotent(m: map<int, string>)
    ensures ModMap(ModMap(m)) == ModMap(m)
    ensures ModMap(map[1 := "first", 2 := "second"]) == map[2 := "hello", 3 := "goodbye"]
  {
    assert ModMap(map[1 := "first", 2 := "second"]).Keys == {2, 3};
  }
}
