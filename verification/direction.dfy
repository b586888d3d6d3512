/** The `String` method that the stringer tool generates for `Direction`:
    one string holding every name back to back, and an offset table that
    says where each name starts and ends. */
module DirectionStringer {
  import opened GoInt
  import Decimal

  /** `type Direction int`. */
  type Direction = Int64

  /** The constants declared with `iota`, skipping zero. */
  const North: Direction := 1
  const South: Direction := 2
  const East: Direction := 3
  const West: Direction := 4

  const DirectionName: string := "NorthSouthEastWest"

  /** The `uint8` offset table; entry `i` is where name `i` starts and
      entry `i + 1` where it ends. */
  const DirectionIndex: seq<nat> := [0, 5, 10, 14, 18]

  /** The names the constants are meant to print, one per constant in
      declaration order. */
  const DirectionNames: seq<string> := ["North", "South", "East", "West"]

  /** The offset table is strictly increasing, starts at zero and ends at the
      end of the name string, so every slice it describes is in bounds. */
  lemma IndexWellFormed()
    ensures DirectionIndex[0] == 0
    ensures forall i :: 0 <= i < |DirectionIndex| - 1 ==> DirectionIndex[i] < DirectionIndex[i + 1]
    ensures DirectionIndex[|DirectionIndex| - 1] == |DirectionName|
    ensures forall i :: 0 <= i < |DirectionIndex| ==> DirectionIndex[i] <= |DirectionName|
  {
  }

  /** The slice of the name string that the offset table gives for index `i`
      is the `i`-th declared name. */
  function NameAt(i: int): (s: string)
    requires 0 <= i < |DirectionIndex| - 1
    ensures s == DirectionNames[i]
  {
    IndexWellFormed();
    var s := DirectionName[DirectionIndex[i]..DirectionIndex[i + 1]];
    if i == 0 then assert s == "North"; s
    else if i == 1 then assert s == "South"; s
    else if i == 2 then assert s == "East"; s
    else assert s == "West"; s
  }

  /** `Direction.String`: a declared constant prints its own name; any other
      value prints as `Direction(<n>)` with `n` the value itself in decimal. */
  function String(d: Direction): (s: string)
    ensures 1 <= d <= 4 ==> s == DirectionNames[d - 1]
    ensures !(1 <= d <= 4) ==> s == "Direction(" + Decimal.FormatInt(d) + ")"
  {
    OffsetRestoresValue(d);
    var i := Wrap64(d - 1);
    if i < 0 || i >= |DirectionIndex| - 1 then
      "Direction(" + Decimal.FormatInt(Wrap64(i + 1)) + ")"
    else
      NameAt(i)
  }

  /** Stepping the receiver down by one and back up in int64 arithmetic gives
      the original value back, even across the wrap-around at MinInt64; so
      the fallback prints the caller's value and not the shifted index. */
  lemma OffsetRestoresValue(d: Direction)
    ensures Wrap64(Wrap64(d - 1) + 1) == d
    ensures 1 <= d <= 4 <==> 0 <= Wrap64(d - 1) < 4
  {
    if d == MinInt64 {
      assert Wrap64(d - 1) == MaxInt64;
      assert Wrap64(MaxInt64 + 1) == MinInt64;
    } else {
      assert Wrap64(d - 1) == d - 1;
    }
  }

  /** The four constants print as their own names. */
  lemma ConstantsPrintTheirNames()
    ensures String(North) == "North"
    ensures String(South) == "South"
    ensures String(East) == "East"
    ensures String(West) == "West"
  {
  }

  /** Distinct directions print distinct strings, whether declared or not. */
  lemma StringInjective(a: Direction, b: Direction)
    requires String(a) == String(b)
    ensures a == b
  {
    var sa, sb := String(a), String(b);
    if 1 <= a <= 4 && 1 <= b <= 4 {
    } else if !(1 <= a <= 4) && !(1 <= b <= 4) {
      var fa, fb := Decimal.FormatInt(a), Decimal.FormatInt(b);
      assert fa == sa[10..|sa| - 1];
      assert fb == sb[10..|sb| - 1];
      Decimal.FormatIntInjective(a, b);
    } else {
      FallbackIsRecognisable(a);
      FallbackIsRecognisable(b);
    }
  }

  /** Exactly the values outside the declared constants print with the
      `Direction(` prefix, so the two branches cannot be confused. */
  lemma FallbackIsRecognisable(d: Direction)
    ensures ("Direction(" <= String(d)) <==> !(1 <= d <= 4)
  {
    if 1 <= d <= 4 {
      assert |String(d)| < |"Direction("|;
    }
  }
}
