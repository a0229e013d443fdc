/** The mod-10 check on strings of digits (ISO/IEC 7812-1, Annex B). */
module Luhn {

  type Digit = d: int | 0 <= d < 10

  // What a digit adds when it is at an even or an odd distance from the end.
  function Doubled(d: Digit): (v: Digit)
  {
    var twice := 2 * d;
    if twice > 9 then twice - 9 else twice
  }

  function Weight(d: Digit, distance: nat): Digit {
    if distance % 2 == 1 then Doubled(d) else d
  }

  function Total(digits: seq<Digit>): nat {
    if digits == [] then 0 else Weight(digits[0], |digits| - 1) + Total(digits[1..])
  }

  predicate Passes(digits: seq<Digit>) {
    Total(digits) % 10 == 0
  }

  method Check(digits: seq<Digit>) returns (ok: bool)
    ensures ok == Passes(digits)
  {
    var total: nat := 0;
    var n := |digits|;
    for index := 0 to n
      invariant total == Total(digits[n - index..])
    {
      var value: int := digits[n - 1 - index];
      if index % 2 == 1 {
        value := value * 2;
        if value > 9 {
          value := value - 9;
        }
      }
      assert digits[n - 1 - index..][1..] == digits[n - index..];
      total := total + value;
    }
    assert digits[0..] == digits;
    return total % 10 == 0;
  }

  // ---------- error detection ----------

  lemma {:induction false} WeightIsInjective(a: Digit, b: Digit, distance: nat)
    ensures Weight(a, distance) == Weight(b, distance) <==> a == b
  {
  }

  // The total is the sum of what lies before, at and after a place.
  lemma {:induction false} TotalSplits(digits: seq<Digit>, i: nat)
    requires i < |digits|
    ensures Total(digits) == Total(digits[i := 0]) + Weight(digits[i], |digits| - 1 - i)
  {
    if i > 0 {
      assert digits[i := 0][1..] == digits[1..][i - 1 := 0];
      TotalSplits(digits[1..], i - 1);
    } else {
      assert digits[0 := 0][1..] == digits[1..];
    }
  }

  lemma {:induction false} SmallDifference(x: nat, a: int, b: int)
    requires 0 <= a < 10 && 0 <= b < 10
    ensures (x + a) % 10 == (x + b) % 10 <==> a == b
  {
  }

  // Changing one digit moves the total to another remainder.
  lemma {:induction false} ChangedDigitMoves(digits: seq<Digit>, i: nat, d: Digit)
    requires i < |digits|
    ensures Total(digits[i := d]) % 10 == Total(digits) % 10 <==> d == digits[i]
  {
    TotalSplits(digits, i);
    TotalSplits(digits[i := d], i);
    assert digits[i := d][i := 0] == digits[i := 0];
    SmallDifference(Total(digits[i := 0]), Weight(digits[i], |digits| - 1 - i), Weight(d, |digits| - 1 - i));
    WeightIsInjective(d, digits[i], |digits| - 1 - i);
  }

  // Every single wrong digit is caught.
  lemma {:induction false} SingleErrorIsCaught(digits: seq<Digit>, i: nat, d: Digit)
    requires Passes(digits) && i < |digits| && d != digits[i]
    ensures !Passes(digits[i := d])
  {
    ChangedDigitMoves(digits, i, d);
  }

  predicate IsZeroNine(a: Digit, b: Digit) {
    (a == 0 && b == 9) || (a == 9 && b == 0)
  }

  lemma {:induction false} SwappedDoubles(a: Digit, b: Digit)
    ensures ((Doubled(a) + b) % 10 == (Doubled(b) + a) % 10) <==> (a == b || IsZeroNine(a, b))
  {
    var x, y := Doubled(a) + b, Doubled(b) + a;
    assert 0 <= x < 20 && 0 <= y < 20;
    if (a < 5) == (b < 5) {
      assert x - y == a - b;
    } else if a < 5 {
      assert x - y == a - b + 9;
    } else {
      assert x - y == a - b - 9;
    }
  }

  lemma {:induction false} SwappedWeights(a: Digit, b: Digit, distance: nat)
    ensures ((Weight(a, distance + 1) + Weight(b, distance)) % 10 ==
             (Weight(b, distance + 1) + Weight(a, distance)) % 10)
            <==> (a == b || IsZeroNine(a, b))
  {
    SwappedDoubles(a, b);
    assert (distance + 1) % 2 == 1 - distance % 2;
  }

  function Swap(digits: seq<Digit>, i: nat): seq<Digit>
    requires i + 1 < |digits|
  {
    digits[i := digits[i + 1]][i + 1 := digits[i]]
  }

  lemma {:induction false} SameRest(x: nat, a: int, b: int)
    requires a >= 0 && b >= 0
    ensures (x + a) % 10 == (x + b) % 10 <==> a % 10 == b % 10
  {
  }

  lemma {:induction false} TotalOfPair(digits: seq<Digit>, i: nat)
    requires i + 1 < |digits|
    ensures
      var distance := |digits| - 2 - i;
      var pair := Weight(digits[i], distance + 1) + Weight(digits[i + 1], distance);
      Total(digits) == Total(digits[i := 0][i + 1 := 0]) + pair
  {
    TotalSplits(digits, i);
    TotalSplits(digits[i := 0], i + 1);
  }

  lemma {:induction false} SwapTouchesPair(digits: seq<Digit>, i: nat)
    requires i + 1 < |digits|
    ensures |Swap(digits, i)| == |digits| && Swap(digits, i)[i] == digits[i + 1] && Swap(digits, i)[i + 1] == digits[i]
    ensures Swap(digits, i)[i := 0][i + 1 := 0] == digits[i := 0][i + 1 := 0]
  {
  }

  // Both orders of a pair of neighbours, over the total of the rest.
  lemma {:induction false} SwapTotals(digits: seq<Digit>, i: nat) returns (rest: nat, before: nat, after: nat)
    requires i + 1 < |digits|
    ensures Total(digits) == rest + before && Total(Swap(digits, i)) == rest + after
    ensures (before % 10 == after % 10) <==> (digits[i] == digits[i + 1] || IsZeroNine(digits[i], digits[i + 1]))
  {
    var a, b, distance := digits[i], digits[i + 1], |digits| - 2 - i;
    TotalOfPair(digits, i);
    TotalOfPair(Swap(digits, i), i);
    SwapTouchesPair(digits, i);
    rest := Total(digits[i := 0][i + 1 := 0]);
    before := Weight(a, distance + 1) + Weight(b, distance);
    after := Weight(b, distance + 1) + Weight(a, distance);
    SwappedWeights(a, b, distance);
  }

  // Swapping two different neighbours is caught, except for 0 and 9.
  lemma {:induction false} SwapIsCaughtExceptZeroNine(digits: seq<Digit>, i: nat)
    requires Passes(digits) && i + 1 < |digits|
    ensures Passes(Swap(digits, i)) <==> (digits[i] == digits[i + 1] || IsZeroNine(digits[i], digits[i + 1]))
  {
    var rest, before, after := SwapTotals(digits, i);
    SameRest(rest, before, after);
  }

  // Exactly one check digit completes a string.
  function CheckDigit(digits: seq<Digit>): Digit {
    (10 - Total(digits + [0]) % 10) % 10
  }

  lemma {:induction false} CompletesToTen(total: nat, d: Digit)
    ensures (total + d) % 10 == 0 <==> d == (10 - total % 10) % 10
  {
  }

  lemma {:induction false} ExactlyOneCheckDigit(digits: seq<Digit>, d: Digit)
    ensures Passes(digits + [d]) <==> d == CheckDigit(digits)
  {
    assert (digits + [d])[|digits| := 0] == digits + [0];
    TotalSplits(digits + [d], |digits|);
    assert Weight(d, 0) == d;
    CompletesToTen(Total(digits + [0]), d);
  }
}
