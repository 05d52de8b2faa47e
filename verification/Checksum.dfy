/**
  The checksums of app/core/checksum.py and the RRN validator of app/core/recognizers/kr_rrn.py.
  A digit is one of '0'..'9'.
 */
module Checksum {
  type digit = n: nat | n < 10

  predicate IsDigit(c: char) { '0' <= c <= '9' }

  function DigitOf(c: char): digit
    requires IsDigit(c)
  {
    (c as int - '0' as int) as digit
  }

  /** The digits of a text, everything else dropped. */
  function Digits(text: string): seq<digit> {
    if text == "" then []
    else (if IsDigit(text[0]) then [DigitOf(text[0])] else []) + Digits(text[1..])
  }

  /* ---------- Luhn (ISO/IEC 7812-1 Annex B) ---------- */

  function Doubled(n: digit): digit {
    if 2 * n > 9 then 2 * n - 9 else 2 * n
  }

  function Term(n: digit, doubled: bool): digit { if doubled then Doubled(n) else n }

  /** Every second digit doubled, counting from the right; `doubled` says whether the last one is. */
  function LuhnSum(d: seq<digit>, doubled: bool): nat {
    if d == [] then 0
    else Term(d[|d| - 1], doubled) + LuhnSum(d[..|d| - 1], !doubled)
  }

  predicate LuhnValid(d: seq<digit>) { |d| >= 2 && LuhnSum(d, false) % 10 == 0 }

  lemma LuhnPeel(d: seq<digit>, k: nat, doubled: bool)
    requires 0 < k <= |d|
    ensures LuhnSum(d[..k], doubled) == Term(d[k - 1], doubled) + LuhnSum(d[..k - 1], !doubled)
  {
    assert d[..k][..k - 1] == d[..k - 1];
  }

  method LuhnCheck(number: string) returns (ok: bool)
    ensures ok <==> LuhnValid(Digits(number))
  {
    hide LuhnSum, Digits;
    var d := Digits(number);
    if |d| < 2 {
      return false;
    }
    var total := 0;
    assert d[..|d|] == d;
    for i := 0 to |d|
      invariant total + LuhnSum(d[..|d| - i], i % 2 == 1) == LuhnSum(d, false)
    {
      var n: nat := d[|d| - 1 - i];
      LuhnRound(d, i, i % 2 == 1);
      if i % 2 == 1 {
        n := n * 2;
        if n > 9 {
          n := n - 9;
        }
      }
      total := total + n;
    }
    NoDigitsLeft(d, |d| % 2 == 1);
    ok := total % 10 == 0;
  }

  // One round of the loops: the digit i places from the right, and what is left of it.
  lemma LuhnRound(d: seq<digit>, i: nat, doubled: bool)
    requires i < |d|
    ensures LuhnSum(d[..|d| - i], doubled) == Term(d[|d| - 1 - i], doubled) + LuhnSum(d[..|d| - (i + 1)], !doubled)
    ensures ((i + 1) % 2 == 1) == !(i % 2 == 1) && ((i + 1) % 2 == 0) == !(i % 2 == 0)
  {
    LuhnPeel(d, |d| - i, doubled);
  }

  lemma NoDigitsLeft(d: seq<digit>, doubled: bool)
    ensures LuhnSum(d[..0], doubled) == 0
  {
  }

  function CheckDigit(p: seq<digit>): digit { (10 - LuhnSum(p, true) % 10) % 10 }

  method LuhnCheckDigit(part: string) returns (c: digit)
    ensures c == CheckDigit(Digits(part))
  {
    hide LuhnSum, Digits;
    var d := Digits(part);
    var total := 0;
    assert d[..|d|] == d;
    for i := 0 to |d|
      invariant total + LuhnSum(d[..|d| - i], i % 2 == 0) == LuhnSum(d, true)
    {
      var n: nat := d[|d| - 1 - i];
      LuhnRound(d, i, i % 2 == 0);
      if i % 2 == 0 {
        n := n * 2;
        if n > 9 {
          n := n - 9;
        }
      }
      total := total + n;
    }
    NoDigitsLeft(d, |d| % 2 == 0);
    c := (10 - total % 10) % 10;
  }

  /** The check digit completes a number, and no other digit does. */
  lemma CheckDigitCompletes(p: seq<digit>, x: digit)
    requires p != []
    ensures LuhnValid(p + [x]) <==> x == CheckDigit(p)
  {
    assert (p + [x])[..|p|] == p;
    assert LuhnSum(p + [x], false) == x + LuhnSum(p, true);
    hide LuhnSum;
    FillsToTen(LuhnSum(p, true), x);
  }

  lemma {:induction false} DigitsConcat(u: string, v: string)
    ensures Digits(u + v) == Digits(u) + Digits(v)
  {
    if u == "" {
      assert u + v == v;
    } else {
      var first: seq<digit> := if IsDigit(u[0]) then [DigitOf(u[0])] else [];
      assert (u + v)[0] == u[0] && (u + v)[1..] == u[1..] + v;
      assert Digits(u + v) == first + Digits(u[1..] + v) && Digits(u) == first + Digits(u[1..]);
      hide Digits;
      DigitsConcat(u[1..], v);
      assert first + (Digits(u[1..]) + Digits(v)) == first + Digits(u[1..]) + Digits(v);
    }
  }

  /** On texts, separators and all: a digit appended to a number completes it iff it is the check digit. */
  lemma CheckDigitCompletesText(part: string, c: char)
    requires Digits(part) != [] && IsDigit(c)
    ensures LuhnValid(Digits(part + [c])) <==> DigitOf(c) == CheckDigit(Digits(part))
  {
    DigitsConcat(part, [c]);
    assert Digits([c]) == [DigitOf(c)];
    CheckDigitCompletes(Digits(part), DigitOf(c));
  }

  lemma FillsToTen(sum: nat, x: digit)
    ensures (x + sum) % 10 == 0 <==> x == (10 - sum % 10) % 10
  {
  }

  lemma {:induction false} LuhnConcat(u: seq<digit>, v: seq<digit>, doubled: bool)
    ensures LuhnSum(u + v, doubled) == LuhnSum(v, doubled) + LuhnSum(u, doubled != (|v| % 2 == 1))
  {
    if v == [] {
      assert u + v == u;
    } else {
      assert (u + v)[..|u + v| - 1] == u + v[..|v| - 1];
      LuhnConcat(u, v[..|v| - 1], !doubled);
    }
  }

  // The digits from position i on, seen from the right.
  lemma LuhnAround(u: seq<digit>, mid: seq<digit>, v: seq<digit>)
    ensures LuhnSum(u + mid + v, false)
         == LuhnSum(v, false) + LuhnSum(mid, |v| % 2 == 1) + LuhnSum(u, (|mid| + |v|) % 2 == 1)
  {
    LuhnConcat(u + mid, v, false);
    LuhnConcat(u, mid, |v| % 2 == 1);
  }

  // What one changed digit does to the sum.
  lemma LuhnChange(d: seq<digit>, i: nat, y: digit)
    requires i < |d|
    ensures var doubled := (|d| - i - 1) % 2 == 1;
            LuhnSum(d[i := y], false) - LuhnSum(d, false) == Term(y, doubled) as int - Term(d[i], doubled) as int
  {
    hide LuhnSum, Term;
    var u, v := d[..i], d[i + 1..];
    assert d == u + [d[i]] + v && d[i := y] == u + [y] + v;
    LuhnAround(u, [d[i]], v);
    LuhnAround(u, [y], v);
    LuhnSingle(d[i], |v| % 2 == 1);
    LuhnSingle(y, |v| % 2 == 1);
  }

  lemma NotBothMultiplesOfTen(s: int, t: int)
    requires s != t && -9 <= s - t <= 9 && s % 10 == 0
    ensures t % 10 != 0
  {
  }

  /** Changing one digit of a valid number makes it invalid. */
  lemma LuhnCatchesSubstitution(d: seq<digit>, i: nat, y: digit)
    requires LuhnValid(d) && i < |d| && y != d[i]
    ensures !LuhnValid(d[i := y])
  {
    hide LuhnSum, Term;
    LuhnChange(d, i, y);
    TermIsInjective(y, d[i], (|d| - i - 1) % 2 == 1);
    NotBothMultiplesOfTen(LuhnSum(d, false), LuhnSum(d[i := y], false));
  }

  lemma LuhnSingle(a: digit, doubled: bool)
    ensures LuhnSum([a], doubled) == Term(a, doubled)
  {
  }

  lemma TermIsInjective(x: digit, y: digit, doubled: bool)
    requires x != y
    ensures Term(x, doubled) != Term(y, doubled)
  {
  }

  // What swapping two neighbours does to the sum.
  lemma LuhnSwap(d: seq<digit>, i: nat)
    requires i + 1 < |d|
    ensures var gap := Doubled(d[i]) + d[i + 1] - Doubled(d[i + 1]) - d[i];
            var change := LuhnSum(d[i := d[i + 1]][i + 1 := d[i]], false) - LuhnSum(d, false);
            change == gap || change == -gap
  {
    hide LuhnSum, Doubled;
    var u, v, a, b := d[..i], d[i + 2..], d[i], d[i + 1];
    assert d == u + [a, b] + v && d[i := b][i + 1 := a] == u + [b, a] + v;
    LuhnAround(u, [a, b], v);
    LuhnAround(u, [b, a], v);
    LuhnPair(a, b, |v| % 2 == 1);
    LuhnPair(b, a, |v| % 2 == 1);
  }

  /** Swapping two different neighbours makes it invalid, except for the pair 0 and 9. */
  lemma LuhnCatchesTransposition(d: seq<digit>, i: nat)
    requires LuhnValid(d) && i + 1 < |d| && d[i] != d[i + 1]
    ensures LuhnValid(d[i := d[i + 1]][i + 1 := d[i]]) <==> {d[i], d[i + 1]} == {0, 9}
  {
    hide LuhnSum, Doubled;
    LuhnSwap(d, i);
    SwappedTerms(d[i], d[i + 1], LuhnSum(d, false));
    ZeroAndNine(d[i], d[i + 1]);
  }

  lemma ZeroAndNine(a: digit, b: digit)
    ensures {a, b} == {0, 9} <==> (a == 0 && b == 9) || (a == 9 && b == 0)
  {
    assert {a, b} == {0, 9} ==> 0 in {a, b} && 9 in {a, b};
  }

  lemma LuhnPair(a: digit, b: digit, doubled: bool)
    ensures LuhnSum([a, b], doubled) == Term(b, doubled) + Term(a, !doubled)
  {
    assert [a, b][..1] == [a];
    assert LuhnSum([a], !doubled) == Term(a, !doubled);
  }

  lemma SwappedTerms(a: digit, b: digit, sum: int)
    requires a != b && sum % 10 == 0
    ensures var gap := Doubled(a) + b - Doubled(b) - a;
            var pair := (a == 0 && b == 9) || (a == 9 && b == 0);
            ((sum + gap) % 10 == 0 <==> pair) && ((sum - gap) % 10 == 0 <==> pair)
  {
  }

  /* ---------- Weighted sums ---------- */

  function Times(w: int, n: int): int { w * n }

  function Weighted(d: seq<digit>, w: seq<int>): int
    requires |d| >= |w|
  {
    if w == [] then 0 else Times(w[0], d[0]) + Weighted(d[1..], w[1..])
  }

  lemma TimesMoves(w: int, x: int, y: int)
    ensures Times(w, y) == Times(w, x) + Times(w, y - x)
  {
  }

  lemma {:induction false} WeightedChange(d: seq<digit>, w: seq<int>, i: nat, y: digit)
    requires |d| >= |w| && i < |d|
    ensures Weighted(d[i := y], w) == Weighted(d, w) + if i < |w| then Times(w[i], y as int - d[i] as int) else 0
  {
    hide Times;
    if w != [] && i > 0 {
      assert d[i := y][1..] == d[1..][i - 1 := y];
      WeightedChange(d[1..], w[1..], i - 1, y);
    } else if w != [] {
      assert d[i := y][1..] == d[1..];
      TimesMoves(w[0], d[0], y);
    }
  }

  /* ---------- Resident registration number ---------- */

  const RRN_WEIGHTS: seq<int> := [2, 3, 4, 5, 6, 7, 8, 9, 2, 3, 4, 5]

  function RrnSum(d: seq<digit>): int
    requires |d| >= 12
  {
    Weighted(d, RRN_WEIGHTS)
  }

  function RrnChecksum(d: seq<digit>): digit
    requires |d| >= 12
  {
    (11 - RrnSum(d) % 11) % 10
  }

  predicate RrnValid(d: seq<digit>) { |d| == 13 && d[12] == RrnChecksum(d) }

  // 11 is prime and the weights are below it.
  lemma NoMultipleOfEleven(w: int, delta: int, k: int)
    requires 2 <= w <= 9 && -9 <= delta <= 9 && delta != 0
    ensures w * delta != 11 * k
  {
    if w == 2 {
    } else if w == 3 {
    } else if w == 4 {
    } else if w == 5 {
    } else if w == 6 {
    } else if w == 7 {
    } else if w == 8 {
    } else {
      assert w == 9;
    }
  }

  // So a changed digit always moves the remainder.
  lemma WeightMovesRemainder(s: int, w: int, delta: int)
    requires 2 <= w <= 9 && -9 <= delta <= 9 && delta != 0
    ensures s % 11 != (s + Times(w, delta)) % 11
  {
    var p := Times(w, delta);
    NoMultipleOfEleven(w, delta, (s + p) / 11 - s / 11);
  }

  /**
    Changing one of the first twelve digits of a valid number goes unnoticed exactly when the
    weighted sums before and after leave the remainders 0 and 10, in either order; changing the
    last digit never does.
   */
  lemma RrnSubstitution(d: seq<digit>, i: nat, y: digit)
    requires RrnValid(d) && i < 13 && y != d[i]
    ensures RrnValid(d[i := y]) <==>
              && i < 12
              && (|| (RrnSum(d) % 11 == 0 && RrnSum(d[i := y]) % 11 == 10)
                  || (RrnSum(d) % 11 == 10 && RrnSum(d[i := y]) % 11 == 0))
  {
    hide Weighted, Times;
    WeightedChange(d, RRN_WEIGHTS, i, y);
    if i < 12 {
      assert 2 <= RRN_WEIGHTS[i] <= 9;
      WeightMovesRemainder(RrnSum(d), RRN_WEIGHTS[i], y as int - d[i] as int);
      SameCheckDigit(RrnSum(d) % 11, RrnSum(d[i := y]) % 11);
    }
  }

  // Only the remainders 0 and 10 share a check digit.
  lemma SameCheckDigit(r: int, t: int)
    requires 0 <= r < 11 && 0 <= t < 11 && r != t
    ensures (11 - r) % 10 == (11 - t) % 10 <==> (r == 0 && t == 10) || (r == 10 && t == 0)
  {
  }

  /* ---------- Business registration number ---------- */

  const BUSINESS_WEIGHTS: seq<int> := [1, 3, 7, 1, 3, 7, 1, 3, 5]

  function Carry(n: digit): int { (n as int * 5) / 10 }

  function BusinessSum(d: seq<digit>): int
    requires |d| >= 9
  {
    Weighted(d, BUSINESS_WEIGHTS) + Carry(d[8])
  }

  predicate BusinessValid(d: seq<digit>) { |d| == 10 && d[9] as int == (10 - BusinessSum(d) % 10) % 10 }

  lemma WeightMovesLastDigit(s: int, w: int, delta: int)
    requires w == 1 || w == 3 || w == 7
    requires -9 <= delta <= 9 && delta != 0
    ensures s % 10 != (s + Times(w, delta)) % 10
  {
    if w == 1 {
    } else if w == 3 {
    } else {
      assert w == 7;
    }
  }

  // With its carry the ninth digit contributes a permutation of the digits, modulo ten.
  function Permuted(n: digit): digit { if n % 2 == 0 then n / 2 else 5 + n / 2 }

  lemma CarryPermutes(n: digit)
    ensures 5 * (n as int) + Carry(n) == Permuted(n) as int + 10 * Carry(n)
  {
  }

  lemma PermutedInjective(x: digit, y: digit)
    requires x != y
    ensures Permuted(x) != Permuted(y)
  {
  }

  lemma SameLastDigit(s: int, a: int, b: int, k: int, l: int)
    requires 0 <= a < 10 && 0 <= b < 10 && a != b
    ensures (s + a + 10 * k) % 10 != (s + b + 10 * l) % 10
  {
  }

  lemma CarryIsPermutation(x: digit, y: digit, s: int)
    requires x != y
    ensures (s + 5 * (x as int) + Carry(x)) % 10 != (s + 5 * (y as int) + Carry(y)) % 10
  {
    CarryPermutes(x);
    CarryPermutes(y);
    PermutedInjective(x, y);
    hide Carry, Permuted;
    SameLastDigit(s, Permuted(x), Permuted(y), Carry(x), Carry(y));
  }

  // Changing one of the first nine digits moves the last digit of the sum.
  lemma BusinessSumMoves(d: seq<digit>, i: nat, y: digit)
    requires |d| == 10 && i < 9 && y != d[i]
    ensures BusinessSum(d[i := y]) % 10 != BusinessSum(d) % 10
  {
    hide Weighted, Carry, Times;
    WeightedChange(d, BUSINESS_WEIGHTS, i, y);
    var delta := y as int - d[i] as int;
    if i < 8 {
      var w := BUSINESS_WEIGHTS[i];
      assert w == 1 || w == 3 || w == 7;
      assert BusinessSum(d[i := y]) == BusinessSum(d) + Times(w, delta);
      WeightMovesLastDigit(BusinessSum(d), w, delta);
    } else {
      var rest := Weighted(d, BUSINESS_WEIGHTS) - 5 * (d[8] as int);
      FiveTimes(delta);
      CarryIsPermutation(y, d[8], rest);
      assert BusinessSum(d[i := y]) == rest + 5 * (y as int) + Carry(y);
    }
  }

  lemma FiveTimes(n: int)
    ensures Times(5, n) == 5 * n
  {
  }

  /** Every single-digit substitution in a valid business number is rejected. */
  lemma BusinessCatchesSubstitution(d: seq<digit>, i: nat, y: digit)
    requires BusinessValid(d) && i < 10 && y != d[i]
    ensures !BusinessValid(d[i := y])
  {
    if i < 9 {
      hide BusinessSum;
      BusinessSumMoves(d, i, y);
      ComplementsDiffer(BusinessSum(d) % 10, BusinessSum(d[i := y]) % 10);
    } else {
      hide Weighted;
      WeightedChange(d, BUSINESS_WEIGHTS, i, y);
    }
  }

  lemma ComplementsDiffer(r: int, t: int)
    requires 0 <= r < 10 && 0 <= t < 10 && r != t
    ensures (10 - r) % 10 != (10 - t) % 10
  {
  }

  /* ---------- The recognizer's validator ---------- */

  predicate LeapYear(y: nat) { y % 4 == 0 && (y % 100 != 0 || y % 400 == 0) }

  function DaysIn(y: nat, m: nat): nat {
    if m == 2 then if LeapYear(y) then 29 else 28
    else if m == 4 || m == 6 || m == 9 || m == 11 then 30
    else 31
  }

  predicate RealDate(y: nat, m: nat, d: nat) { 1 <= m <= 12 && 1 <= d <= DaysIn(y, m) }

  function TwoDigits(tens: nat, ones: nat): nat { 10 * tens + ones }

  /** Gender code 1-4, and a real Gregorian date in the century it stands for. */
  predicate BornOnRealDate(d: seq<digit>)
    requires |d| == 13
  {
    && 1 <= d[6] <= 4
    && RealDate((if d[6] <= 2 then 1900 else 2000) + TwoDigits(d[0], d[1]),
                TwoDigits(d[2], d[3]), TwoDigits(d[4], d[5]))
  }

  /** replace("-", "") and strip(). */
  function NoHyphens(text: string): string {
    if text == "" then "" else (if text[0] == '-' then "" else [text[0]]) + NoHyphens(text[1..])
  }

  function Strip(text: string): string
    decreases |text|
  {
    if text == "" then ""
    else if IsSpace(text[0]) then Strip(text[1..])
    else if IsSpace(text[|text| - 1]) then Strip(text[..|text| - 1])
    else text
  }

  predicate IsSpace(c: char) { c == ' ' || c == '\t' || c == '\n' || c == '\r' }

  predicate AllDigits(text: string) { forall i :: 0 <= i < |text| ==> IsDigit(text[i]) }

  predicate RrnIsValid(rrn: string) {
    var compact := Strip(NoHyphens(rrn));
    |compact| == 13 && AllDigits(compact) && RrnValid(Digits(compact))
  }

  predicate ValidateResult(text: string) {
    var d := Digits(text);
    |d| == 13 && BornOnRealDate(d) && d[12] == RrnChecksum(d[..12])
  }

  lemma {:induction false} CompactedDigits(text: string)
    requires forall i :: 0 <= i < |text| ==> IsDigit(text[i]) || text[i] == '-'
    ensures AllDigits(NoHyphens(text)) && Digits(NoHyphens(text)) == Digits(text)
  {
    if text != "" {
      CompactedDigits(text[1..]);
      if text[0] != '-' {
        assert NoHyphens(text)[1..] == NoHyphens(text[1..]);
      } else {
        assert NoHyphens(text) == NoHyphens(text[1..]);
        assert Digits(text) == Digits(text[1..]);
      }
    }
  }

  lemma {:induction false} DigitsOfDigits(text: string)
    requires AllDigits(text)
    ensures |Digits(text)| == |text|
  {
    if text != "" {
      DigitsOfDigits(text[1..]);
    }
  }

  /**
    On the texts the recognizer's patterns can match (digits and hyphens), the validator accepts
    exactly the valid numbers that also carry a gender code 1-4 and a real date in its century.
   */
  lemma ValidatorIsExact(text: string)
    requires forall i :: 0 <= i < |text| ==> IsDigit(text[i]) || text[i] == '-'
    ensures ValidateResult(text) <==> RrnIsValid(text) && |Digits(text)| == 13 && BornOnRealDate(Digits(text))
  {
    hide BornOnRealDate;
    CompactedDigits(text);
    DigitsOfDigits(NoHyphens(text));
    assert Strip(NoHyphens(text)) == NoHyphens(text);
    if |Digits(text)| == 13 {
      WeightedPrefix(Digits(text), RRN_WEIGHTS);
    }
  }

  lemma {:induction false} WeightedPrefix(d: seq<digit>, w: seq<int>)
    requires |d| >= |w|
    ensures Weighted(d[..|w|], w) == Weighted(d, w)
  {
    if w != [] {
      assert d[..|w|][1..] == d[1..][..|w| - 1];
      WeightedPrefix(d[1..], w[1..]);
    }
  }

  /* ---------- The sums, digit by digit ---------- */

  lemma WeightedFrom(d: seq<digit>, w: seq<int>, i: nat, k: int)
    requires |d| >= |w| && i < |w| && w[i] == k
    ensures Weighted(d[i..], w[i..]) == k * (d[i] as int) + Weighted(d[i + 1..], w[i + 1..])
  {
    assert d[i..][1..] == d[i + 1..] && w[i..][1..] == w[i + 1..];
  }

  lemma RrnSumByDigits(d: seq<digit>)
    requires |d| >= 12
    ensures RrnSum(d) == 2 * d[0] as int + 3 * d[1] as int + 4 * d[2] as int + 5 * d[3] as int + 6 * d[4] as int
                         + 7 * d[5] as int + 8 * d[6] as int + 9 * d[7] as int + 2 * d[8] as int + 3 * d[9] as int
                         + 4 * d[10] as int + 5 * d[11] as int
  {
    var w := RRN_WEIGHTS;
    assert d[0..] == d && w[0..] == w && w[12..] == [];
    assert Weighted(d[12..], []) == 0;
    hide Weighted;
    WeightedFrom(d, w, 0, 2);
    WeightedFrom(d, w, 1, 3);
    WeightedFrom(d, w, 2, 4);
    WeightedFrom(d, w, 3, 5);
    WeightedFrom(d, w, 4, 6);
    WeightedFrom(d, w, 5, 7);
    WeightedFrom(d, w, 6, 8);
    WeightedFrom(d, w, 7, 9);
    WeightedFrom(d, w, 8, 2);
    WeightedFrom(d, w, 9, 3);
    WeightedFrom(d, w, 10, 4);
    WeightedFrom(d, w, 11, 5);
  }

  lemma BusinessSumByDigits(d: seq<digit>)
    requires |d| >= 9
    ensures BusinessSum(d) == d[0] as int + 3 * d[1] as int + 7 * d[2] as int + d[3] as int + 3 * d[4] as int
                              + 7 * d[5] as int + d[6] as int + 3 * d[7] as int + 5 * d[8] as int + 5 * d[8] as int / 10
  {
    var w := BUSINESS_WEIGHTS;
    assert d[0..] == d && w[0..] == w && w[9..] == [];
    assert Weighted(d[9..], []) == 0;
    assert Carry(d[8]) == 5 * d[8] as int / 10;
    hide Weighted, Carry;
    WeightedFrom(d, w, 0, 1);
    WeightedFrom(d, w, 1, 3);
    WeightedFrom(d, w, 2, 7);
    WeightedFrom(d, w, 3, 1);
    WeightedFrom(d, w, 4, 3);
    WeightedFrom(d, w, 5, 7);
    WeightedFrom(d, w, 6, 1);
    WeightedFrom(d, w, 7, 3);
    WeightedFrom(d, w, 8, 5);
  }

  /** The tenth digit of a business number makes up the sum to a multiple of ten. */
  lemma BusinessValidIff(d: seq<digit>)
    ensures BusinessValid(d) <==> |d| == 10 && (BusinessSum(d) + d[9] as int) % 10 == 0
  {
    hide BusinessSum;
    if |d| == 10 {
      CompletesToTen(BusinessSum(d), d[9]);
    }
  }

  lemma CompletesToTen(sum: int, x: digit)
    ensures x as int == (10 - sum % 10) % 10 <==> (sum + x as int) % 10 == 0
  {
  }

  /** Doubling adds the two decimal digits of the product, as the standard words it. */
  lemma DoubledIsDigitSum(n: digit)
    ensures Doubled(n) as int == (2 * n) / 10 + (2 * n) % 10
  {
  }

  /** The Luhn sum from the left, two digits at a time: the last digit counts as it is, the one before it doubled. */
  lemma LuhnByPairs(d: seq<digit>, a: digit, b: digit)
    ensures LuhnSum(d + [a, b], false) == LuhnSum(d, false) + (2 * a) / 10 + (2 * a) % 10 + b
    ensures LuhnSum([], false) == 0 && LuhnSum([b], false) == b
  {
    DoubledIsDigitSum(a);
    LuhnConcat(d, [a, b], false);
    LuhnPair(a, b, false);
    LuhnSingle(b, false);
  }

  /** The days of a month of a year 19yy or 20yy: only 1900 of the years divisible by four is no leap year. */
  lemma MonthsOfTheCentury(y: nat, m: nat, d: nat)
    requires 1900 <= y < 2100
    ensures RealDate(y, m, d) <==>
              && 1 <= m <= 12 && 1 <= d <= 31
              && (d == 31 ==> m in {1, 3, 5, 7, 8, 10, 12})
              && (m == 2 ==> d <= 29 && (d == 29 ==> y % 4 == 0 && y != 1900))
  {
  }

  /** What the validator accepts, in the digits of the text, whatever stands between them. */
  lemma ValidatorByDigits(text: string)
    ensures var d := Digits(text);
            ValidateResult(text) <==>
              && |d| == 13 && 1 <= d[6] <= 4
              && RealDate((if d[6] == 1 || d[6] == 2 then 1900 else 2000) + 10 * d[0] as nat + d[1] as nat,
                          10 * d[2] as nat + d[3] as nat, 10 * d[4] as nat + d[5] as nat)
              && d[12] as int == (11 - RrnSum(d) % 11) % 10
  {
    var d := Digits(text);
    hide RealDate, Digits;
    if |d| == 13 {
      WeightedPrefix(d, RRN_WEIGHTS);
    }
    hide Weighted;
  }
}
