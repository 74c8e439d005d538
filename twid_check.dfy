/** The Taiwan National ID validator of src/twid.rs: the region table
    (`get_region_number`) and the checksum test (`is_valid_taiwan_id`).

    An ID is one region letter, a gender digit and eight more digits. The region
    letter becomes a two-digit region code, the code's two digits followed by
    the nine digits of the ID form an eleven-digit vector, and the ID is valid
    when the weighted sum of that vector is a multiple of ten. */
module TaiwanIdCheck {
  import opened Results
  import opened Ascii

  /** Rust's `u16`, the type of the region code, the digit vector and the sum. */
  newtype u16 = x: int | 0 <= x < 0x1_0000

  /** Region letters in the order of their codes 10, 11, ..., 35. */
  const RegionOrder: string := "ABCDEFGHJKLMNPQRSTUVXYWZIO"

  /** The eleven checksum weights, one per entry of the digit vector. */
  const Coefficients: seq<int> := [1, 9, 8, 7, 6, 5, 4, 3, 2, 1, 1]

  /** The letters of `RegionOrder` at positions 0 to 6. */
  lemma RegionOrderFirst()
    ensures |RegionOrder| == 26
    ensures RegionOrder[0] == 'A' && RegionOrder[1] == 'B' && RegionOrder[2] == 'C' && RegionOrder[3] == 'D' &&
      RegionOrder[4] == 'E' && RegionOrder[5] == 'F' && RegionOrder[6] == 'G'
  { }

  /** The letters of `RegionOrder` at positions 7 to 12. */
  lemma RegionOrderSecond()
    ensures |RegionOrder| == 26
    ensures RegionOrder[7] == 'H' && RegionOrder[8] == 'J' && RegionOrder[9] == 'K' && RegionOrder[10] == 'L' &&
      RegionOrder[11] == 'M' && RegionOrder[12] == 'N'
  { }

  /** The letters of `RegionOrder` at positions 13 to 19. */
  lemma RegionOrderThird()
    ensures |RegionOrder| == 26
    ensures RegionOrder[13] == 'P' && RegionOrder[14] == 'Q' && RegionOrder[15] == 'R' && RegionOrder[16] == 'S' &&
      RegionOrder[17] == 'T' && RegionOrder[18] == 'U' && RegionOrder[19] == 'V'
  { }

  /** The letters of `RegionOrder` at positions 20 to 25. */
  lemma RegionOrderFourth()
    ensures |RegionOrder| == 26
    ensures RegionOrder[20] == 'X' && RegionOrder[21] == 'Y' && RegionOrder[22] == 'W' && RegionOrder[23] == 'Z' &&
      RegionOrder[24] == 'I' && RegionOrder[25] == 'O'
  { }

  /** `get_region_number`: the region code of an upper-case letter is ten plus
      the letter's position in `RegionOrder`; every other character has none. */
  function RegionNumber(region: char): (r: Option<u16>)
    ensures r.Some? <==> IsUpper(region)
    ensures r.Some? ==> 10 <= r.value <= 35 && RegionOrder[r.value as int - 10] == region
  {
    RegionOrderFirst(); RegionOrderSecond(); RegionOrderThird(); RegionOrderFourth();
    match region
    case 'A' => Some(10)
    case 'B' => Some(11)
    case 'C' => Some(12)
    case 'D' => Some(13)
    case 'E' => Some(14)
    case 'F' => Some(15)
    case 'G' => Some(16)
    case 'H' => Some(17)
    case 'I' => Some(34)
    case 'J' => Some(18)
    case 'K' => Some(19)
    case 'L' => Some(20)
    case 'M' => Some(21)
    case 'N' => Some(22)
    case 'O' => Some(35)
    case 'P' => Some(23)
    case 'Q' => Some(24)
    case 'R' => Some(25)
    case 'S' => Some(26)
    case 'T' => Some(27)
    case 'U' => Some(28)
    case 'V' => Some(29)
    case 'W' => Some(32)
    case 'X' => Some(30)
    case 'Y' => Some(31)
    case 'Z' => Some(33)
    case _ => None
  }

  /** Positions 0 to 6: codes 10 to 16. */
  lemma RegionCodesFirst(k: int)
    requires 0 <= k < 7
    ensures RegionNumber(RegionOrder[k]) == Some((k + 10) as u16)
  {
    match k
    case 0 => assert RegionOrder[0] == 'A';
    case 1 => assert RegionOrder[1] == 'B';
    case 2 => assert RegionOrder[2] == 'C';
    case 3 => assert RegionOrder[3] == 'D';
    case 4 => assert RegionOrder[4] == 'E';
    case 5 => assert RegionOrder[5] == 'F';
    case 6 => assert RegionOrder[6] == 'G';
  }

  /** Positions 7 to 12: codes 17 to 22. */
  lemma RegionCodesSecond(k: int)
    requires 7 <= k < 13
    ensures RegionNumber(RegionOrder[k]) == Some((k + 10) as u16)
  {
    match k
    case 7 => assert RegionOrder[7] == 'H';
    case 8 => assert RegionOrder[8] == 'J';
    case 9 => assert RegionOrder[9] == 'K';
    case 10 => assert RegionOrder[10] == 'L';
    case 11 => assert RegionOrder[11] == 'M';
    case 12 => assert RegionOrder[12] == 'N';
  }

  /** Positions 13 to 19: codes 23 to 29. */
  lemma RegionCodesThird(k: int)
    requires 13 <= k < 20
    ensures RegionNumber(RegionOrder[k]) == Some((k + 10) as u16)
  {
    match k
    case 13 => assert RegionOrder[13] == 'P';
    case 14 => assert RegionOrder[14] == 'Q';
    case 15 => assert RegionOrder[15] == 'R';
    case 16 => assert RegionOrder[16] == 'S';
    case 17 => assert RegionOrder[17] == 'T';
    case 18 => assert RegionOrder[18] == 'U';
    case 19 => assert RegionOrder[19] == 'V';
  }

  /** Positions 20 to 25: codes 30 to 35. */
  lemma RegionCodesFourth(k: int)
    requires 20 <= k < 26
    ensures RegionNumber(RegionOrder[k]) == Some((k + 10) as u16)
  {
    match k
    case 20 => assert RegionOrder[20] == 'X';
    case 21 => assert RegionOrder[21] == 'Y';
    case 22 => assert RegionOrder[22] == 'W';
    case 23 => assert RegionOrder[23] == 'Z';
    case 24 => assert RegionOrder[24] == 'I';
    case 25 => assert RegionOrder[25] == 'O';
  }

  /** Each letter of `RegionOrder` gets the code of its position. */
  lemma RegionNumberByPosition(k: int)
    requires 0 <= k < |RegionOrder|
    ensures RegionNumber(RegionOrder[k]) == Some((k + 10) as u16)
  {
    if k < 7 {
      RegionCodesFirst(k);
    } else if k < 13 {
      RegionCodesSecond(k);
    } else if k < 20 {
      RegionCodesThird(k);
    } else {
      RegionCodesFourth(k);
    }
  }

  /** Distinct letters never share a region code. */
  lemma RegionNumberInjective(c1: char, c2: char)
    requires RegionNumber(c1).Some? && RegionNumber(c1) == RegionNumber(c2)
    ensures c1 == c2
  {
  }

  /** Gender digits accepted by the validator: 1 and 8 male, 2 and 9 female. */
  predicate IsGenderDigit(c: char) {
    c == '1' || c == '2' || c == '8' || c == '9'
  }

  /** The format checks that precede the checksum, on the upper-cased input:
      ten characters, a letter, nine digits, and a gender digit second. */
  predicate WellFormed(chars: string) {
    |chars| == 10 &&
    IsAlphabetic(chars[0]) &&
    (forall i | 1 <= i < |chars| :: IsDigit(chars[i])) &&
    IsGenderDigit(chars[1])
  }

  /** The digit vector: the two decimal digits of the region code, then the
      value of every character after the first. */
  function DigitVector(regionCode: int, chars: string): (ds: seq<int>)
    requires 0 <= regionCode < 100
    requires |chars| >= 1 && forall i | 1 <= i < |chars| :: IsDigit(chars[i])
    ensures |ds| == |chars| + 1
    ensures forall j | 0 <= j < |ds| :: 0 <= ds[j] <= 9
  {
    [regionCode / 10, regionCode % 10] +
    seq(|chars| - 1, i requires 0 <= i < |chars| - 1 => DigitValue(chars[i + 1]))
  }

  /** `ds.iter().zip(ws.iter()).map(|(d, w)| d * w).sum()`: the zip stops at
      the end of the shorter sequence. */
  function WeightedSum(ds: seq<int>, ws: seq<int>): int {
    if |ds| == 0 || |ws| == 0 then 0 else ds[0] * ws[0] + WeightedSum(ds[1..], ws[1..])
  }

  /** `is_valid_taiwan_id`, as a predicate on the input. */
  predicate ValidTaiwanId(input: string) {
    |input| == 10 &&
    var chars := ToUpper(input);
    WellFormed(chars) &&
    RegionNumber(chars[0]).Some? &&
    WeightedSum(DigitVector(RegionNumber(chars[0]).value as int, chars), Coefficients) % 10 == 0
  }

  /** Extending both sequences by one entry adds one product to the sum. */
  lemma {:induction false} WeightedSumSnoc(ds: seq<int>, ws: seq<int>, k: int)
    requires 0 <= k < |ds| && k < |ws|
    ensures WeightedSum(ds[..k + 1], ws[..k + 1]) == WeightedSum(ds[..k], ws[..k]) + ds[k] * ws[k]
    decreases k
  {
    if k > 0 {
      WeightedSumSnoc(ds[1..], ws[1..], k - 1);
      assert ds[..k + 1][1..] == ds[1..][..k];
      assert ws[..k + 1][1..] == ws[1..][..k];
      assert ds[..k][1..] == ds[1..][..k - 1];
      assert ws[..k][1..] == ws[1..][..k - 1];
    }
  }

  lemma MulBound(a: int, b: int)
    requires 0 <= a <= 9 && 0 <= b <= 9
    ensures 0 <= a * b <= 81
  {
    assert a * b <= 9 * b;
  }

  /** Lines 153-162 of the source: push the region code's two digits, then
      the value of every character after the first, onto an empty vector. */
  method PushDigits(regionCode: u16, chars: string) returns (digits: seq<u16>)
    requires 10 <= regionCode <= 35
    requires |chars| >= 1 && forall i | 1 <= i < |chars| :: IsDigit(chars[i])
    ensures |digits| == |chars| + 1
    ensures forall j | 0 <= j < |digits| :: digits[j] as int == DigitVector(regionCode as int, chars)[j]
  {
    ghost var expected := DigitVector(regionCode as int, chars);
    digits := [];
    digits := digits + [regionCode / 10];
    digits := digits + [regionCode % 10];
    for i := 1 to |chars|
      invariant |digits| == i + 1
      invariant forall j | 0 <= j < |digits| :: digits[j] as int == expected[j]
    {
      digits := digits + [DigitValue(chars[i]) as u16];
    }
  }

  /** Lines 166-170 of the source: the `u16` fold of the products of the
      digits with the weights, pairwise until either runs out; every partial
      sum stays below 81 times the number of terms, so nothing wraps. */
  method ZipWeightedSum(digits: seq<u16>, ghost expected: seq<int>) returns (sum: u16)
    requires |digits| == |expected| == |Coefficients|
    requires forall j | 0 <= j < |digits| :: digits[j] as int == expected[j] <= 9
    ensures sum as int == WeightedSum(expected, Coefficients)
  {
    sum := 0;
    var k := 0;
    while k < |digits| && k < |Coefficients|
      invariant 0 <= k <= |digits|
      invariant sum as int == WeightedSum(expected[..k], Coefficients[..k])
      invariant sum as int <= 81 * k
    {
      MulBound(digits[k] as int, Coefficients[k]);
      WeightedSumSnoc(expected, Coefficients, k);
      sum := sum + digits[k] * Coefficients[k] as u16;
      k := k + 1;
    }
    assert expected[..k] == expected && Coefficients[..k] == Coefficients;
  }

  /** The imperative validator of src/twid.rs: upper-case once, check the
      format, look the region up, build the digit vector and fold the
      weighted sum in `u16` arithmetic. */
  method IsValidTaiwanId(input: string) returns (valid: bool)
    ensures valid == ValidTaiwanId(input)
  {
    if |input| != 10 {
      return false;
    }
    var chars := ToUpper(input);
    if !IsAlphabetic(chars[0]) {
      return false;
    }
    for i := 1 to |chars|
      invariant forall j | 1 <= j < i :: IsDigit(chars[j])
    {
      if !IsDigit(chars[i]) {
        return false;
      }
    }
    var genderChar := chars[1];
    if !IsGenderDigit(genderChar) {
      return false;
    }
    var regionCode: u16;
    match RegionNumber(chars[0]) {
      case Some(num) => regionCode := num;
      case None => return false;
    }
    var digits := PushDigits(regionCode, chars);
    var sum := ZipWeightedSum(digits, DigitVector(regionCode as int, chars));
    valid := sum % 10 == 0;
  }

  /** Any input whose length is not ten, the empty string included, is rejected. */
  lemma RejectsWrongLength(input: string)
    requires |input| != 10
    ensures !ValidTaiwanId(input)
  {
  }

  /** An accepted input, before upper-casing, is a letter followed by nine
      digits whose first is a gender digit; so violating any one of these
      conditions means rejection. */
  lemma AcceptedShape(input: string)
    requires ValidTaiwanId(input)
    ensures |input| == 10 && IsAlphabetic(input[0])
    ensures forall i | 1 <= i < 10 :: IsDigit(input[i])
    ensures IsGenderDigit(input[1])
  {
    forall i | 1 <= i < 10
      ensures IsDigit(input[i])
    {
      ToUpperKeepsDigits(input, i);
    }
    ToUpperKeepsDigits(input, 1);
  }

  /** Validation does not depend on letter case. */
  lemma CaseInsensitive(input: string)
    ensures ValidTaiwanId(ToUpper(input)) == ValidTaiwanId(input)
  {
    ToUpperIdempotent(input);
  }

  /** Region code digits contribute at most 83 to the sum (V, code 29). */
  lemma RegionTermBound(r: int)
    requires 10 <= r <= 35
    ensures 0 <= r / 10 + 9 * (r % 10) <= 83
  {
    if r < 20 {
      assert r / 10 == 1;
    } else if r < 30 {
      assert r / 10 == 2;
    } else {
      assert r / 10 == 3 && r % 10 <= 5;
    }
  }

  /** One step of the fold, with the weight at position k known. */
  lemma WeightedSumStep(ds: seq<int>, ws: seq<int>, k: int, w: int)
    requires 0 <= k < |ds| && k < |ws| && ws[k] == w
    ensures WeightedSum(ds[k..], ws[k..]) == w * ds[k] + WeightedSum(ds[k + 1..], ws[k + 1..])
  {
    assert ds[k..][1..] == ds[k + 1..];
    assert ws[k..][1..] == ws[k + 1..];
  }

  /** The last six terms of the sum over an eleven-entry vector. */
  lemma WeightedSumLastSix(ds: seq<int>)
    requires |ds| == 11
    ensures WeightedSum(ds[5..], Coefficients[5..]) ==
      5 * ds[5] + 4 * ds[6] + 3 * ds[7] + 2 * ds[8] + ds[9] + ds[10]
  {
    var ws := Coefficients;
    assert WeightedSum(ds[11..], ws[11..]) == 0;
    WeightedSumStep(ds, ws, 10, 1);
    WeightedSumStep(ds, ws, 9, 1);
    WeightedSumStep(ds, ws, 8, 2);
    WeightedSumStep(ds, ws, 7, 3);
    WeightedSumStep(ds, ws, 6, 4);
    WeightedSumStep(ds, ws, 5, 5);
  }

  /** The first five terms of the weighted sum, the rest left as a tail. */
  lemma WeightedSumFirstFive(ds: seq<int>)
    requires |ds| == 11
    ensures WeightedSum(ds, Coefficients) ==
      ds[0] + 9 * ds[1] + 8 * ds[2] + 7 * ds[3] + 6 * ds[4] +
      WeightedSum(ds[5..], Coefficients[5..])
  {
    var ws := Coefficients;
    WeightedSumStep(ds, ws, 4, 6);
    WeightedSumStep(ds, ws, 3, 7);
    WeightedSumStep(ds, ws, 2, 8);
    WeightedSumStep(ds, ws, 1, 9);
    WeightedSumStep(ds, ws, 0, 1);
    assert ds[0..] == ds && ws[0..] == ws;
  }

  /** The sum over an eleven-entry vector, written out term by term. */
  lemma WeightedSumEleven(ds: seq<int>)
    requires |ds| == 11
    ensures WeightedSum(ds, Coefficients) ==
      ds[0] + 9 * ds[1] + 8 * ds[2] + 7 * ds[3] + 6 * ds[4] + 5 * ds[5] +
      4 * ds[6] + 3 * ds[7] + 2 * ds[8] + ds[9] + ds[10]
  {
    WeightedSumLastSix(ds);
    WeightedSumFirstFive(ds);
  }

  /** For a well-formed upper-cased ID the weighted sum lies in 0..416, far
      inside `u16`, so the source's `u16` sum never wraps. */
  lemma ChecksumBound(chars: string)
    requires WellFormed(chars) && IsUpper(chars[0])
    ensures var r := RegionNumber(chars[0]).value as int;
      0 <= WeightedSum(DigitVector(r, chars), Coefficients) <= 416
  {
    var r := RegionNumber(chars[0]).value as int;
    ChecksumExplicit(r, chars);
    RegionTermBound(r);
  }

  /** The check digit that a letter, a gender digit and seven further digits
      call for: the one digit that brings the weighted sum to a multiple of ten. */
  function CheckDigit(chars: string): (d: int)
    requires WellFormed(chars) && IsUpper(chars[0])
    ensures 0 <= d <= 9
  {
    var r := RegionNumber(chars[0]).value as int;
    var partial := r / 10 + 9 * (r % 10) +
      8 * DigitValue(chars[1]) + 7 * DigitValue(chars[2]) + 6 * DigitValue(chars[3]) +
      5 * DigitValue(chars[4]) + 4 * DigitValue(chars[5]) + 3 * DigitValue(chars[6]) +
      2 * DigitValue(chars[7]) + DigitValue(chars[8]);
    (10 - partial % 10) % 10
  }

  /** A digit completes a sum to a multiple of ten exactly when it is the
      complement of the sum's last digit. */
  lemma CompletesToTen(partial: int, d: int)
    requires 0 <= d <= 9
    ensures (partial + d) % 10 == 0 <==> d == (10 - partial % 10) % 10
  {
  }

  /** The checksum of a well-formed ID, written out over its characters. */
  lemma ChecksumExplicit(r: int, chars: string)
    requires 10 <= r <= 35 && WellFormed(chars)
    ensures WeightedSum(DigitVector(r, chars), Coefficients) ==
      r / 10 + 9 * (r % 10) +
      8 * DigitValue(chars[1]) + 7 * DigitValue(chars[2]) + 6 * DigitValue(chars[3]) +
      5 * DigitValue(chars[4]) + 4 * DigitValue(chars[5]) + 3 * DigitValue(chars[6]) +
      2 * DigitValue(chars[7]) + DigitValue(chars[8]) + DigitValue(chars[9])
  {
    var ds := DigitVector(r, chars);
    WeightedSumEleven(ds);
    assert ds[0] == r / 10 && ds[1] == r % 10;
    assert forall k | 1 <= k < 10 :: ds[k + 1] == DigitValue(chars[k]);
  }

  /** An input of the right shape is valid exactly when its last digit is the
      check digit of the rest. */
  lemma ValidIffCheckDigit(input: string)
    requires |input| == 10 && WellFormed(ToUpper(input))
    ensures IsDigit(input[9])
    ensures ValidTaiwanId(input) <==> DigitValue(input[9]) == CheckDigit(ToUpper(input))
  {
    var chars := ToUpper(input);
    ToUpperKeepsDigits(input, 9);
    var r := RegionNumber(chars[0]).value as int;
    ChecksumExplicit(r, chars);
    var partial := r / 10 + 9 * (r % 10) +
      8 * DigitValue(chars[1]) + 7 * DigitValue(chars[2]) + 6 * DigitValue(chars[3]) +
      5 * DigitValue(chars[4]) + 4 * DigitValue(chars[5]) + 3 * DigitValue(chars[6]) +
      2 * DigitValue(chars[7]) + DigitValue(chars[8]);
    CompletesToTen(partial, DigitValue(chars[9]));
  }

  /** An upper-case ID of the right shape is valid, and so is its lower-case
      spelling, when its last digit is the check digit. */
  lemma AcceptedByCheckDigit(upper: string, lower: string)
    requires |upper| == 10 && WellFormed(upper) && IsUpper(upper[0])
    requires ToUpper(upper) == upper && ToUpper(lower) == upper
    requires DigitValue(upper[9]) == CheckDigit(upper)
    ensures ValidTaiwanId(upper) && ValidTaiwanId(lower)
  {
    ValidIffCheckDigit(upper);
    CaseInsensitive(lower);
  }

  /** Both spellings of A123456789 upper-case to a well-formed ID. */
  lemma ShapeA123456789()
    ensures ToUpper("A123456789") == "A123456789" && ToUpper("a123456789") == "A123456789"
    ensures WellFormed("A123456789") && IsUpper('A')
  {
    assert ToUpper("A123456789") == "A123456789" by {}
    assert ToUpper("a123456789") == "A123456789" by {}
  }

  /** The last digit of A123456789 is its check digit. */
  lemma CheckDigitA123456789()
    requires WellFormed("A123456789")
    ensures CheckDigit("A123456789") == 9 && DigitValue('9') == 9
  {
  }

  /** The first ID the source's tests accept, in either case. */
  lemma AcceptsA123456789()
    ensures ValidTaiwanId("A123456789") && ValidTaiwanId("a123456789")
  {
    ShapeA123456789();
    CheckDigitA123456789();
    AcceptedByCheckDigit("A123456789", "a123456789");
  }

  /** Both spellings of F131232216 upper-case to a well-formed ID. */
  lemma ShapeF131232216()
    ensures ToUpper("F131232216") == "F131232216" && ToUpper("f131232216") == "F131232216"
    ensures WellFormed("F131232216") && IsUpper('F')
  {
    assert ToUpper("F131232216") == "F131232216" by {}
    assert ToUpper("f131232216") == "F131232216" by {}
  }

  /** The last digit of F131232216 is its check digit. */
  lemma CheckDigitF131232216()
    requires WellFormed("F131232216")
    ensures CheckDigit("F131232216") == 6 && DigitValue('6') == 6
  {
  }

  /** The second ID the source's tests accept, in either case. */
  lemma AcceptsF131232216()
    ensures ValidTaiwanId("F131232216") && ValidTaiwanId("f131232216")
  {
    ShapeF131232216();
    CheckDigitF131232216();
    AcceptedByCheckDigit("F131232216", "f131232216");
  }

  /** The inputs the source's tests reject: wrong length, a non-letter first,
      a non-digit in the tail, a bad gender digit, the empty string. */
  lemma KnownIdsRejected()
    ensures !ValidTaiwanId("A12345678") && !ValidTaiwanId("A1234567890") && !ValidTaiwanId("")
    ensures !ValidTaiwanId("1123456789") && !ValidTaiwanId("!123456789") && !ValidTaiwanId("?123456789")
    ensures !ValidTaiwanId("A12345678A") && !ValidTaiwanId("AB23456789")
    ensures !ValidTaiwanId("A323456789") && !ValidTaiwanId("A523456789")
  {
    ToUpperKeepsDigits("1123456789", 0);
    ToUpperKeepsDigits("A12345678A", 9);
    ToUpperKeepsDigits("A323456789", 1);
    ToUpperKeepsDigits("A523456789", 1);
  }
}
