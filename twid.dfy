/** The `Twid` type of src/twid.rs: a Taiwan National ID held in canonical
    form. Its only constructor, `FromStr`, admits text the validator accepts
    and stores it upper-cased; the text round-trips through `ToString`, is
    ordered by plain string comparison, and yields a region letter and a
    gender on demand. */
module TaiwanId {
  import opened Results
  import opened Ascii
  import opened TaiwanIdCheck
  import opened Lexicographic

  const InvalidFormat: string := "invalid Taiwan National ID format"

  /** What a stored `data` field can hold: validated, upper-case text. */
  ghost predicate Canonical(data: string) {
    ValidTaiwanId(data) && ToUpper(data) == data
  }

  datatype TwidRecord = TwidRecord(data: string)

  /** A validated ID, as the uppercase text of the `data` field. */
  ghost function SampleTwid(): (t: TwidRecord)
    ensures Canonical(t.data)
  {
    AcceptsA123456789();
    TwidRecord("A123456789")
  }

  /** `Twid`: no value of this type holds text that failed validation or that
      is not upper-case. */
  type Twid = t: TwidRecord | Canonical(t.data) ghost witness SampleTwid()

  /** `V999999999` is a well-formed upper-case ID; V has code 29. */
  lemma ShapeV999999999()
    ensures WellFormed("V999999999") && IsUpper('V') && RegionNumber('V') == Some(29)
    ensures forall i | 1 <= i < 10 :: DigitValue("V999999999"[i]) == 9
  {
  }

  /** The bound is reached: `V999999999` is well-formed and its weighted sum
      is exactly 416. */
  lemma ChecksumBoundReached()
    ensures WellFormed("V999999999") && IsUpper('V')
    ensures WeightedSum(DigitVector(RegionNumber('V').value as int, "V999999999"), Coefficients) == 416
  {
    ShapeV999999999();
    ChecksumExplicit(29, "V999999999");
  }

  /** `Twid::from_str`: all or nothing; on success the stored text is the
      input upper-cased. */
  function FromStr(s: string): (r: Result<Twid>)
    ensures r.Ok? <==> ValidTaiwanId(s)
    ensures r.Ok? ==> r.value.data == ToUpper(s)
    ensures r.Err? ==> r.error == InvalidFormat
  {
    if !ValidTaiwanId(s) then Err(InvalidFormat)
    else
      CaseInsensitive(s);
      ToUpperIdempotent(s);
      var t: Twid := TwidRecord(ToUpper(s));
      Ok(t)
  }

  /** Inputs that differ only in letter case give the same result, success or
      failure. */
  lemma FromStrIgnoresCase(s1: string, s2: string)
    requires ToUpper(s1) == ToUpper(s2)
    ensures FromStr(s1) == FromStr(s2)
  {
    CaseInsensitive(s1);
    CaseInsensitive(s2);
  }

  /** The source's case-insensitivity test: lower- and upper-case spellings of
      the same ID both parse, to equal values. */
  lemma LowerAndUpperParseEqual()
    ensures FromStr("a123456789").Ok? && FromStr("A123456789").Ok?
    ensures FromStr("a123456789") == FromStr("A123456789")
  {
    AcceptsA123456789();
    assert ToUpper("a123456789") == "A123456789" == ToUpper("A123456789");
    FromStrIgnoresCase("a123456789", "A123456789");
  }

  /** `Display for Twid`: the stored text, which parses back to the same value. */
  function ToString(t: Twid): (s: string)
    ensures FromStr(s) == Ok(t)
    ensures ToUpper(s) == s
  {
    t.data
  }

  /** `Ord for Twid`: string order of the stored text, a total order that
      agrees with equality. */
  function Cmp(a: Twid, b: Twid): (r: Ordering)
    ensures r == Equal <==> a == b
    ensures r == Less <==> LexLess(a.data, b.data)
  {
    CompareEqualIff(a.data, b.data);
    CompareLessIff(a.data, b.data);
    Compare(a.data, b.data)
  }

  /** Swapping the operands reverses the comparison. */
  lemma CmpAntisymmetric(a: Twid, b: Twid)
    ensures Cmp(b, a) == Cmp(a, b).Reverse()
  {
    CompareReverse(a.data, b.data);
  }

  /** `Less` on IDs is transitive. */
  lemma CmpTransitive(a: Twid, b: Twid, c: Twid)
    requires Cmp(a, b) == Less && Cmp(b, c) == Less
    ensures Cmp(a, c) == Less
  {
    CompareTransitive(a.data, b.data, c.data);
  }

  /** `get_gender_from_twid`: "M" for 1 or 8 in second position, "F" for 2 or
      9, "U" for anything else and for text shorter than two characters. */
  function Gender(twid: string): (g: string)
    ensures g == "M" || g == "F" || g == "U"
  {
    if |twid| < 2 then "U"
    else
      match twid[1]
      case '1' => "M"
      case '2' => "F"
      case '8' => "M"
      case '9' => "F"
      case _ => "U"
  }

  /** Text the validator accepts always has a gender, male exactly for the
      digits 1 and 8. */
  lemma GenderOfValid(s: string)
    requires ValidTaiwanId(s)
    ensures Gender(s) != "U"
    ensures Gender(s) == "M" <==> s[1] == '1' || s[1] == '8'
  {
    AcceptedShape(s);
  }

  /** The source's gender test vectors. */
  lemma GenderVectors()
    ensures Gender("A123456789") == "M" && Gender("A223456789") == "F"
    ensures Gender("A823456789") == "M" && Gender("A923456789") == "F"
    ensures Gender("A323456789") == "U" && Gender("") == "U" && Gender("A") == "U"
  {
  }

  /** `twid_gender`: the gender of a stored ID is never unknown. */
  function TwidGender(t: Twid): (g: string)
    ensures g == "M" || g == "F"
    ensures g == "M" <==> t.data[1] == '1' || t.data[1] == '8'
  {
    GenderOfValid(t.data);
    Gender(t.data)
  }

  /** `twid_region`: the first character of the stored text, or "?" when there
      is none; for a stored ID it is an upper-case letter with a region code. */
  function TwidRegion(t: Twid): (r: string)
    ensures |r| == 1 && r[0] == t.data[0]
    ensures IsUpper(r[0]) && RegionNumber(r[0]).Some?
  {
    AcceptedShape(t.data);
    if |t.data| == 0 then "?" else [t.data[0]]
  }
}
