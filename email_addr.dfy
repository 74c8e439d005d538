/** The `EmailAddr` type of src/email_addr.rs. The grammar check belongs to the
    `validator` crate, which is not part of this model: every operation that
    needs it takes it as a parameter `validEmail`, so each property below holds
    for whatever grammar the crate implements. The stored text is the input
    exactly as given (no case change), and ordering is the string order of
    the whole stored text. */
module EmailAddress {
  import opened Results
  import opened Lexicographic

  /** The crate's `ValidateEmail::validate_email`, a pure test on text. */
  type EmailGrammar = string -> bool

  const InvalidFormat: string := "invalid email address format"

  datatype EmailAddr = EmailAddr(data: string)

  /** An address whose text the grammar accepts: what `from_str` can build.
      The datatype itself does not enforce this; the lemmas below assume it
      where the source relies on it. */
  predicate Valid(validEmail: EmailGrammar, e: EmailAddr) {
    validEmail(e.data)
  }

  /** `EmailAddr::from_str`: all or nothing; on success the input is stored
      unchanged, so every address `FromStr` returns is `Valid`. */
  function FromStr(validEmail: EmailGrammar, s: string): (r: Result<EmailAddr>)
    ensures r.Ok? <==> validEmail(s)
    ensures r.Ok? ==> r.value.data == s && Valid(validEmail, r.value)
    ensures r.Err? ==> r.error == InvalidFormat
  {
    if !validEmail(s) then Err(InvalidFormat) else Ok(EmailAddr(s))
  }

  /** `Display for EmailAddr`: the stored text, which loses nothing: the
      address is determined by what it prints. */
  function ToString(e: EmailAddr): (s: string)
    ensures EmailAddr(s) == e
  {
    e.data
  }

  /** Printing a parsed address gives back the parsed text. */
  lemma PrintsParsedText(validEmail: EmailGrammar, s: string)
    requires FromStr(validEmail, s).Ok?
    ensures ToString(FromStr(validEmail, s).value) == s
  {
  }

  /** Printing a valid address and parsing the text again gives the same
      address. */
  lemma RoundTrip(validEmail: EmailGrammar, e: EmailAddr)
    requires Valid(validEmail, e)
    ensures FromStr(validEmail, ToString(e)) == Ok(e)
  {
  }

  /** Different accepted texts are different addresses: parsing never merges
      two spellings, letter case included. */
  lemma DistinctTextDistinctValue(validEmail: EmailGrammar, s1: string, s2: string)
    requires FromStr(validEmail, s1).Ok? && FromStr(validEmail, s2).Ok?
    ensures FromStr(validEmail, s1) == FromStr(validEmail, s2) <==> s1 == s2
  {
  }

  /** The source's case test: "User@Domain.Com" and "user@domain.com" are two
      unequal addresses whenever the grammar accepts both. */
  lemma CaseDistinguishes(validEmail: EmailGrammar)
    requires validEmail("User@Domain.Com") && validEmail("user@domain.com")
    ensures FromStr(validEmail, "User@Domain.Com").value != FromStr(validEmail, "user@domain.com").value
    ensures Cmp(FromStr(validEmail, "User@Domain.Com").value, FromStr(validEmail, "user@domain.com").value) != Equal
  {
    DistinctTextDistinctValue(validEmail, "User@Domain.Com", "user@domain.com");
  }

  /** `Ord for EmailAddr`: string order of the whole stored text, a total
      order that agrees with equality. */
  function Cmp(a: EmailAddr, b: EmailAddr): (r: Ordering)
    ensures r == Equal <==> a == b
    ensures r == Less <==> LexLess(a.data, b.data)
  {
    CompareEqualIff(a.data, b.data);
    CompareLessIff(a.data, b.data);
    Compare(a.data, b.data)
  }

  /** Swapping the operands reverses the comparison. */
  lemma CmpAntisymmetric(a: EmailAddr, b: EmailAddr)
    ensures Cmp(b, a) == Cmp(a, b).Reverse()
  {
    CompareReverse(a.data, b.data);
  }

  /** `Less` on addresses is transitive. */
  lemma CmpTransitive(a: EmailAddr, b: EmailAddr, c: EmailAddr)
    requires Cmp(a, b) == Less && Cmp(b, c) == Less
    ensures Cmp(a, c) == Less
  {
    CompareTransitive(a.data, b.data, c.data);
  }

  /** The source's ordering tests, whenever the grammar accepts the four
      addresses. */
  lemma OrderingVectors(validEmail: EmailGrammar)
    requires validEmail("user@a.com") && validEmail("user@b.com")
    requires validEmail("aaa@same.com") && validEmail("zzz@same.com")
    ensures Cmp(FromStr(validEmail, "user@a.com").value, FromStr(validEmail, "user@b.com").value) == Less
    ensures Cmp(FromStr(validEmail, "aaa@same.com").value, FromStr(validEmail, "zzz@same.com").value) == Less
  {
  }

  /** The order is not domain-first: "a@z.com" sorts before "b@a.com" although
      its domain sorts after, because the local parts decide first. */
  lemma NotDomainFirst()
    ensures Compare("a.com", "z.com") == Less
    ensures Cmp(EmailAddr("a@z.com"), EmailAddr("b@a.com")) == Less
  {
  }
}
