# Validated scalar types: Taiwan National ID and email address

A Dafny model of the two validated text types of a PostgreSQL extension
written in Rust: `Twid`, a Taiwan National ID, and `EmailAddr`, an email
address. Each is a wrapper around one string, `data`, that can only be built
by parsing text (`from_str`), all or nothing. It prints back as that text
(`Display`) and is ordered by comparing that text (`Ord`).

- **Taiwan National ID** (`src/twid.rs`). An ID is a region letter followed by
  nine digits. The validator `is_valid_taiwan_id` upper-cases the input and checks:
  - the length is 10, the first character is a letter and the other nine are digits;
  - the second character is a gender digit (1, 2, 8 or 9);
  - the region letter has a code in the fixed table `get_region_number`;
  - the weighted sum of the eleven-digit vector
    `[code / 10, code % 10, d1, ..., d9]` with weights `[1,9,8,7,6,5,4,3,2,1,1]`
    is a multiple of ten.

  `from_str` stores the input upper-cased. `twid_gender` and `twid_region`
  read the second and the first character of the stored text.
  - `ascii.dfy`: ASCII classes and upper-casing.
  - `twid_check.dfy`: the region table, the checksum and the validator. The
    validator is an imperative method, proved equal to the predicate
    `ValidTaiwanId`.
  - `twid.dfy`: the `Twid` type. It is a subset type, so no `Twid` exists
    whose text is invalid or not upper-case.
- **Email address** (`src/email_addr.rs`, in `email_addr.dfy`). The grammar
  check belongs to the external `validator` crate. Here it is a parameter
  `validEmail: string -> bool` of every operation that needs it, so each
  property holds whatever that grammar is. The stored text is the input
  unchanged, with letter case kept. Because the grammar is a parameter,
  `EmailAddr` is a plain datatype rather than a subset type. The predicate
  `Valid` states that the grammar accepts an address's text. `FromStr` returns
  only `Valid` addresses, and the lemmas that depend on validity require it.
- `lexicographic.dfy`: Rust's `Ordering` and the string order used by both
  `Ord` implementations. It proves that order is consistent with equality,
  antisymmetric, transitive, and equal to the textbook "proper prefix or
  smaller at the first difference" definition. Rust compares the UTF-8 bytes;
  UTF-8 keeps code-point order, so comparing characters gives the same answer.
- `results.dfy`: `Option` and `Result`. The error of a `Result` is the
  source's fixed message text.

Where the comments and the code disagree, the model follows the code:
- The doc comment at `src/twid.rs:17-21` speaks of ten coefficients
  `[1, 8, 7, ...]`. The code at `src/twid.rs:166` uses eleven weights,
  `[1, 9, 8, 7, 6, 5, 4, 3, 2, 1, 1]`.
- The comment at `src/twid.rs:12` says I and O are excluded. The table maps them
  to 34 and 35.
- The comments at `src/email_addr.rs:10` and `:35` promise domain-first
  ordering. The code compares the whole string. `EmailAddress.NotDomainFirst`
  proves that `a@z.com` sorts before `b@a.com`, although the domain `a.com`
  sorts before `z.com`.

The weighted sum of a well-formed ID is at most 416
(`TaiwanIdCheck.ChecksumBound`), and `V999999999` reaches exactly 416
(`TaiwanId.ChecksumBoundReached`). The source's `u16` arithmetic therefore
never wraps. The method's own `u16` types make the verifier check this at
every step.

## Model

| member | source | states |
|---|---|---|
| `TaiwanIdCheck.RegionNumber` | src/twid.rs:175-207 | a code exists exactly for the upper-case letters A-Z; it lies in 10..35, and the letter sits at position code-10 of `ABCDEFGHJKLMNPQRSTUVXYWZIO` |
| `TaiwanIdCheck.RegionNumberByPosition` | src/twid.rs:176-207 | the letter at position k of `ABCDEFGHJKLMNPQRSTUVXYWZIO` has code 10+k (so A is 10, J is 18, I is 34, O is 35) |
| `TaiwanIdCheck.RegionNumberInjective` | src/twid.rs:177-206 | two characters with the same code are the same letter |
| `TaiwanIdCheck.IsValidTaiwanId` | src/twid.rs:117-173 | the imperative validator returns true exactly when the input satisfies `ValidTaiwanId` |
| `TaiwanIdCheck.PushDigits` | src/twid.rs:152-162 | pushing the region code's two digits and then each digit's value builds the digit vector entry for entry |
| `TaiwanIdCheck.ZipWeightedSum` | src/twid.rs:164-170 | the `u16` fold of products over the zipped vector and weights equals the weighted sum, with no wrap-around |
| `TaiwanIdCheck.RejectsWrongLength` | src/twid.rs:119-122 | an input whose length is not 10, the empty string included, is rejected |
| `TaiwanIdCheck.AcceptedShape` | src/twid.rs:126-144 | an accepted input is a letter, then nine digits, the first of them 1, 2, 8 or 9; breaking any of these means rejection |
| `TaiwanIdCheck.CaseInsensitive` | src/twid.rs:124 | an input and its upper-cased form are accepted or rejected together |
| `TaiwanIdCheck.ChecksumBound` | src/twid.rs:153-172 | for a well-formed upper-case ID the weighted sum lies in 0..416, inside `u16` |
| `TaiwanId.ChecksumBoundReached` | src/twid.rs:153-172 | the bound 416 is attained: `V999999999` is well-formed and its weighted sum is exactly 416 |
| `TaiwanIdCheck.ValidIffCheckDigit` | src/twid.rs:146-172 | a well-formed input is valid exactly when its last digit equals the check digit computed from its first nine characters |
| `TaiwanIdCheck.AcceptsA123456789` | src/twid.rs:234-238 | `A123456789` and `a123456789` are accepted |
| `TaiwanIdCheck.AcceptsF131232216` | src/twid.rs:235-239 | `F131232216` and `f131232216` are accepted |
| `TaiwanIdCheck.KnownIdsRejected` | src/twid.rs:243-265 | the inputs the tests reject: wrong length, empty, non-letter first, non-digit tail, gender digit 3 or 5 |
| `TaiwanId.FromStr` | src/twid.rs:28-39 | parsing succeeds exactly for valid input, stores the input upper-cased, and fails with the fixed message otherwise |
| `TaiwanId.FromStrIgnoresCase` | src/twid.rs:31-39 | inputs equal up to letter case parse to the same result |
| `TaiwanId.LowerAndUpperParseEqual` | src/twid.rs:299-307 | `a123456789` and `A123456789` both parse, to equal values |
| `TaiwanId.ToString` | src/twid.rs:54-58 | the printed text is upper-case and parses back to the same `Twid` |
| `TaiwanId.Cmp` | src/twid.rs:48-52 | comparison says Equal exactly for equal IDs and Less exactly when the stored text sorts first |
| `TaiwanId.CmpAntisymmetric` | src/twid.rs:42-52 | swapping the operands reverses the comparison |
| `TaiwanId.CmpTransitive` | src/twid.rs:48-52 | Less is transitive |
| `TaiwanId.Gender` | src/twid.rs:209-223 | the answer is always one of M, F, U |
| `TaiwanId.GenderOfValid` | src/twid.rs:138-144 | for accepted text the gender is never U, and it is M exactly for the digits 1 and 8 |
| `TaiwanId.GenderVectors` | src/twid.rs:280-286 | the tests' answers: 1 and 8 give M, 2 and 9 give F, 3 gives U; too short gives U |
| `TaiwanId.TwidGender` | src/twid.rs:104-109 | the gender of a stored ID is M or F, M exactly for the digits 1 and 8 |
| `TaiwanId.TwidRegion` | src/twid.rs:111-115 | the region of a stored ID is its first character, an upper-case letter with a region code |
| `Ascii.ToUpper` | src/twid.rs:124 | letters come out upper-case, lower-case letters move by 32, every other character and the length are kept |
| `Ascii.ToUpperIdempotent` | src/twid.rs:37 | upper-casing the stored text again changes nothing |
| `Ascii.ToUpperKeepsDigits` | src/twid.rs:131-136 | upper-casing neither creates nor changes digits |
| `Ascii.DigitValue` | src/twid.rs:161 | a digit's value lies in 0..9 and spells the digit back |
| `Lexicographic.Compare` | src/twid.rs:50 | only strings of the same length compare Equal |
| `Lexicographic.CompareEqualIff` | src/twid.rs:50 | string comparison says Equal exactly for equal strings |
| `Lexicographic.CompareReverse` | src/twid.rs:50 | swapping the strings reverses the comparison |
| `Lexicographic.CompareTransitive` | src/twid.rs:50 | Less on strings is transitive |
| `Lexicographic.CompareLessIff` | src/email_addr.rs:45 | string comparison says Less exactly when the first is a proper prefix of the second or smaller at the first difference |
| `EmailAddress.FromStr` | src/email_addr.rs:21-33 | parsing succeeds exactly when the grammar accepts; it then stores the input unchanged, so every address `FromStr` returns is `Valid` (its text is accepted by the grammar); it fails with the fixed message otherwise |
| `EmailAddress.PrintsParsedText` | src/email_addr.rs:24-31 | an address parsed from some text prints as exactly that text |
| `EmailAddress.ToString` | src/email_addr.rs:49-53 | the printed text is the stored text: an address rebuilt from it is the same address |
| `EmailAddress.RoundTrip` | src/email_addr.rs:24-53 | every `Valid` address (text accepted by the grammar) prints and parses back to itself |
| `EmailAddress.DistinctTextDistinctValue` | src/email_addr.rs:15-19 | two accepted texts give equal addresses exactly when the texts are equal |
| `EmailAddress.CaseDistinguishes` | src/email_addr.rs:118-128 | `User@Domain.Com` and `user@domain.com`, when both are accepted, are unequal and do not compare Equal |
| `EmailAddress.Cmp` | src/email_addr.rs:42-47 | comparison says Equal exactly for equal addresses and Less exactly when the whole text sorts first |
| `EmailAddress.CmpAntisymmetric` | src/email_addr.rs:36-47 | swapping the operands reverses the comparison |
| `EmailAddress.CmpTransitive` | src/email_addr.rs:42-47 | Less is transitive |
| `EmailAddress.OrderingVectors` | src/email_addr.rs:100-109 | `user@a.com` sorts before `user@b.com` and `aaa@same.com` before `zzz@same.com` |
| `EmailAddress.NotDomainFirst` | src/email_addr.rs:9-10 | the order is not domain-first: `a@z.com` sorts before `b@a.com` although `a.com` sorts before `z.com` |

## Left out

- `src/geohash.rs` is not part of this model. It passes floating-point coordinates through to an external geohash library.
- The PostgreSQL glue is left out, because it is host I/O: `InOutFuncs::input`/`output`, the UTF-8 check on the C string, `error!` aborts, the `#[pg_cast]` and `#[pg_extern]` wrappers (`twid`, `is_valid_twid`, the `emailaddr` casts) and `StringInfo`. `twid`, `cast_text_to_twid`, `emailaddr` and `cast_text_to_emailaddr` call the modelled parser and abort on `Err`. `is_valid_twid`, `cast_twid_to_text` and `cast_emailaddr_to_text` return the result of a modelled function (`IsValidTaiwanId`, `ToString`) unchanged.
- The serde `Serialize`/`Deserialize` derives and the JSON round-trip test are left out. Deserialising builds values without validation, so outside the model the "only valid values exist" invariant rests on the host feeding back only serialised values.
- The `validator` crate's email grammar is foreign code. It is a parameter here, so its acceptance table (src/email_addr.rs:141-214) and `test_invalid_emails` cannot be stated.
- Upper-casing is ASCII-only, and a string's length is its number of characters. The source measures length in UTF-8 bytes (`input.len()`) and upper-cases with full Unicode rules. The two readings agree on ASCII input.
  - They differ on input such as `ı10000003`: dotless i (U+0131) is two bytes and upper-cases to `I`. Such a 9-character input passes the 10-byte length test. The shortened vector, zipped with the eleven weights, then sums to 50, so the source would accept it and store a 9-character ID. This case is not covered by the model.
  - Under byte lengths, `get_gender_from_twid` would panic on a single two-byte character. No validated `Twid` can reach that.
- `PartialOrd::partial_cmp` is always `Some(cmp)` and is not modelled separately from `Cmp`.
