/** Rust's `Ordering` and the lexicographic order of `str::cmp`.

    Rust compares strings as UTF-8 byte sequences; because UTF-8 encodes code
    points in an order-preserving way, that is the same as comparing the
    sequences of characters code point by code point, which is what `Compare`
    does. */
module Lexicographic {

  datatype Ordering = Less | Equal | Greater {
    /** `Ordering::reverse`. */
    function Reverse(): Ordering {
      match this
      case Less => Greater
      case Equal => Equal
      case Greater => Less
    }
  }

  /** `a.cmp(&b)` on strings: the first differing character decides, and a
      proper prefix comes first. Only strings of one length can be equal. */
  function Compare(a: string, b: string): (r: Ordering)
    ensures r == Equal ==> |a| == |b|
    decreases |a|
  {
    if |a| == 0 then (if |b| == 0 then Equal else Less)
    else if |b| == 0 then Greater
    else if a[0] < b[0] then Less
    else if b[0] < a[0] then Greater
    else Compare(a[1..], b[1..])
  }

  /** The textbook definition of "a sorts strictly before b", independent of
      `Compare`: a is a proper prefix of b, or the two agree up to some
      position k where a's character is smaller. */
  ghost predicate LexLess(a: string, b: string) {
    (|a| < |b| && a == b[..|a|]) ||
    exists k :: 0 <= k < |a| && k < |b| && a[..k] == b[..k] && a[k] < b[k]
  }

  /** `Compare` is consistent with equality. */
  lemma {:induction false} CompareEqualIff(a: string, b: string)
    ensures Compare(a, b) == Equal <==> a == b
    decreases |a|
  {
    if |a| > 0 && |b| > 0 && a[0] == b[0] {
      CompareEqualIff(a[1..], b[1..]);
      assert a == [a[0]] + a[1..];
      assert b == [b[0]] + b[1..];
    }
  }

  /** Swapping the arguments reverses the answer (antisymmetry). */
  lemma {:induction false} CompareReverse(a: string, b: string)
    ensures Compare(b, a) == Compare(a, b).Reverse()
    decreases |a|
  {
    if |a| > 0 && |b| > 0 && a[0] == b[0] {
      CompareReverse(a[1..], b[1..]);
    }
  }

  /** `Less` is transitive. */
  lemma {:induction false} CompareTransitive(a: string, b: string, c: string)
    requires Compare(a, b) == Less && Compare(b, c) == Less
    ensures Compare(a, c) == Less
    decreases |a|
  {
    if |a| > 0 && |b| > 0 && |c| > 0 && a[0] == b[0] && b[0] == c[0] {
      CompareTransitive(a[1..], b[1..], c[1..]);
    }
  }

  /** Stripping an equal first character keeps `LexLess` true. */
  lemma LexLessDropHead(a: string, b: string)
    requires |a| > 0 && |b| > 0 && a[0] == b[0] && LexLess(a, b)
    ensures LexLess(a[1..], b[1..])
  {
    var a', b' := a[1..], b[1..];
    if |a| < |b| && a == b[..|a|] {
      assert a' == b'[..|a'|];
    } else {
      var k :| 0 <= k < |a| && k < |b| && a[..k] == b[..k] && a[k] < b[k];
      assert k != 0;
      assert a'[..k - 1] == a[1..k] == b[1..k] == b'[..k - 1];
      assert a'[k - 1] < b'[k - 1];
    }
  }

  /** Putting an equal first character back keeps `LexLess` true. */
  lemma LexLessAddHead(a: string, b: string)
    requires |a| > 0 && |b| > 0 && a[0] == b[0] && LexLess(a[1..], b[1..])
    ensures LexLess(a, b)
  {
    var a', b' := a[1..], b[1..];
    if |a'| < |b'| && a' == b'[..|a'|] {
      assert a == [a[0]] + a';
      assert b[..|a|] == [b[0]] + b'[..|a'|];
    } else {
      var k :| 0 <= k < |a'| && k < |b'| && a'[..k] == b'[..k] && a'[k] < b'[k];
      assert a[..k + 1] == [a[0]] + a'[..k];
      assert b[..k + 1] == [b[0]] + b'[..k];
      assert a[k + 1] < b[k + 1];
    }
  }

  /** `Compare` answers `Less` exactly when the textbook definition holds. */
  lemma {:induction false} CompareLessIff(a: string, b: string)
    ensures Compare(a, b) == Less <==> LexLess(a, b)
    decreases |a|
  {
    if |a| == 0 {
      assert |b| > 0 ==> a == b[..|a|];
    } else if |b| == 0 {
    } else if a[0] < b[0] {
      assert a[..0] == b[..0];
    } else if b[0] < a[0] {
    } else {
      CompareLessIff(a[1..], b[1..]);
      if LexLess(a, b) {
        LexLessDropHead(a, b);
      }
      if LexLess(a[1..], b[1..]) {
        LexLessAddHead(a, b);
      }
    }
  }
}
