/** The order the feed handler uses on prices and quantities.

    Prices and quantities stay the exchange's decimal strings and are never
    parsed; `<`, `>` and `==` on them are Rust's `str` comparisons, which
    compare the UTF-8 bytes lexicographically. Comparing the UTF-8 encodings
    byte by byte orders strings exactly as comparing their code points one by
    one, so the order is stated here on `seq<char>`. Dafny's own `<` on
    sequences means "proper prefix" and is not this order. */
module Lex {

  /** Strict lexicographic order: the first differing character decides, and
      a proper prefix comes before the longer string. */
  predicate Less(a: string, b: string)
    decreases |a|
  {
    if |a| == 0 then |b| > 0
    else if |b| == 0 then false
    else if a[0] != b[0] then a[0] < b[0]
    else Less(a[1..], b[1..])
  }

  lemma {:induction false} LessIrreflexive(a: string)
    ensures !Less(a, a)
    decreases |a|
  {
    if |a| > 0 {
      LessIrreflexive(a[1..]);
    }
  }

  lemma {:induction false} LessTransitive(a: string, b: string, c: string)
    requires Less(a, b) && Less(b, c)
    ensures Less(a, c)
    decreases |a|
  {
    if |a| > 0 && a[0] == b[0] && b[0] == c[0] {
      LessTransitive(a[1..], b[1..], c[1..]);
    }
  }

  /** Any two strings are equal or ordered one way or the other. */
  lemma {:induction false} LessTotal(a: string, b: string)
    ensures a == b || Less(a, b) || Less(b, a)
    decreases |a|
  {
    if |a| > 0 && |b| > 0 && a[0] == b[0] {
      LessTotal(a[1..], b[1..]);
      if a[1..] == b[1..] {
        assert a == [a[0]] + a[1..] && b == [b[0]] + b[1..];
      }
    }
  }

  lemma {:induction false} LessAsymmetric(a: string, b: string)
    requires Less(a, b)
    ensures !Less(b, a)
  {
    if Less(b, a) {
      LessTransitive(a, b, a);
      LessIrreflexive(a);
    }
  }

  /** The empty string (the trade price before any trade) is below every
      other string and above none. */
  lemma EmptyIsLeast(a: string)
    ensures !Less(a, "")
    ensures a != "" ==> Less("", a)
  {
  }

  /** The order is not numeric: a longer price can sort below a shorter one. */
  lemma NotNumeric()
    ensures Less("100", "99") && !Less("99", "100")
    ensures Less("105", "95")
  {
  }
}
