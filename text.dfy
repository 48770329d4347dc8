/** String operations of the pipeline: cleaning a currency text, and Python's string order. */
module Text {
  import opened Seqs

  /** The characters `[0-9.-]` that the cost cleaner keeps. */
  predicate KeptInCost(c: char) {
    '0' <= c <= '9' || c == '.' || c == '-'
  }

  /**
   * `str.replace(r"[^0-9.-]", "", regex=True)`: the cost text reduced to its digits,
   * decimal points and minus signs. The result holds only those characters, holds every
   * occurrence of each of them, and keeps them in their original order.
   */
  function CleanCost(s: string): (r: string)
    ensures forall i :: 0 <= i < |r| ==> KeptInCost(r[i])
    ensures forall c :: KeptInCost(c) ==> multiset(r)[c] == multiset(s)[c]
    ensures IsSubsequence(r, s)
  {
    FilterIsSubsequence(s, KeptInCost);
    forall c | KeptInCost(c) ensures multiset(Filter(s, KeptInCost))[c] == multiset(s)[c] {
      FilterMultiplicity(s, KeptInCost, c);
    }
    Filter(s, KeptInCost)
  }

  /** Cleaning an already clean text changes nothing. */
  lemma CleanCostIdempotent(s: string)
    ensures CleanCost(CleanCost(s)) == CleanCost(s)
  {
    FilterIdentity(CleanCost(s), KeptInCost);
  }

  lemma {:induction false} FilterIdentity<T>(s: seq<T>, keep: T -> bool)
    requires forall i :: 0 <= i < |s| ==> keep(s[i])
    ensures Filter(s, keep) == s
  {
    if s != [] {
      FilterIdentity(s[1..], keep);
    }
  }

  /** Python's `a <= b` on strings: code-point lexicographic order, a prefix first. */
  predicate LexLe(a: string, b: string) {
    a == [] || (b != [] && (a[0] < b[0] || (a[0] == b[0] && LexLe(a[1..], b[1..]))))
  }

  lemma {:induction false} LexLeTotal(a: string, b: string)
    ensures LexLe(a, b) || LexLe(b, a)
  {
    if a != [] && b != [] && a[0] == b[0] {
      LexLeTotal(a[1..], b[1..]);
    }
  }

  lemma {:induction false} LexLeTransitive(a: string, b: string, c: string)
    requires LexLe(a, b) && LexLe(b, c)
    ensures LexLe(a, c)
  {
    if a != [] && b != [] && c != [] && a[0] == b[0] == c[0] {
      LexLeTransitive(a[1..], b[1..], c[1..]);
    }
  }

  lemma {:induction false} LexLeAntisymmetric(a: string, b: string)
    requires LexLe(a, b) && LexLe(b, a)
    ensures a == b
  {
    if a != [] && b != [] {
      LexLeAntisymmetric(a[1..], b[1..]);
      assert a == [a[0]] + a[1..] && b == [b[0]] + b[1..];
    }
  }
}
