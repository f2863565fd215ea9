/**
 * Case folding: the model's stand-in for `StringComparer.OrdinalIgnoreCase`,
 * which compares two strings character by character after upper-casing them.
 * Only the ASCII letters are folded here.
 */
module Folding {

  /** `c` and `d` are case partners: the same character, or one is the lower-case ASCII form of the other. */
  predicate CasePartners(c: char, d: char)
  {
    || c == d
    || ('a' <= c <= 'z' && d as int == c as int - 32)
    || ('a' <= d <= 'z' && c as int == d as int - 32)
  }

  /** The upper-case form of an ASCII lower-case letter; every other character is its own fold. */
  function FoldChar(c: char): (r: char)
    ensures CasePartners(c, r)
    ensures !('a' <= r <= 'z')
  {
    if 'a' <= c <= 'z' then (c as int - 32) as char else c
  }

  /** The two properties of `FoldChar` determine it: there is exactly one such character. */
  lemma FoldCharUnique(c: char, r: char)
    requires CasePartners(c, r) && !('a' <= r <= 'z')
    ensures r == FoldChar(c)
  {
  }

  /** Two characters fold alike exactly when they are case partners. */
  lemma FoldCharPartners(c: char, d: char)
    ensures FoldChar(c) == FoldChar(d) <==> CasePartners(c, d)
  {
  }

  /** The folded form of a string: the key under which an ignore-case table files it. */
  function Fold(s: string): string
  {
    seq(|s|, i requires 0 <= i < |s| => FoldChar(s[i]))
  }

  /** Two strings are the same key when they fold to the same string. */
  predicate SameKey(a: string, b: string)
  {
    Fold(a) == Fold(b)
  }

  /** Folding a folded string changes nothing, so a folded key is its own key. */
  lemma FoldIdempotent(s: string)
    ensures Fold(Fold(s)) == Fold(s)
    ensures SameKey(Fold(s), s)
  {
    var f := Fold(s);
    assert forall i :: 0 <= i < |f| ==> Fold(f)[i] == f[i];
  }

  /**
   * The comparer's meaning: two strings are the same key exactly when they
   * have the same length and are case partners position by position.
   */
  lemma SameKeyIff(a: string, b: string)
    ensures SameKey(a, b) <==> |a| == |b| && forall i :: 0 <= i < |a| ==> CasePartners(a[i], b[i])
  {
    if SameKey(a, b) {
      forall i | 0 <= i < |a|
        ensures CasePartners(a[i], b[i])
      {
        assert Fold(a)[i] == Fold(b)[i];
        FoldCharPartners(a[i], b[i]);
      }
    }
    if |a| == |b| && forall i :: 0 <= i < |a| ==> CasePartners(a[i], b[i]) {
      forall i | 0 <= i < |a|
        ensures Fold(a)[i] == Fold(b)[i]
      {
        FoldCharPartners(a[i], b[i]);
      }
    }
  }

  /** Strings that are not case partners at some position are different keys. */
  lemma DiffersAt(a: string, b: string, i: nat)
    requires i < |a| && i < |b| && !CasePartners(a[i], b[i])
    ensures !SameKey(a, b)
  {
    SameKeyIff(a, b);
  }

  /** Strings of different lengths are different keys. */
  lemma LengthsDiffer(a: string, b: string)
    requires |a| != |b|
    ensures !SameKey(a, b)
  {
    assert |Fold(a)| != |Fold(b)|;
  }
}
