/** Small facts about sets and sequences that several parts of the model share. */
module Common {

  type byte = b: int | 0 <= b < 256

  datatype Option<+T> = None | Some(value: T)

  function Max(a: nat, b: nat): nat {
    if a > b then a else b
  }

  function Min(a: nat, b: nat): nat {
    if a < b then a else b
  }

  /** The elements of a sequence, as a set. */
  function Elements<T>(s: seq<T>): set<T> {
    set x | x in s
  }

  ghost predicate Distinct<T>(s: seq<T>) {
    forall i, j :: 0 <= i < j < |s| ==> s[i] != s[j]
  }

  lemma {:induction false} DistinctCardinality<T>(s: seq<T>)
    requires Distinct(s)
    ensures |Elements(s)| == |s|
  {
    if s != [] {
      var rest := s[1..];
      DistinctCardinality(rest);
      assert Elements(s) == {s[0]} + Elements(rest);
    }
  }

  /** `a` is more than half of the peers. */
  ghost predicate Majority<T>(a: set<T>, all: set<T>) {
    a <= all && |a| > |all| / 2
  }

  lemma SubsetCardinality<T>(a: set<T>, b: set<T>)
    requires a <= b
    ensures |a| <= |b|
  {
    assert b == a + (b - a);
  }

  /** Two majorities of the same peers meet. */
  lemma MajoritiesMeet<T>(a: set<T>, b: set<T>, all: set<T>) returns (x: T)
    requires Majority(a, all) && Majority(b, all)
    ensures x in a && x in b
  {
    if a !! b {
      assert |a + b| == |a| + |b|;
      SubsetCardinality(a + b, all);
      assert false;
    }
    x :| x in a && x in b;
  }
}
