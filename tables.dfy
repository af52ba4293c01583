/** Sequence helpers standing for the pandas column operations the pipeline uses. */
module Tables {

  /** No element occurs twice. */
  ghost predicate Distinct<T>(s: seq<T>)
  {
    forall i, j :: 0 <= i < j < |s| ==> s[i] != s[j]
  }

  /** The distinct elements of `s` in order of first appearance, as `Series.unique()`
      returns them. */
  function Unique<T(==)>(s: seq<T>): (r: seq<T>)
    ensures Distinct(r)
    ensures forall i :: 0 <= i < |s| ==> s[i] in r
    ensures forall j :: 0 <= j < |r| ==> r[j] in s
    ensures |r| <= |s|
  {
    if s == [] then []
    else
      var u := Unique(s[..|s| - 1]);
      var last := s[|s| - 1];
      assert s == s[..|s| - 1] + [last];
      if last in u then u else u + [last]
  }

  /** `x` occurs in `s` before the first occurrence of `y`. */
  ghost predicate FirstSeenBefore<T>(s: seq<T>, x: T, y: T)
  {
    exists p :: 0 <= p < |s| && s[p] == x && y !in s[..p]
  }

  /** `unique()` lists the values in the order in which each first appears. */
  lemma {:induction false} UniqueFirstAppearance<T>(s: seq<T>)
    ensures forall i, j :: 0 <= i < j < |Unique(s)| ==> FirstSeenBefore(s, Unique(s)[i], Unique(s)[j])
  {
    if s != [] {
      var init := s[..|s| - 1];
      var last := s[|s| - 1];
      UniqueFirstAppearance(init);
      var u := Unique(init);
      var r := Unique(s);
      forall i, j | 0 <= i < j < |r| ensures FirstSeenBefore(s, r[i], r[j]) {
        if j < |u| {
          assert r[i] == u[i] && r[j] == u[j];
          var p :| 0 <= p < |init| && init[p] == u[i] && u[j] !in init[..p];
          assert s[..p] == init[..p];
          assert s[p] == r[i];
        } else {
          assert r[i] == u[i] && r[j] == last && last !in u;
          var p :| 0 <= p < |init| && init[p] == u[i];
          assert s[..p] == init[..p];
          assert s[p] == r[i];
          assert last !in init;
        }
      }
    }
  }

  /** The set of elements of a duplicate-free sequence has as many elements as the sequence. */
  lemma {:induction false} DistinctCardinality<T>(s: seq<T>)
    requires Distinct(s)
    ensures |set x | x in s| == |s|
  {
    if s != [] {
      var init := s[..|s| - 1];
      var last := s[|s| - 1];
      DistinctCardinality(init);
      assert (set x | x in s) == (set x | x in init) + {last} by {
        assert s == init + [last];
      }
      assert last !in init;
    }
  }

  /** A sequence without duplicates is its own `unique()`. */
  lemma {:induction false} UniqueOfDistinct<T>(s: seq<T>)
    requires Distinct(s)
    ensures Unique(s) == s
  {
    if s != [] {
      var init := s[..|s| - 1];
      assert Distinct(init) by {
        forall i, j | 0 <= i < j < |init| ensures init[i] != init[j] {
          assert init[i] == s[i] && init[j] == s[j];
        }
      }
      UniqueOfDistinct(init);
      assert s[|s| - 1] !in init;
      assert s == init + [s[|s| - 1]];
    }
  }

  /** Keeping only first occurrences loses nothing only when there was nothing repeated. */
  lemma {:induction false} UniqueFullLength<T>(s: seq<T>)
    requires |Unique(s)| == |s|
    ensures Distinct(s)
  {
    if s != [] {
      var init := s[..|s| - 1];
      assert |Unique(init)| == |init|;
      UniqueFullLength(init);
      var last := s[|s| - 1];
      assert last !in Unique(init);
      forall i, j | 0 <= i < j < |s| ensures s[i] != s[j] {
        assert s[i] == init[i];
        if j < |init| {
          assert s[j] == init[j];
        } else {
          assert init[i] in Unique(init);
        }
      }
    }
  }

  /** The result is as long as the input exactly when the input has no duplicates, and is
      then the input itself. */
  lemma UniqueKeepsDistinct<T>(s: seq<T>)
    ensures Distinct(s) ==> Unique(s) == s
    ensures |Unique(s)| == |s| ==> Distinct(s)
  {
    if Distinct(s) {
      UniqueOfDistinct(s);
    }
    if |Unique(s)| == |s| {
      UniqueFullLength(s);
    }
  }
}
