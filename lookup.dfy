/**
 * Header lookup by a normalising key, independent of how the key is computed:
 * a dictionary from key to header in which a later header overwrites an earlier one,
 * and a search over wanted names that stops at the first one found.
 */
module Lookup {
  import opened Wrappers

  /** Header `i` is the last one whose key is `k`. */
  ghost predicate LastWithKey(columns: seq<string>, key: string -> string, k: string, i: int) {
    && 0 <= i < |columns|
    && key(columns[i]) == k
    && forall j :: i < j < |columns| ==> key(columns[j]) != k
  }

  /**
   * The wanted name `w` finds the header `c`: `c` is the last header whose key is that of
   * `w`, and `c` is not empty (an empty label is falsy and is passed over).
   */
  ghost predicate Finds(columns: seq<string>, key: string -> string, w: string, c: string) {
    c != "" && exists i :: LastWithKey(columns, key, key(w), i) && columns[i] == c
  }

  ghost predicate Hit(columns: seq<string>, key: string -> string, w: string) {
    exists i :: LastWithKey(columns, key, key(w), i) && columns[i] != ""
  }

  /** `{key(c): c for c in columns}` */
  function IndexBy(columns: seq<string>, key: string -> string): map<string, string> {
    if columns == [] then map[]
    else
      var last := columns[|columns| - 1];
      IndexBy(columns[..|columns| - 1], key)[key(last) := last]
  }

  /** The header of the first wanted name whose key is indexed with a non-empty header. */
  function FirstHit(index: map<string, string>, wanted: seq<string>, key: string -> string): (r: Option<string>)
    ensures r.Some? ==> r.value != "" && exists w :: w in wanted && key(w) in index && index[key(w)] == r.value
  {
    if wanted == [] then None
    else
      var k := key(wanted[0]);
      if k in index && index[k] != "" then Some(index[k]) else FirstHit(index, wanted[1..], key)
  }

  lemma LastWithKeyUnique(columns: seq<string>, key: string -> string, k: string, i: int, j: int)
    requires LastWithKey(columns, key, k, i) && LastWithKey(columns, key, k, j)
    ensures i == j
  {
  }

  /** The index holds every key, and maps it to the last header with that key. */
  lemma {:induction false} IndexBySpec(columns: seq<string>, key: string -> string)
    ensures forall i :: 0 <= i < |columns| ==> key(columns[i]) in IndexBy(columns, key)
    ensures forall k :: k in IndexBy(columns, key) ==>
      exists i :: LastWithKey(columns, key, k, i) && IndexBy(columns, key)[k] == columns[i]
  {
    if columns != [] {
      var n := |columns| - 1;
      var front := columns[..n];
      IndexBySpec(front, key);
      var m := IndexBy(columns, key);
      assert m == IndexBy(front, key)[key(columns[n]) := columns[n]];
      forall i | 0 <= i < |columns|
        ensures key(columns[i]) in m
      {
        if i < n { assert columns[i] == front[i]; }
      }
      forall k | k in m
        ensures exists i :: LastWithKey(columns, key, k, i) && m[k] == columns[i]
      {
        if k == key(columns[n]) {
          assert LastWithKey(columns, key, k, n);
        } else {
          var i :| LastWithKey(front, key, k, i) && IndexBy(front, key)[k] == front[i];
          assert LastWithKey(columns, key, k, i);
        }
      }
    }
  }

  /** A wanted name hits exactly when its key is indexed with a non-empty header, which it then finds. */
  lemma HitIffIndexed(columns: seq<string>, key: string -> string, w: string)
    ensures var index := IndexBy(columns, key);
      Hit(columns, key, w) <==> key(w) in index && index[key(w)] != ""
    ensures var index := IndexBy(columns, key);
      Hit(columns, key, w) ==> Finds(columns, key, w, index[key(w)])
  {
    IndexBySpec(columns, key);
    var index, k := IndexBy(columns, key), key(w);
    if Hit(columns, key, w) {
      var i :| LastWithKey(columns, key, k, i) && columns[i] != "";
      assert k in index;
      var j :| LastWithKey(columns, key, k, j) && index[k] == columns[j];
      LastWithKeyUnique(columns, key, k, i, j);
    }
    if k in index && index[k] != "" {
      var j :| LastWithKey(columns, key, k, j) && index[k] == columns[j];
    }
  }

  /**
   * The search returns nothing exactly when no wanted name hits; otherwise it returns the
   * header found by the first wanted name that hits.
   */
  lemma {:induction false} FirstHitSpec(columns: seq<string>, key: string -> string, wanted: seq<string>)
    ensures var r := FirstHit(IndexBy(columns, key), wanted, key);
      r.None? <==> forall n :: 0 <= n < |wanted| ==> !Hit(columns, key, wanted[n])
    ensures var r := FirstHit(IndexBy(columns, key), wanted, key);
      r.Some? ==>
        exists n :: && 0 <= n < |wanted|
                    && Finds(columns, key, wanted[n], r.value)
                    && forall m :: 0 <= m < n ==> !Hit(columns, key, wanted[m])
  {
    if wanted != [] {
      var index := IndexBy(columns, key);
      HitIffIndexed(columns, key, wanted[0]);
      FirstHitSpec(columns, key, wanted[1..]);
      var r := FirstHit(index, wanted, key);
      if !Hit(columns, key, wanted[0]) {
        assert r == FirstHit(index, wanted[1..], key);
        forall n | 0 < n < |wanted| ensures wanted[n] == wanted[1..][n - 1] { }
        if r.Some? {
          var n :| && 0 <= n < |wanted[1..]|
                   && Finds(columns, key, wanted[1..][n], r.value)
                   && forall m :: 0 <= m < n ==> !Hit(columns, key, wanted[1..][m]);
          assert forall m :: 0 <= m < n + 1 ==> !Hit(columns, key, wanted[m]) by {
            forall m | 0 < m < n + 1 ensures wanted[m] == wanted[1..][m - 1] { }
          }
        }
      } else {
        assert Finds(columns, key, wanted[0], r.value);
      }
    }
  }

  /** A found header is a non-empty header of the list with the wanted name's key. */
  lemma FoundIsHeader(columns: seq<string>, key: string -> string, w: string, c: string)
    requires Finds(columns, key, w, c)
    ensures c != "" && key(c) == key(w)
    ensures exists i :: 0 <= i < |columns| && columns[i] == c
  {
  }

  /** A wanted name finds at most one header. */
  lemma FindsUnique(columns: seq<string>, key: string -> string, w: string, c: string, d: string)
    requires Finds(columns, key, w, c) && Finds(columns, key, w, d)
    ensures c == d
  {
    var i :| LastWithKey(columns, key, key(w), i) && columns[i] == c;
    var j :| LastWithKey(columns, key, key(w), j) && columns[j] == d;
    LastWithKeyUnique(columns, key, key(w), i, j);
  }

  /** `columns` with every header equal to `from` replaced by `to`. */
  function Relabel(columns: seq<string>, from: string, to: string): (r: seq<string>)
    ensures |r| == |columns|
    ensures forall i :: 0 <= i < |columns| ==> r[i] == (if columns[i] == from then to else columns[i])
  {
    seq(|columns|, i requires 0 <= i < |columns| => if columns[i] == from then to else columns[i])
  }

  lemma RelabelContainsTarget(columns: seq<string>, from: string, to: string)
    requires from in columns
    ensures to in Relabel(columns, from, to)
  {
    var i :| 0 <= i < |columns| && columns[i] == from;
    assert Relabel(columns, from, to)[i] == to;
  }

  /** Relabelling a header to a non-empty label with the same key changes no hit. */
  lemma RelabelPreservesHits(columns: seq<string>, key: string -> string, from: string, to: string, w: string)
    requires key(from) == key(to) && from != "" && to != ""
    ensures Hit(Relabel(columns, from, to), key, w) <==> Hit(columns, key, w)
  {
    var renamed := Relabel(columns, from, to);
    var k := key(w);
    assert forall i :: 0 <= i < |columns| ==> key(renamed[i]) == key(columns[i]);
    assert forall i :: LastWithKey(renamed, key, k, i) <==> LastWithKey(columns, key, k, i);
    if Hit(columns, key, w) {
      var i :| LastWithKey(columns, key, k, i) && columns[i] != "";
      assert LastWithKey(renamed, key, k, i) && renamed[i] != "";
    }
    if Hit(renamed, key, w) {
      var i :| LastWithKey(renamed, key, k, i) && renamed[i] != "";
      assert LastWithKey(columns, key, k, i) && columns[i] != "";
    }
  }
}
