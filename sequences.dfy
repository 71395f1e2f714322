/**
 * The two pandas operations `fetch_fire_data` applies to the per-chunk
 * tables: `pd.concat(all_data, ignore_index=True)` (concatenation in chunk
 * order) and `drop_duplicates()` with its default `keep='first'` (a row equal
 * to an earlier row is dropped; the survivors keep their order).
 */
module Sequences {

  /** `pd.concat(tables, ignore_index=True)`. */
  function Concat<T>(tables: seq<seq<T>>): seq<T> {
    if tables == [] then [] else Concat(tables[..|tables| - 1]) + tables[|tables| - 1]
  }

  /** `drop_duplicates()`, keeping each row's first occurrence. */
  function DropDuplicates<T(==)>(s: seq<T>): (r: seq<T>)
    ensures |r| <= |s|
  {
    if s == [] then []
    else
      var kept := DropDuplicates(s[..|s| - 1]);
      if s[|s| - 1] in kept then kept else kept + [s[|s| - 1]]
  }

  predicate NoDuplicates<T(==)>(s: seq<T>) {
    forall i, j :: 0 <= i < j < |s| ==> s[i] != s[j]
  }

  /** The position of the first occurrence of `x` in `s`. */
  function FirstIndex<T(==)>(s: seq<T>, x: T): (k: nat)
    requires x in s
    ensures k < |s| && s[k] == x && x !in s[..k]
  {
    if s[0] == x then 0 else 1 + FirstIndex(s[1..], x)
  }

  lemma {:induction false} FirstIndexAppend<T>(p: seq<T>, z: T, y: T)
    requires y in p + [z]
    ensures y in p ==> FirstIndex(p + [z], y) == FirstIndex(p, y)
    ensures y !in p ==> FirstIndex(p + [z], y) == |p|
    decreases |p|
  {
    if p != [] && p[0] != y {
      assert (p + [z])[1..] == p[1..] + [z];
      FirstIndexAppend(p[1..], z, y);
    }
  }

  /**
   * What `drop_duplicates` keeps: no two equal rows, exactly the rows that
   * occur in the input, in the order of their first occurrences.
   */
  lemma {:induction false} DropDuplicatesSpec<T>(s: seq<T>)
    ensures NoDuplicates(DropDuplicates(s))
    ensures forall x :: x in DropDuplicates(s) ==> x in s
    ensures forall x :: x in s ==> x in DropDuplicates(s)
    ensures forall i, j :: 0 <= i < j < |DropDuplicates(s)| ==>
              FirstIndex(s, DropDuplicates(s)[i]) < FirstIndex(s, DropDuplicates(s)[j])
    decreases |s|
  {
    if s != [] {
      var p, z := s[..|s| - 1], s[|s| - 1];
      assert s == p + [z];
      DropDuplicatesSpec(p);
      var kept := DropDuplicates(p);
      var r := DropDuplicates(s);
      if z in kept {
        assert r == kept;
        forall i, j | 0 <= i < j < |r|
          ensures FirstIndex(s, r[i]) < FirstIndex(s, r[j])
        {
          assert kept[i] in p && kept[j] in p;
          FirstIndexAppend(p, z, kept[i]);
          FirstIndexAppend(p, z, kept[j]);
        }
      } else {
        assert r == kept + [z];
        forall i, j | 0 <= i < j < |r|
          ensures FirstIndex(s, r[i]) < FirstIndex(s, r[j])
        {
          assert kept[i] in p;
          FirstIndexAppend(p, z, kept[i]);
          if j < |kept| {
            assert kept[j] in p;
            FirstIndexAppend(p, z, kept[j]);
          } else {
            FirstIndexAppend(p, z, z);
          }
        }
      }
    }
  }

  /** A table without duplicates is left as it is. */
  lemma {:induction false} DropDuplicatesOfDistinct<T>(s: seq<T>)
    requires NoDuplicates(s)
    ensures DropDuplicates(s) == s
    decreases |s|
  {
    if s != [] {
      var p := s[..|s| - 1];
      assert NoDuplicates(p);
      DropDuplicatesOfDistinct(p);
      assert s[|s| - 1] !in p;
      assert s == p + [s[|s| - 1]];
    }
  }

  /** Dropping duplicates twice changes nothing more. */
  lemma DropDuplicatesIdempotent<T>(s: seq<T>)
    ensures DropDuplicates(DropDuplicates(s)) == DropDuplicates(s)
  {
    DropDuplicatesSpec(s);
    DropDuplicatesOfDistinct(DropDuplicates(s));
  }

  /** A row is in the concatenation exactly when it is in one of the tables. */
  lemma {:induction false} InConcat<T>(tables: seq<seq<T>>, x: T)
    ensures x in Concat(tables) <==> exists k :: 0 <= k < |tables| && x in tables[k]
    decreases |tables|
  {
    if tables != [] {
      var p := tables[..|tables| - 1];
      InConcat(p, x);
      if x in tables[|tables| - 1] {
        assert exists k :: 0 <= k < |tables| && x in tables[k] by {
          assert x in tables[|tables| - 1];
        }
      }
      if exists k :: 0 <= k < |tables| && x in tables[k] {
        var k :| 0 <= k < |tables| && x in tables[k];
        if k < |tables| - 1 {
          assert p[k] == tables[k];
        }
      }
    }
  }
}
