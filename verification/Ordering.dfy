/** Sorting and adjacent-duplicate removal, as `sort.Slice` followed by the in-place compaction that the
    program repeats for missing references, relation references and trace evaluations. */
module Ordering {

  /** A strict total order. */
  ghost predicate StrictOrder<T(!new)>(less: (T, T) -> bool) {
    && (forall x :: !less(x, x))
    && (forall x, y, z :: less(x, y) && less(y, z) ==> less(x, z))
    && (forall x, y :: x != y ==> less(x, y) || less(y, x))
  }

  ghost predicate Ascending<T>(less: (T, T) -> bool, s: seq<T>) {
    forall i, j :: 0 <= i < j < |s| ==> !less(s[j], s[i])
  }

  ghost predicate StrictlyAscending<T>(less: (T, T) -> bool, s: seq<T>) {
    forall i, j :: 0 <= i < j < |s| ==> less(s[i], s[j])
  }

  ghost predicate SameElements<T>(s: seq<T>, t: seq<T>) {
    (forall i :: 0 <= i < |s| ==> s[i] in t) && (forall i :: 0 <= i < |t| ==> t[i] in s)
  }

  function Insert<T>(less: (T, T) -> bool, x: T, s: seq<T>): seq<T> {
    if s == [] then [x]
    else if less(s[0], x) then [s[0]] + Insert(less, x, s[1..])
    else [x] + s
  }

  /** The sorted sequence `sort.Slice` leaves behind. */
  function Sorted<T>(less: (T, T) -> bool, s: seq<T>): seq<T> {
    if s == [] then [] else Insert(less, s[0], Sorted(less, s[1..]))
  }

  /** Keeps the first of each run of equal neighbours. */
  function Compacted<T(==)>(s: seq<T>): seq<T> {
    if |s| == 0 then []
    else
      var kept := Compacted(s[..|s| - 1]);
      if kept != [] && kept[|kept| - 1] == s[|s| - 1] then kept else kept + [s[|s| - 1]]
  }

  function Normalized<T(==)>(less: (T, T) -> bool, s: seq<T>): seq<T> {
    Compacted(Sorted(less, s))
  }

  lemma {:induction false} InsertIsSorted<T(!new)>(less: (T, T) -> bool, x: T, s: seq<T>)
    requires StrictOrder(less) && Ascending(less, s)
    ensures Ascending(less, Insert(less, x, s)) && SameElements(Insert(less, x, s), [x] + s)
  {
    if s != [] && less(s[0], x) {
      InsertIsSorted(less, x, s[1..]);
      var t := Insert(less, x, s[1..]);
      assert forall i :: 0 <= i < |s[1..]| ==> s[1..][i] == s[i + 1];
      forall j | 0 <= j < |t| ensures !less(t[j], s[0]) {
        assert t[j] in [x] + s[1..];
      }
      forall i | 0 <= i < |[x] + s| ensures ([x] + s)[i] in [s[0]] + t {
        if i >= 2 { assert ([x] + s)[i] == ([x] + s[1..])[i - 1]; }
        if i == 0 { assert ([x] + s[1..])[0] in t; }
      }
    }
  }

  lemma {:induction false} SortedIsSorted<T(!new)>(less: (T, T) -> bool, s: seq<T>)
    requires StrictOrder(less)
    ensures Ascending(less, Sorted(less, s)) && SameElements(Sorted(less, s), s)
  {
    if s != [] {
      SortedIsSorted(less, s[1..]);
      InsertIsSorted(less, s[0], Sorted(less, s[1..]));
      var rest := Sorted(less, s[1..]);
      forall i | 0 <= i < |s| ensures s[i] in Sorted(less, s) {
        if i == 0 { assert ([s[0]] + rest)[0] in Sorted(less, s); }
        else {
          assert s[1..][i - 1] in rest;
          var k :| 0 <= k < |rest| && rest[k] == s[i];
          assert ([s[0]] + rest)[k + 1] in Sorted(less, s);
        }
      }
    }
  }

  lemma {:induction false} CompactedIsStrict<T(!new)>(less: (T, T) -> bool, s: seq<T>)
    requires StrictOrder(less) && Ascending(less, s)
    ensures StrictlyAscending(less, Compacted(s)) && SameElements(Compacted(s), s)
    ensures s != [] ==> Compacted(s) != [] && Compacted(s)[|Compacted(s)| - 1] == s[|s| - 1]
  {
    if s != [] {
      var front := s[..|s| - 1];
      CompactedIsStrict(less, front);
      assert s == front + [s[|s| - 1]];
      var kept := Compacted(front);
      forall i | 0 <= i < |kept| ensures kept[i] == s[|s| - 1] || less(kept[i], s[|s| - 1]) {
        assert kept[i] in front;
      }
    }
  }

  /** Normalizing keeps exactly the elements, in strictly ascending order. */
  lemma NormalizedIsStrict<T(!new)>(less: (T, T) -> bool, s: seq<T>)
    requires StrictOrder(less)
    ensures StrictlyAscending(less, Normalized(less, s)) && SameElements(Normalized(less, s), s)
  {
    SortedIsSorted(less, s);
    CompactedIsStrict(less, Sorted(less, s));
  }

  /** A strictly ascending sequence is determined by its elements. */
  lemma {:induction false} StrictSequencesAreEqual<T(!new)>(less: (T, T) -> bool, s: seq<T>, t: seq<T>)
    requires StrictOrder(less) && StrictlyAscending(less, s) && StrictlyAscending(less, t)
    requires SameElements(s, t)
    ensures s == t
  {
    assert |s| > 0 ==> s[0] in t;
    assert |t| > 0 ==> t[0] in s;
    if s != [] && t != [] {
      assert s[0] in t && t[0] in s;
      assert s[0] == t[0];
      forall i | 0 <= i < |s[1..]| ensures s[1..][i] in t[1..] {
        assert s[i + 1] in t;
        var k :| 0 <= k < |t| && t[k] == s[i + 1];
        assert t[1..][k - 1] == s[i + 1];
      }
      forall i | 0 <= i < |t[1..]| ensures t[1..][i] in s[1..] {
        assert t[i + 1] in s;
        var k :| 0 <= k < |s| && s[k] == t[i + 1];
        assert s[1..][k - 1] == t[i + 1];
      }
      StrictSequencesAreEqual(less, s[1..], t[1..]);
    }
  }

  /** The shared idiom: sort the slice, squeeze duplicates towards its front, copy the front out. */
  method NormalizeInPlace<T(==)>(less: (T, T) -> bool, values: array<T>) returns (kept: seq<T>)
    modifies values
    ensures kept == Normalized(less, old(values[..]))
  {
    ghost var sorted := Sorted(less, values[..]);
    SortInPlace(less, values);
    var k := 0;
    for i := 0 to values.Length
      invariant 0 <= k <= i
      invariant values[..k] == Compacted(sorted[..i])
      invariant forall j :: i <= j < values.Length ==> values[j] == sorted[j]
    {
      CompactedStep(sorted, i);
      ghost var before := values[..k];
      assert k > 0 ==> before[k - 1] == values[k - 1];
      if !(k > 0 && values[k - 1] == values[i]) {
        values[k] := values[i];
        k := k + 1;
        assert values[..k] == before + [sorted[i]];
      }
    }
    assert sorted[..values.Length] == sorted;
    kept := values[..k];
  }

  lemma CompactedStep<T>(s: seq<T>, i: nat)
    requires i < |s|
    ensures var kept := Compacted(s[..i]);
      Compacted(s[..i + 1]) == if kept != [] && kept[|kept| - 1] == s[i] then kept else kept + [s[i]]
  {
    assert s[..i + 1][..i] == s[..i];
  }

  method SortInPlace<T>(less: (T, T) -> bool, values: array<T>)
    modifies values
    ensures values[..] == Sorted(less, old(values[..]))
    ensures |Sorted(less, old(values[..]))| == values.Length
  {
    var sorted := Sorted(less, values[..]);
    SortedLength(less, values[..]);
    forall i | 0 <= i < values.Length {
      values[i] := sorted[i];
    }
  }

  lemma SortedLength<T>(less: (T, T) -> bool, s: seq<T>)
    ensures |Sorted(less, s)| == |s|
  {
    if s != [] {
      SortedLength(less, s[1..]);
      InsertLength(less, s[0], Sorted(less, s[1..]));
    }
  }

  lemma InsertLength<T>(less: (T, T) -> bool, x: T, s: seq<T>)
    ensures |Insert(less, x, s)| == |s| + 1
  {
  }
}
