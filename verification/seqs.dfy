/** Sequence helpers the tables are queried with: lookup by key, filter, and page. */
module Seqs {
  import opened Wrappers

  /** Index of the first element whose key is `id` (a `.filter(... == id).first()` query). */
  function Find<T>(s: seq<T>, key: T -> nat, id: nat): (r: Option<nat>)
    ensures r.Some? ==> r.value < |s| && key(s[r.value]) == id
    ensures r.Some? ==> forall j :: 0 <= j < r.value ==> key(s[j]) != id
    ensures r.None? <==> forall j :: 0 <= j < |s| ==> key(s[j]) != id
  {
    if s == [] then None
    else if key(s[0]) == id then Some(0)
    else match Find(s[1..], key, id)
      case None => None
      case Some(i) => Some(i + 1)
  }

  /** The elements of `s` that `keep` accepts, in their original order, each
      as often as it occurs in `s`. */
  function Filter<T(!new)>(s: seq<T>, keep: T -> bool): (r: seq<T>)
    ensures |r| <= |s|
    ensures forall x :: x in r <==> x in s && keep(x)
  {
    if s == [] then []
    else
      assert s == [s[0]] + s[1..];
      (if keep(s[0]) then [s[0]] else []) + Filter(s[1..], keep)
  }

  /** `Filter` keeps every kept element as often as it occurs, and no other. */
  lemma {:induction false} FilterCount<T(!new)>(s: seq<T>, keep: T -> bool)
    ensures forall x :: multiset(Filter(s, keep))[x] == if keep(x) then multiset(s)[x] else 0
  {
    if s != [] {
      FilterCount(s[1..], keep);
      assert s == [s[0]] + s[1..];
    }
  }

  lemma {:induction false} FilterAppend<T(!new)>(a: seq<T>, b: seq<T>, keep: T -> bool)
    ensures Filter(a + b, keep) == Filter(a, keep) + Filter(b, keep)
  {
    if a == [] {
      assert a + b == b;
    } else {
      assert (a + b)[0] == a[0];
      assert (a + b)[1..] == a[1..] + b;
      FilterAppend(a[1..], b, keep);
    }
  }

  lemma {:induction false} FilterKeepsAll<T(!new)>(s: seq<T>, keep: T -> bool)
    requires forall x :: x in s ==> keep(x)
    ensures Filter(s, keep) == s
  {
    if s != [] {
      assert s[0] in s && keep(s[0]);
      assert forall x :: x in s[1..] ==> x in s;
      FilterKeepsAll(s[1..], keep);
      assert Filter(s, keep) == [s[0]] + Filter(s[1..], keep);
    }
  }

  lemma FilterKeepsNone<T(!new)>(s: seq<T>, keep: T -> bool)
    requires forall x :: x in s ==> !keep(x)
    ensures Filter(s, keep) == []
  {
  }

  lemma FoundAt<T>(s: seq<T>, key: T -> nat, id: nat, j: nat)
    requires j < |s| && key(s[j]) == id
    ensures Find(s, key, id).Some?
  {
  }

  /** Appending elements keeps every key findable. */
  lemma FindAfterAppend<T>(s: seq<T>, t: seq<T>, key: T -> nat, id: nat)
    requires Find(s, key, id).Some?
    ensures Find(s + t, key, id).Some?
  {
    var j := Find(s, key, id).value;
    assert (s + t)[j] == s[j];
    FoundAt(s + t, key, id, j);
  }

  /** Removing the element at `i` keeps every other key findable. */
  lemma FindAfterRemove<T>(s: seq<T>, i: nat, key: T -> nat, id: nat)
    requires i < |s| && key(s[i]) != id && Find(s, key, id).Some?
    ensures Find(Without(s, i), key, id).Some?
  {
    var j := Find(s, key, id).value;
    var r := Without(s, i);
    var k := if j < i then j else j - 1;
    assert j != i;
    assert r[k] == s[j];
    FoundAt(r, key, id, k);
  }

  /** Replacing an element by one with the same key keeps every key findable. */
  lemma FindAfterReplace<T>(s: seq<T>, i: nat, x: T, key: T -> nat, id: nat)
    requires i < |s| && key(x) == key(s[i]) && Find(s, key, id).Some?
    ensures Find(s[i := x], key, id).Some?
  {
    var j := Find(s, key, id).value;
    assert key(s[i := x][j]) == key(s[j]);
    FoundAt(s[i := x], key, id, j);
  }

  /** The sequence without its element at index `i`. */
  function Without<T>(s: seq<T>, i: nat): (r: seq<T>)
    requires i < |s|
    ensures |r| == |s| - 1
    ensures forall k :: 0 <= k < |r| ==> r[k] == s[if k < i then k else k + 1]
  {
    s[..i] + s[i + 1..]
  }

  /** Removing the element at `i` from a sequence with distinct keys keeps
      the keys distinct and drops exactly the elements with that key. */
  lemma RemoveAt<T>(s: seq<T>, i: nat, key: T -> nat)
    requires i < |s|
    requires forall a, b :: 0 <= a < b < |s| ==> key(s[a]) != key(s[b])
    ensures forall a, b :: 0 <= a < b < |Without(s, i)| ==> key(Without(s, i)[a]) != key(Without(s, i)[b])
    ensures forall x :: x in Without(s, i) <==> x in s && key(x) != key(s[i])
  {
    var r := Without(s, i);
    forall x | x in s && key(x) != key(s[i]) ensures x in r {
      var j :| 0 <= j < |s| && s[j] == x;
      assert r[if j < i then j else j - 1] == x;
    }
  }

  /** An element that occurs nowhere else in `s` occurs in it exactly once. */
  lemma OccursOnce<T>(s: seq<T>, i: nat)
    requires i < |s|
    requires forall k :: 0 <= k < |s| && k != i ==> s[k] != s[i]
    ensures multiset(s)[s[i]] == 1
  {
    assert s == s[..i] + [s[i]] + s[i + 1..];
    assert s[i] !in s[..i];
    var rest := s[i + 1..];
    assert forall k :: 0 <= k < |rest| ==> rest[k] == s[i + 1 + k];
    assert s[i] !in rest;
  }

  /** At most `limit` elements starting at offset `skip` (SQL OFFSET/LIMIT). */
  function Page<T>(s: seq<T>, skip: nat, limit: nat): seq<T>
  {
    if skip >= |s| then [] else s[skip..skip + Min(limit, |s| - skip)]
  }
}
