/**
 * The LINQ queries the repositories issue against a table, stated over the
 * table's rows in store order. Every query selects rows by a key (an accessor
 * such as `UserEmail`) compared for equality with a value, which is the only
 * form of predicate the queried code uses.
 */
module Linq {
  import opened Wrappers

  /** Index of the first row whose key is `k`: what `FirstOrDefaultAsync` and `AnyAsync` scan for. */
  function IndexOf<T, K(==)>(s: seq<T>, key: T -> K, k: K): (r: Option<nat>)
    ensures r.None? <==> forall i :: 0 <= i < |s| ==> key(s[i]) != k
    ensures r.Some? ==> r.value < |s| && key(s[r.value]) == k
    ensures r.Some? ==> forall j :: 0 <= j < r.value ==> key(s[j]) != k
    decreases |s|
  {
    if s == [] then None
    else if key(s[0]) == k then Some(0)
    else match IndexOf(s[1..], key, k)
      case None => None
      case Some(i) => Some(i + 1)
  }

  /** `FirstOrDefaultAsync(x => key(x) == k)`: the first matching row, or null. */
  function FirstOrDefault<T, K(==)>(s: seq<T>, key: T -> K, k: K): (r: Option<T>)
    ensures r.None? <==> forall i :: 0 <= i < |s| ==> key(s[i]) != k
    ensures r.Some? ==> r.value in s && key(r.value) == k
  {
    match IndexOf(s, key, k)
    case None => None
    case Some(i) => Some(s[i])
  }

  /** `AnyAsync(x => key(x) == k)`: true exactly when the scan for the key finds a row. */
  function Any<T, K(==)>(s: seq<T>, key: T -> K, k: K): (b: bool)
    ensures b <==> IndexOf(s, key, k).Some?
    ensures b <==> FirstOrDefault(s, key, k).Some?
  {
    exists i :: 0 <= i < |s| && key(s[i]) == k
  }

  /** `Where(x => key(x) == k)`: the matching rows, in their original order. */
  function Where<T, K(==)>(s: seq<T>, key: T -> K, k: K): (r: seq<T>)
    ensures |r| <= |s|
    ensures forall i :: 0 <= i < |r| ==> key(r[i]) == k
    ensures forall i :: 0 <= i < |r| ==> r[i] in s
    ensures forall i :: 0 <= i < |s| && key(s[i]) == k ==> s[i] in r
    decreases |s|
  {
    if s == [] then []
    else if key(s[0]) == k then [s[0]] + Where(s[1..], key, k)
    else Where(s[1..], key, k)
  }

  /** Filtering distributes over concatenation, so `Where` keeps the rows' relative order. */
  lemma {:induction false} WhereAppend<T, K>(a: seq<T>, b: seq<T>, key: T -> K, k: K)
    ensures Where(a + b, key, k) == Where(a, key, k) + Where(b, key, k)
    decreases |a|
  {
    if a == [] {
      assert a + b == b;
    } else {
      assert (a + b)[1..] == a[1..] + b;
      WhereAppend(a[1..], b, key, k);
    }
  }

  /** Filtering never duplicates a row: each row occurs in the result exactly as often as it matches in the input. */
  lemma {:induction false} WhereCount<T, K>(s: seq<T>, key: T -> K, k: K, x: T)
    ensures multiset(Where(s, key, k))[x] == if key(x) == k then multiset(s)[x] else 0
    decreases |s|
  {
    if s != [] {
      assert s == [s[0]] + s[1..];
      WhereCount(s[1..], key, k, x);
    }
  }

  /** `WhereCount` for every row at once: the result is the input's matching rows, each exactly as often. */
  lemma WhereCounts<T, K>(s: seq<T>, key: T -> K, k: K)
    ensures forall x :: multiset(Where(s, key, k))[x] == if key(x) == k then multiset(s)[x] else 0
  {
    forall x
      ensures multiset(Where(s, key, k))[x] == if key(x) == k then multiset(s)[x] else 0
    {
      WhereCount(s, key, k, x);
    }
  }

  /** No two rows share a key: a primary key or a unique index. */
  ghost predicate KeysUnique<T, K>(s: seq<T>, key: T -> K)
  {
    forall i, j :: 0 <= i < |s| && 0 <= j < |s| && i != j ==> key(s[i]) != key(s[j])
  }

  /** With a unique key, the row found by key is the only row carrying it. */
  lemma FirstOrDefaultUnique<T, K>(s: seq<T>, key: T -> K, i: nat)
    requires KeysUnique(s, key) && i < |s|
    ensures IndexOf(s, key, key(s[i])) == Some(i)
    ensures FirstOrDefault(s, key, key(s[i])) == Some(s[i])
  {
  }

  /** Appending a row whose key is new keeps the key unique. */
  lemma KeysUniqueAppend<T, K>(s: seq<T>, key: T -> K, x: T)
    requires KeysUnique(s, key) && !Any(s, key, key(x))
    ensures KeysUnique(s + [x], key)
  {
  }

  /** Replacing a row by one that keeps its key, or takes a key no row has, keeps the key unique. */
  lemma KeysUniqueReplace<T, K>(s: seq<T>, key: T -> K, i: nat, x: T)
    requires KeysUnique(s, key) && i < |s|
    requires key(x) == key(s[i]) || !Any(s, key, key(x))
    ensures KeysUnique(s[i := x], key)
  {
  }

  /** Removing a row keeps every key unique. */
  lemma KeysUniqueRemove<T, K>(s: seq<T>, key: T -> K, i: nat)
    requires KeysUnique(s, key) && i < |s|
    ensures KeysUnique(s[..i] + s[i + 1..], key)
    ensures !Any(s[..i] + s[i + 1..], key, key(s[i]))
  {
    var r := s[..i] + s[i + 1..];
    forall a, b | 0 <= a < |r| && 0 <= b < |r| && a != b
      ensures key(r[a]) != key(r[b])
    {
      var a' := if a < i then a else a + 1;
      var b' := if b < i then b else b + 1;
      assert r[a] == s[a'] && r[b] == s[b'];
    }
    forall a | 0 <= a < |r|
      ensures key(r[a]) != key(s[i])
    {
      var a' := if a < i then a else a + 1;
      assert r[a] == s[a'];
    }
  }
}
