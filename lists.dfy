/** The list updates the stores apply to their cached rows: `xs.map(x => x.id === k ? y : x)`,
    `xs.filter(x => x.id !== k)` and `xs.find(x => x.id === k)`, over any row type with a key. */
module Lists {
  import opened Wrappers

  /** Every row whose key is `k` becomes `y`; the others stay, in order. */
  function Replace<T, K(==)>(xs: seq<T>, key: T -> K, k: K, y: T): (r: seq<T>)
    ensures |r| == |xs|
    ensures forall i :: 0 <= i < |xs| ==> r[i] == if key(xs[i]) == k then y else xs[i]
  {
    if xs == [] then []
    else [if key(xs[0]) == k then y else xs[0]] + Replace(xs[1..], key, k, y)
  }

  /** The rows whose key is not `k`, in order. */
  function Remove<T(==,!new), K(==)>(xs: seq<T>, key: T -> K, k: K): (r: seq<T>)
    ensures |r| <= |xs|
    ensures forall x :: x in r <==> x in xs && key(x) != k
  {
    if xs == [] then []
    else if key(xs[0]) == k then Remove(xs[1..], key, k)
    else [xs[0]] + Remove(xs[1..], key, k)
  }

  /** The first row whose key is `k`, if any. */
  function Find<T(==,!new), K(==)>(xs: seq<T>, key: T -> K, k: K): (r: Option<T>)
    ensures r.Some? <==> exists x :: x in xs && key(x) == k
    ensures r.Some? ==> r.value in xs && key(r.value) == k
    ensures r.Some? ==> exists i :: 0 <= i < |xs| && xs[i] == r.value && NoKeyBefore(xs, key, k, i)
  {
    if xs == [] then None
    else if key(xs[0]) == k then
      assert NoKeyBefore(xs, key, k, 0);
      Some(xs[0])
    else
      var r := Find(xs[1..], key, k);
      if r.Some? then
        assert forall i :: 0 <= i < |xs| - 1 && NoKeyBefore(xs[1..], key, k, i) ==> NoKeyBefore(xs, key, k, i + 1);
        r
      else r
  }

  /** No row before position `i` has the key `k`. */
  ghost predicate NoKeyBefore<T, K>(xs: seq<T>, key: T -> K, k: K, i: int)
    requires 0 <= i <= |xs|
  {
    forall j :: 0 <= j < i ==> key(xs[j]) != k
  }

  /** Replacing a key no row has changes nothing. */
  lemma ReplaceMissing<T, K>(xs: seq<T>, key: T -> K, k: K, y: T)
    requires forall i :: 0 <= i < |xs| ==> key(xs[i]) != k
    ensures Replace(xs, key, k, y) == xs
  {
  }

  /** A second replacement under the same key overrides the first, provided the first
      kept the key. */
  lemma ReplaceTwice<T, K>(xs: seq<T>, key: T -> K, k: K, y: T, z: T)
    requires key(y) == k
    ensures Replace(Replace(xs, key, k, y), key, k, z) == Replace(xs, key, k, z)
  {
  }

  /** Removing a key no row has changes nothing, and removing twice is removing once. */
  lemma {:induction false} RemoveMissing<T(!new), K>(xs: seq<T>, key: T -> K, k: K)
    requires forall x :: x in xs ==> key(x) != k
    ensures Remove(xs, key, k) == xs
  {
    if xs != [] {
      assert xs[0] in xs;
      RemoveMissing(xs[1..], key, k);
      assert xs == [xs[0]] + xs[1..];
    }
  }

  /** Removal works row by row, so the rows that stay keep their order. */
  lemma {:induction false} RemoveAppend<T(!new), K>(a: seq<T>, b: seq<T>, key: T -> K, k: K)
    ensures Remove(a + b, key, k) == Remove(a, key, k) + Remove(b, key, k)
  {
    if a != [] {
      RemoveAppend(a[1..], b, key, k);
      assert (a + b)[0] == a[0] && (a + b)[1..] == a[1..] + b;
    } else {
      assert a + b == b;
    }
  }

  lemma RemoveIdempotent<T(!new), K>(xs: seq<T>, key: T -> K, k: K)
    ensures Remove(Remove(xs, key, k), key, k) == Remove(xs, key, k)
  {
    RemoveMissing(Remove(xs, key, k), key, k);
  }
}
