/** Shared vocabulary of the models. */
module Collections {

  datatype Option<+T> = None | Some(value: T)

  ghost predicate Distinct<T>(s: seq<T>) {
    forall i, j :: 0 <= i < j < |s| ==> s[i] != s[j]
  }

  /** order lists every key of the set exactly once: one possible iteration over a Go map. */
  ghost predicate Enumerates(order: seq<string>, keys: set<string>) {
    Distinct(order) && forall k :: k in keys <==> k in order
  }

  lemma DistinctConcat<T>(s: seq<T>, more: seq<T>)
    requires Distinct(s) && Distinct(more) && forall x :: x in more ==> x !in s
    ensures Distinct(s + more)
  {
    forall i, j | 0 <= i < j < |s + more| ensures (s + more)[i] != (s + more)[j] {
      if i < |s| <= j { assert more[j - |s|] in more && s[i] in s; }
    }
  }

  lemma DistinctMore<T>(s: seq<T>, x: T)
    requires Distinct(s) && x !in s
    ensures Distinct(s + [x])
  {
  }

  lemma {:induction false} DistinctOnce<T>(s: seq<T>, x: T)
    requires Distinct(s)
    ensures multiset(s)[x] <= 1
  {
    if s != [] {
      var init, last := s[..|s| - 1], s[|s| - 1];
      assert s == init + [last];
      DistinctOnce(init, x);
      assert last !in init;
    }
  }

  lemma DistinctPermuted<T>(a: seq<T>, b: seq<T>)
    requires Distinct(a) && multiset(a) == multiset(b)
    ensures Distinct(b)
  {
    forall i, j | 0 <= i < j < |b| ensures b[i] != b[j] {
      DistinctOnce(a, b[i]);
      assert b == b[..j] + [b[j]] + b[j + 1..];
      assert b[i] in b[..j];
    }
  }

  lemma Removed<T>(s: seq<T>, j: nat)
    requires j < |s|
    ensures multiset(s[..j] + s[j + 1..]) == multiset(s) - multiset{s[j]}
  {
    assert s == s[..j] + [s[j]] + s[j + 1..];
  }

  /** Permutations stay permutations when both lose the last element of the first. */
  lemma WithoutLast<T>(a: seq<T>, b: seq<T>, j: nat)
    requires a != [] && multiset(a) == multiset(b) && j < |b| && b[j] == a[|a| - 1]
    ensures multiset(a[..|a| - 1]) == multiset(b[..j] + b[j + 1..])
  {
    Removed(b, j);
    Removed(a, |a| - 1);
    assert a[..|a| - 1] + a[|a| - 1 + 1..] == a[..|a| - 1];
  }

  ghost predicate Each<T(!new)>(xs: seq<Option<T>>, ys: seq<T>) {
    |ys| == |xs| && forall i :: 0 <= i < |xs| ==> xs[i] == Some(ys[i])
  }

  /** The values, if all are there. */
  function Collect<T>(xs: seq<Option<T>>): (r: Option<seq<T>>)
    ensures r.Some? ==> |r.value| == |xs|
  {
    if xs == [] then Some([])
    else
      match (Collect(xs[..|xs| - 1]), xs[|xs| - 1])
      case (Some(ys), Some(y)) => Some(ys + [y])
      case _ => None
  }

  lemma {:induction false} CollectEach<T(!new)>(xs: seq<Option<T>>, ys: seq<T>)
    ensures Collect(xs) == Some(ys) <==> Each(xs, ys)
  {
    if xs != [] && ys != [] {
      var init, front, last := xs[..|xs| - 1], ys[..|ys| - 1], ys[|ys| - 1];
      CollectEach(init, front);
      assert ys == front + [last];
      if Collect(init).Some? {
        assert (Collect(init).value + [last])[..|init|] == Collect(init).value;
      }
    }
  }

  lemma CollectNone<T(!new)>(xs: seq<Option<T>>, i: nat)
    requires i < |xs| && xs[i] == None
    ensures Collect(xs) == None
  {
    if Collect(xs).Some? { CollectEach(xs, Collect(xs).value); }
  }

  lemma EachMore<T(!new)>(xs: seq<Option<T>>, ys: seq<T>, i: nat)
    requires i < |xs| && xs[i].Some? && Each(xs[..i], ys)
    ensures Each(xs[..i + 1], ys + [xs[i].value])
  {
  }

  lemma EachAll<T(!new)>(xs: seq<Option<T>>, ys: seq<T>)
    requires Each(xs[..|xs|], ys)
    ensures Collect(xs) == Some(ys)
  {
    assert xs[..|xs|] == xs;
    CollectEach(xs, ys);
  }
}
