/** Datatypes and sequence facts shared by the other modules. */
module Common {

  datatype Option<+T> = None | Some(value: T)

  /** Identity of a leaf certificate; two leaves are the same when their bytes are. */
  type Leaf = nat

  /** A reading of the monotone clock, in nanoseconds. */
  type Time = nat

  function Bit(b: bool): nat {
    if b then 1 else 0
  }

  lemma CountSnoc<T>(s: seq<T>, x: T, y: T)
    ensures multiset(s + [x])[y] == multiset(s)[y] + Bit(x == y)
  {
    assert multiset(s + [x]) == multiset(s) + multiset{x};
  }

  lemma CountHead<T>(s: seq<T>, y: T)
    requires s != []
    ensures multiset(s)[y] == Bit(s[0] == y) + multiset(s[1..])[y]
  {
    assert s == [s[0]] + s[1..];
  }

  /** Element `k` is the last one with the property. */
  ghost predicate LastAt<T>(p: T -> bool, s: seq<T>, k: int) {
    0 <= k < |s| && p(s[k]) && forall l :: k < l < |s| ==> !p(s[l])
  }

  lemma LastAtSnoc<T>(p: T -> bool, s: seq<T>, k: int)
    requires s != []
    ensures LastAt(p, s, k) <==> if p(s[|s| - 1]) then k == |s| - 1 else LastAt(p, s[..|s| - 1], k)
  {
    var init := s[..|s| - 1];
    if p(s[|s| - 1]) {
      assert LastAt(p, s, k) ==> k >= |s| - 1;
    } else if LastAt(p, init, k) {
      forall l | k < l < |s| ensures !p(s[l]) {
        assert l < |init| ==> !p(init[l]);
      }
    }
    if !p(s[|s| - 1]) && LastAt(p, s, k) {
      forall l | k < l < |init| ensures !p(init[l]) {
        assert !p(s[l]);
      }
    }
  }

  /** The sequence 0, 1, ..., n-1. */
  function Iota(n: nat): (r: seq<nat>)
    ensures |r| == n
    ensures forall i :: 0 <= i < n ==> r[i] == i
  {
    if n == 0 then [] else Iota(n - 1) + [n - 1]
  }

  /** `a` can be obtained from `b` by deleting elements, keeping the order of the rest. */
  ghost predicate Subsequence<T(!new)>(a: seq<T>, b: seq<T>)
    decreases |b|
  {
    if a == [] then true
    else if b == [] then false
    else
      var b' := b[..|b| - 1];
      || Subsequence(a, b')
      || (a[|a| - 1] == b[|b| - 1] && Subsequence(a[..|a| - 1], b'))
  }

  /** Appending on the right-hand side keeps the relation. */
  lemma {:induction false} SubsequenceExtend<T(!new)>(a: seq<T>, b: seq<T>, c: seq<T>)
    requires Subsequence(a, b)
    ensures Subsequence(a, b + c)
    decreases |c|
  {
    if c == [] {
      assert b + c == b;
    } else {
      var c' := c[..|c| - 1];
      SubsequenceExtend(a, b, c');
      assert (b + c)[..|b + c| - 1] == b + c';
    }
  }

  /** Appending the same element on both sides keeps the relation. */
  lemma SubsequenceSnoc<T(!new)>(a: seq<T>, b: seq<T>, x: T)
    requires Subsequence(a, b)
    ensures Subsequence(a + [x], b + [x])
  {
    assert (a + [x])[..|a|] == a;
    assert (b + [x])[..|b|] == b;
  }

  lemma {:induction false} SubsequenceTrans<T(!new)>(a: seq<T>, b: seq<T>, c: seq<T>)
    requires Subsequence(a, b) && Subsequence(b, c)
    ensures Subsequence(a, c)
    decreases |c|
  {
    if a != [] && c != [] {
      var c' := c[..|c| - 1];
      if Subsequence(b, c') {
        SubsequenceTrans(a, b, c');
      } else {
        var b' := b[..|b| - 1];
        if Subsequence(a, b') {
          SubsequenceTrans(a, b', c');
        } else {
          SubsequenceTrans(a[..|a| - 1], b', c');
        }
      }
    }
  }
}
