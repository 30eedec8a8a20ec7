/** Sizes of finite sets. */
module FiniteSets {

  lemma {:induction false} SubsetCount<T>(s: set<T>, t: set<T>)
    requires s <= t
    ensures |s| <= |t|
  {
    assert t == s + (t - s);
  }

  lemma {:induction false} ImageSize<A, B>(s: set<A>, f: A -> B)
    requires forall x, y :: x in s && y in s && f(x) == f(y) ==> x == y
    ensures |set x | x in s :: f(x)| == |s|
    decreases s
  {
    if x :| x in s {
      var rest := s - {x};
      ImageSize(rest, f);
      assert (set y | y in s :: f(y)) == (set y | y in rest :: f(y)) + {f(x)};
      assert f(x) !in (set y | y in rest :: f(y));
    } else {
      assert forall x :: x !in s;
      assert s == {};
      assert (set y | y in s :: f(y)) == {};
    }
  }

  /** A one-to-one map onto a set makes it as large as its origin. */
  lemma {:induction false} SameSize<A, B>(s: set<A>, t: set<B>, f: A -> B)
    requires forall x :: x in s ==> f(x) in t
    requires forall x, y :: x in s && y in s && f(x) == f(y) ==> x == y
    requires forall z :: z in t ==> exists x :: x in s && f(x) == z
    ensures |s| == |t|
  {
    ImageSize(s, f);
    assert (set x | x in s :: f(x)) == t;
  }
}
