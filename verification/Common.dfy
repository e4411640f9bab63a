/** Small shared vocabulary: optional values, failing statements, and facts about finite sets. */
module Common {

  datatype Option<+T> = None | Some(value: T)

  /** A statement may fail without effect, or take effect and lose its answer. */
  datatype Fault = NoFault | NotApplied | AnswerLost

  /** The same for a Redis command. */
  datatype Reply = Answers | Refuses | LosesAnswer

  /** A finite set whose members are all equal has at most one member. */
  lemma AtMostOne<T>(s: set<T>)
    requires forall x, y :: x in s && y in s ==> x == y
    ensures |s| <= 1
  {
    if x :| x in s {
      assert s == {x};
    }
  }

  /** A subset is no larger than its superset. */
  lemma SubsetSize<T>(a: set<T>, b: set<T>)
    requires a <= b
    ensures |a| <= |b|
  {
    assert b == a + (b - a);
  }

  lemma UnionSize<T>(a: set<T>, b: set<T>)
    ensures |a + b| <= |a| + |b|
  {
    assert |a + b| + |a * b| == |a| + |b|;
  }

  /** A set mapped one-to-one into another is no larger. */
  lemma {:induction false} Injection<A, B>(xs: set<A>, f: map<A, B>, ys: set<B>)
    requires xs <= f.Keys
    requires forall x :: x in xs ==> f[x] in ys
    requires forall x, y :: x in xs && y in xs && f[x] == f[y] ==> x == y
    ensures |xs| <= |ys|
    decreases |xs|
  {
    if x :| x in xs { Injection(xs - {x}, f, ys - {f[x]}); }
  }

  /** Mapped one-to-one onto the other, it has the same size. */
  lemma {:induction false} Bijection<A, B>(xs: set<A>, f: map<A, B>, ys: set<B>)
    requires xs <= f.Keys
    requires forall x :: x in xs ==> f[x] in ys
    requires forall x, y :: x in xs && y in xs && f[x] == f[y] ==> x == y
    requires forall y :: y in ys ==> exists x :: x in xs && f[x] == y
    ensures |xs| == |ys|
    decreases |xs|
  {
    if x :| x in xs { Bijection(xs - {x}, f, ys - {f[x]}); }
  }
}
