/** `Array.prototype.filter` on sequences, and what "keeps the original relative
    order" means. */
module Seqs {

  /** `s.filter(f)`, built the way the source's loops build their arrays: element by
      element, appending at the end. */
  function Filter<T(==)>(s: seq<T>, f: T -> bool): (r: seq<T>)
    ensures |r| <= |s|
    ensures forall i :: 0 <= i < |r| ==> r[i] in s && f(r[i])
    ensures forall i :: 0 <= i < |s| && f(s[i]) ==> s[i] in r
    decreases |s|
  {
    if s == [] then []
    else
      var init := Filter(s[..|s| - 1], f);
      if f(s[|s| - 1]) then init + [s[|s| - 1]] else init
  }

  /** `xs` is obtained from `ys` by deleting elements, the rest in their order. */
  predicate IsSubsequence<T(==)>(xs: seq<T>, ys: seq<T>)
    decreases |ys|
  {
    if xs == [] then true
    else if ys == [] then false
    else (xs[|xs| - 1] == ys[|ys| - 1] && IsSubsequence(xs[..|xs| - 1], ys[..|ys| - 1]))
         || IsSubsequence(xs, ys[..|ys| - 1])
  }

  lemma {:induction false} FilterIsSubsequence<T>(s: seq<T>, f: T -> bool)
    ensures IsSubsequence(Filter(s, f), s)
    decreases |s|
  {
    if s != [] {
      var init := s[..|s| - 1];
      FilterIsSubsequence(init, f);
      var r := Filter(s, f);
      if f(s[|s| - 1]) {
        assert r[..|r| - 1] == Filter(init, f);
      }
    }
  }

  /** Filtering by a predicate and by its negation splits `s` with nothing lost or
      duplicated. */
  lemma {:induction false} FilterSplit<T>(s: seq<T>, f: T -> bool, g: T -> bool)
    requires forall x :: g(x) == !f(x)
    ensures |Filter(s, f)| + |Filter(s, g)| == |s|
    ensures multiset(Filter(s, f)) + multiset(Filter(s, g)) == multiset(s)
    decreases |s|
  {
    if s != [] {
      var init, x := s[..|s| - 1], s[|s| - 1];
      FilterSplit(init, f, g);
      assert s == init + [x];
      FilterSnoc(init, x, f);
      FilterSnoc(init, x, g);
      SplitStep(Filter(init, f), Filter(init, g), init, x);
    }
  }

  /** Appending `x` to one side of a split of `init` splits `init + [x]`. */
  lemma SplitStep<T>(a: seq<T>, b: seq<T>, init: seq<T>, x: T)
    requires |a| + |b| == |init| && multiset(a) + multiset(b) == multiset(init)
    ensures |a + [x]| + |b| == |init + [x]| && multiset(a + [x]) + multiset(b) == multiset(init + [x])
    ensures |a| + |b + [x]| == |init + [x]| && multiset(a) + multiset(b + [x]) == multiset(init + [x])
  {
  }

  /** Filtering out every copy of `y` removes exactly the copies of `y`. */
  lemma {:induction false} FilterOutMultiset<T>(s: seq<T>, y: T, f: T -> bool)
    requires forall x :: f(x) <==> x != y
    ensures multiset(Filter(s, f)) == multiset(s)[y := 0]
    decreases |s|
  {
    if s != [] {
      var init, x := s[..|s| - 1], s[|s| - 1];
      FilterOutMultiset(init, y, f);
      assert s == init + [x];
      FilterSnoc(init, x, f);
    }
  }

  /** A concatenation begins with its left part. */
  lemma ConcatPrefix<T>(a: seq<T>, b: seq<T>)
    ensures (a + b)[..|a|] == a
  {
  }

  /** Filtering `s` with `x` appended: `x` stays at the end exactly when it passes. */
  lemma FilterSnoc<T>(s: seq<T>, x: T, f: T -> bool)
    ensures Filter(s + [x], f) == if f(x) then Filter(s, f) + [x] else Filter(s, f)
  {
    assert (s + [x])[..|s|] == s;
  }

  lemma {:induction false} SubsequenceRefl<T>(xs: seq<T>)
    ensures IsSubsequence(xs, xs)
    decreases |xs|
  {
    if xs != [] {
      SubsequenceRefl(xs[..|xs| - 1]);
    }
  }

  /** The first element a filter keeps is the first element of `s` it accepts. */
  lemma {:induction false} FilterHead<T>(s: seq<T>, f: T -> bool)
    requires Filter(s, f) != []
    ensures exists i :: 0 <= i < |s| && s[i] == Filter(s, f)[0] && f(s[i]) && forall j :: 0 <= j < i ==> !f(s[j])
    decreases |s|
  {
    var init := s[..|s| - 1];
    if Filter(init, f) != [] {
      FilterHead(init, f);
      var i :| 0 <= i < |init| && init[i] == Filter(init, f)[0] && f(init[i]) && forall j :: 0 <= j < i ==> !f(init[j]);
      assert s[i] == init[i];
      assert forall j :: 0 <= j < i ==> s[j] == init[j];
    } else {
      assert forall j :: 0 <= j < |init| ==> !f(init[j]);
      assert forall j :: 0 <= j < |s| - 1 ==> s[j] == init[j];
    }
  }

  /** A predicate that holds of every element filters nothing out. */
  lemma {:induction false} FilterAll<T>(s: seq<T>, f: T -> bool)
    requires forall x :: x in s ==> f(x)
    ensures Filter(s, f) == s
    decreases |s|
  {
    if s != [] {
      FilterAll(s[..|s| - 1], f);
      assert s == s[..|s| - 1] + [s[|s| - 1]];
    }
  }

  /** A predicate that holds of no element filters everything out. */
  lemma {:induction false} FilterNone<T>(s: seq<T>, f: T -> bool)
    requires forall x :: x in s ==> !f(x)
    ensures Filter(s, f) == []
    decreases |s|
  {
    if s != [] {
      FilterNone(s[..|s| - 1], f);
    }
  }

  /** Two predicates that agree on the elements of `s` filter it alike. */
  lemma {:induction false} FilterAgree<T>(s: seq<T>, f: T -> bool, g: T -> bool)
    requires forall x :: x in s ==> f(x) == g(x)
    ensures Filter(s, f) == Filter(s, g)
    decreases |s|
  {
    if s != [] {
      FilterAgree(s[..|s| - 1], f, g);
    }
  }

  /** Filtering distributes over concatenation. */
  lemma {:induction false} FilterConcat<T>(a: seq<T>, b: seq<T>, f: T -> bool)
    ensures Filter(a + b, f) == Filter(a, f) + Filter(b, f)
    decreases |b|
  {
    if b == [] {
      assert a + b == a;
    } else {
      var bInit := b[..|b| - 1];
      assert (a + b)[..|a + b| - 1] == a + bInit;
      FilterConcat(a, bInit, f);
    }
  }

  lemma FilterSingleton<T>(x: T, f: T -> bool)
    ensures Filter([x], f) == if f(x) then [x] else []
  {
    assert [x][..0] == [];
  }

  /** When `g` implies `f`, filtering by `f` first loses nothing `g` keeps. */
  lemma {:induction false} FilterOfFilter<T>(s: seq<T>, f: T -> bool, g: T -> bool)
    requires forall x :: g(x) ==> f(x)
    ensures Filter(Filter(s, f), g) == Filter(s, g)
    decreases |s|
  {
    if s != [] {
      var init := s[..|s| - 1];
      FilterOfFilter(init, f, g);
      var x := s[|s| - 1];
      if f(x) {
        assert Filter(s, f)[..|Filter(s, f)| - 1] == Filter(init, f);
      }
    }
  }

  /** Filtering `x` in front of `s`: `x` stays in front exactly when it passes. */
  lemma FilterCons<T>(x: T, s: seq<T>, f: T -> bool)
    ensures Filter([x] + s, f) == if f(x) then [x] + Filter(s, f) else Filter(s, f)
  {
    FilterConcat([x], s, f);
    FilterSingleton(x, f);
  }

  /** Filtering three elements, each kept exactly when it passes. */
  lemma FilterThree<T>(x: T, y: T, z: T, f: T -> bool)
    ensures Filter([x, y, z], f)
      == (if f(x) then [x] else []) + (if f(y) then [y] else []) + (if f(z) then [z] else [])
  {
    var one, two := if f(x) then [x] else [], if f(y) then [y] else [];
    assert [x][..0] == [];
    assert Filter([x], f) == one;
    assert [x, y][..1] == [x];
    assert Filter([x, y], f) == one + two;
    assert [x, y, z][..2] == [x, y];
  }

  /** Two neighbours that do not both pass the filter can trade places unnoticed. */
  lemma FilterSwap<T>(x: T, y: T, s: seq<T>, f: T -> bool)
    requires !f(x) || !f(y)
    ensures Filter([x] + ([y] + s), f) == Filter([y] + ([x] + s), f)
  {
    FilterCons(x, [y] + s, f);
    FilterCons(y, s, f);
    FilterCons(y, [x] + s, f);
    FilterCons(x, s, f);
  }

  /** Filtering a sequence without duplicates yields one without duplicates. */
  lemma {:induction false} FilterNoDuplicates<T>(s: seq<T>, f: T -> bool)
    requires NoDuplicates(s)
    ensures NoDuplicates(Filter(s, f))
    decreases |s|
  {
    if s != [] {
      var init := s[..|s| - 1];
      FilterNoDuplicates(init, f);
      var r := Filter(init, f);
      if f(s[|s| - 1]) {
        assert s[|s| - 1] !in init;
        assert s[|s| - 1] !in r;
        var r' := r + [s[|s| - 1]];
        forall i, j | 0 <= i < j < |r'|
          ensures r'[i] != r'[j]
        {
          if j == |r'| - 1 {
            assert r'[i] in r;
          }
        }
      }
    }
  }

  predicate NoDuplicates<T(==)>(s: seq<T>) {
    forall i, j :: 0 <= i < j < |s| ==> s[i] != s[j]
  }
}
