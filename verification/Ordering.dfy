/** The orders behind `sorted`: code points, strings, path parts; lists without repetition; sorting a finite set. */
module Ordering {

  ghost predicate StrictTotalOrder<T(!new)>(less: (T, T) -> bool) {
    && (forall x :: !less(x, x))
    && (forall x, y, z :: less(x, y) && less(y, z) ==> less(x, z))
    && (forall x, y :: x == y || less(x, y) || less(y, x))
  }

  predicate CharLess(x: char, y: char) {
    x < y
  }

  /** Lexicographic order: the first difference decides, and a proper prefix comes first. */
  predicate Lex<T(==)>(less: (T, T) -> bool, a: seq<T>, b: seq<T>) {
    b != [] && (a == [] || less(a[0], b[0]) || (a[0] == b[0] && Lex(less, a[1..], b[1..])))
  }

  predicate StringLess(a: string, b: string) {
    Lex(CharLess, a, b)
  }

  predicate PathLess(a: seq<string>, b: seq<string>) {
    Lex(StringLess, a, b)
  }

  lemma {:induction false} LexTransitive<T(!new)>(less: (T, T) -> bool, a: seq<T>, b: seq<T>, c: seq<T>)
    requires StrictTotalOrder(less) && Lex(less, a, b) && Lex(less, b, c)
    ensures Lex(less, a, c)
  {
    if a == [] {
    } else if a[0] == b[0] == c[0] {
      LexTransitive(less, a[1..], b[1..], c[1..]);
    }
  }

  lemma {:induction false} LexTotal<T(!new)>(less: (T, T) -> bool, a: seq<T>, b: seq<T>)
    requires StrictTotalOrder(less)
    ensures a == b || Lex(less, a, b) || Lex(less, b, a)
  {
    if a == [] || b == [] {
    } else if a[0] == b[0] {
      LexTotal(less, a[1..], b[1..]);
      assert a == [a[0]] + a[1..] && b == [b[0]] + b[1..];
    }
  }

  lemma {:induction false} LexIrreflexive<T(!new)>(less: (T, T) -> bool, a: seq<T>)
    requires StrictTotalOrder(less)
    ensures !Lex(less, a, a)
  {
    if a == [] {
    } else {
      LexIrreflexive(less, a[1..]);
    }
  }

  lemma LexIsStrictTotalOrder<T(!new)>(less: (T, T) -> bool)
    requires StrictTotalOrder(less)
    ensures StrictTotalOrder((a: seq<T>, b: seq<T>) => Lex(less, a, b))
    ensures forall a: seq<T> :: !Lex(less, a, a)
    ensures forall a: seq<T>, b: seq<T>, c: seq<T> :: Lex(less, a, b) && Lex(less, b, c) ==> Lex(less, a, c)
    ensures forall a: seq<T>, b: seq<T> :: a == b || Lex(less, a, b) || Lex(less, b, a)
  {
    forall a: seq<T> ensures !Lex(less, a, a) {
      LexIrreflexive(less, a);
    }
    forall a: seq<T>, b: seq<T>, c: seq<T> | Lex(less, a, b) && Lex(less, b, c) ensures Lex(less, a, c) {
      LexTransitive(less, a, b, c);
    }
    forall a: seq<T>, b: seq<T> ensures a == b || Lex(less, a, b) || Lex(less, b, a) {
      LexTotal(less, a, b);
    }
  }

  lemma StringOrder()
    ensures StrictTotalOrder(StringLess)
  {
    assert StrictTotalOrder(CharLess);
    LexIsStrictTotalOrder(CharLess);
  }

  lemma PathOrder()
    ensures StrictTotalOrder(PathLess)
  {
    StringOrder();
    LexIsStrictTotalOrder(StringLess);
  }

  /** `a` and `b` agree before `k`, where `a` ends or its element is the smaller one. */
  ghost predicate DifferAt<T(!new)>(less: (T, T) -> bool, a: seq<T>, b: seq<T>, k: nat) {
    k <= |a| && k < |b| && a[..k] == b[..k] && (k == |a| || less(a[k], b[k]))
  }

  lemma TakeOneMore<T>(a: seq<T>, k: nat)
    requires k < |a|
    ensures a[..k + 1] == [a[0]] + a[1..][..k]
  {
    var p, q := a[..k + 1], [a[0]] + a[1..][..k];
    assert |p| == |q| && forall i :: 0 <= i <= k ==> p[i] == a[i] == q[i];
  }

  lemma DifferLater<T(!new)>(less: (T, T) -> bool, a: seq<T>, b: seq<T>, k: nat)
    requires a != [] && b != [] && a[0] == b[0]
    ensures DifferAt(less, a, b, k + 1) <==> DifferAt(less, a[1..], b[1..], k)
  {
    if k < |a| && k < |b| {
      TakeOneMore(a, k);
      TakeOneMore(b, k);
      assert a[..k + 1][1..] == a[1..][..k] && b[..k + 1][1..] == b[1..][..k];
    }
  }

  lemma {:induction false} LexByFirstDifference<T(!new)>(less: (T, T) -> bool, a: seq<T>, b: seq<T>)
    ensures Lex(less, a, b) <==> exists k: nat :: DifferAt(less, a, b, k)
  {
    if a == [] || b == [] {
      assert b != [] ==> DifferAt(less, a, b, 0);
    } else {
      LexByFirstDifference(less, a[1..], b[1..]);
      assert DifferAt(less, a, b, 0) <==> less(a[0], b[0]);
      if k: nat :| a[0] == b[0] && DifferAt(less, a[1..], b[1..], k) {
        DifferLater(less, a, b, k);
      }
      if k: nat :| k > 0 && DifferAt(less, a, b, k) {
        assert a[0] == a[..k][0] == b[..k][0] == b[0];
        DifferLater(less, a, b, k - 1);
      }
    }
  }

  /** Strings are ordered by the code points where they first differ, and a beginning comes before the whole. */
  lemma StringLessExactly(a: string, b: string)
    ensures StringLess(a, b) <==>
            exists k: nat {:trigger DifferAt(CharLess, a, b, k)} ::
              && k <= |a| && k < |b| && a[..k] == b[..k]
              && (k == |a| || (a[k] as int) < (b[k] as int))
  {
    LexByFirstDifference(CharLess, a, b);
    assert forall k: nat :: DifferAt(CharLess, a, b, k) <==>
             k <= |a| && k < |b| && a[..k] == b[..k] && (k == |a| || (a[k] as int) < (b[k] as int));
  }

  /** Paths are ordered by the parts where they first differ. */
  lemma PathLessExactly(a: seq<string>, b: seq<string>)
    ensures PathLess(a, b) <==> exists k: nat :: DifferAt(StringLess, a, b, k)
  {
    LexByFirstDifference(StringLess, a, b);
  }

  ghost predicate Distinct<T>(s: seq<T>) {
    forall i, j :: 0 <= i < j < |s| ==> s[i] != s[j]
  }

  ghost predicate Increasing<T(!new)>(s: seq<T>, less: (T, T) -> bool) {
    forall i, j :: 0 <= i < j < |s| ==> less(s[i], s[j])
  }

  /** `r` lists exactly the members of `s`, in strictly increasing order. */
  ghost predicate IsSorting<T(!new)>(r: seq<T>, s: set<T>, less: (T, T) -> bool) {
    Increasing(r, less) && forall x :: x in r <==> x in s
  }

  lemma ConcatIncreasing<T(!new)>(a: seq<T>, b: seq<T>, less: (T, T) -> bool)
    requires Increasing(a, less) && Increasing(b, less)
    requires forall x, y :: x in a && y in b ==> less(x, y)
    ensures Increasing(a + b, less)
  {
  }

  /** Sorting is a function of the set: two sortings of it are equal. */
  lemma {:induction false} SortingUnique<T(!new)>(p: seq<T>, q: seq<T>, s: set<T>, less: (T, T) -> bool)
    requires StrictTotalOrder(less) && IsSorting(p, s, less) && IsSorting(q, s, less)
    ensures p == q
    decreases |p|
  {
    if p == [] {
      assert forall i :: 0 <= i < |q| ==> q[i] in s;
    } else {
      assert p[0] in q && q != [];
      assert q[0] in p;
      assert p[0] == q[0];
      forall x ensures x in p[1..] <==> x in s - {p[0]} { }
      forall x ensures x in q[1..] <==> x in s - {p[0]} { }
      SortingUnique(p[1..], q[1..], s - {p[0]}, less);
      assert p == [p[0]] + p[1..] && q == [q[0]] + q[1..];
    }
  }

  lemma {:induction false} Least<T(!new)>(s: set<T>, less: (T, T) -> bool) returns (x: T)
    requires StrictTotalOrder(less) && s != {}
    ensures x in s && forall y :: y in s && y != x ==> less(x, y)
  {
    var z :| z in s;
    if s == {z} {
      x := z;
    } else {
      x := Least(s - {z}, less);
      if less(z, x) {
        forall y | y in s && y != z ensures less(z, y) {
          assert y == x || less(x, y);
        }
        x := z;
      }
    }
  }

  lemma LeastExists<T(!new)>(s: set<T>, less: (T, T) -> bool)
    requires StrictTotalOrder(less) && s != {}
    ensures exists x :: x in s && forall y :: y in s && y != x ==> less(x, y)
  {
    var x := Least(s, less);
  }

  ghost function Sorted<T(!new)>(s: set<T>, less: (T, T) -> bool): (r: seq<T>)
    requires StrictTotalOrder(less)
    ensures IsSorting(r, s, less)
  {
    if s == {} then [] else
      LeastExists(s, less);
      var x :| x in s && forall y :: y in s && y != x ==> less(x, y);
      var rest := Sorted(s - {x}, less);
      assert forall y :: y in [x] + rest <==> y in s;
      [x] + rest
  }

  /** Python's `sorted` on a set, by repeatedly taking the least remaining member. */
  method SortSet<T(!new, ==)>(s: set<T>, less: (T, T) -> bool) returns (r: seq<T>)
    requires StrictTotalOrder(less)
    ensures r == Sorted(s, less)
  {
    r := [];
    var rest := s;
    while rest != {}
      invariant rest <= s && Increasing(r, less)
      invariant forall x :: x in r <==> x in s - rest
      invariant forall x, y :: x in r && y in rest ==> less(x, y)
      decreases rest
    {
      LeastExists(rest, less);
      var x :| x in rest && forall y :: y in rest && y != x ==> less(x, y);
      ConcatIncreasing(r, [x], less);
      r := r + [x];
      rest := rest - {x};
    }
    SortingUnique(r, Sorted(s, less), s, less);
  }

  method SortNames(s: set<string>) returns (r: seq<string>)
    ensures forall i, j :: 0 <= i < j < |r| ==> StringLess(r[i], r[j])
    ensures forall x :: x in r <==> x in s
  {
    StringOrder();
    r := SortSet(s, StringLess);
  }

  method SortPaths(s: set<seq<string>>) returns (r: seq<seq<string>>)
    ensures forall i, j :: 0 <= i < j < |r| ==> PathLess(r[i], r[j])
    ensures forall x :: x in r <==> x in s
  {
    PathOrder();
    r := SortSet(s, PathLess);
  }
}
