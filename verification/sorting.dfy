/** Python's `sorted`: a stable insertion, its order, and when its result is the only one possible. */
module Sorting {

  /** What a comparison by key gives. */
  ghost predicate WeakOrder<T(!new)>(less: (T, T) -> bool) {
    && (forall a, b :: less(a, b) ==> !less(b, a))
    && (forall a, b, c :: !less(b, a) && !less(c, b) ==> !less(c, a))
  }

  predicate InOrder<T>(s: seq<T>, less: (T, T) -> bool) {
    forall i, j | 0 <= i < j < |s| :: !less(s[j], s[i])
  }

  function Insert<T>(x: T, s: seq<T>, less: (T, T) -> bool): seq<T> {
    if s == [] || !less(s[0], x) then [x] + s else [s[0]] + Insert(x, s[1..], less)
  }

  function Sort<T>(s: seq<T>, less: (T, T) -> bool): seq<T> {
    if s == [] then [] else Insert(s[0], Sort(s[1..], less), less)
  }

  lemma Chain<T(!new)>(less: (T, T) -> bool, a: T, b: T, c: T)
    requires WeakOrder(less)
    ensures less(a, b) ==> !less(b, a)
    ensures !less(b, a) && !less(c, b) ==> !less(c, a)
  {
  }

  lemma {:induction false} InsertKeeps<T(!new)>(x: T, s: seq<T>, less: (T, T) -> bool)
    requires WeakOrder(less) && InOrder(s, less)
    ensures InOrder(Insert(x, s, less), less) && multiset(Insert(x, s, less)) == multiset(s) + multiset{x}
  {
    hide WeakOrder;
    if s != [] && less(s[0], x) {
      var rest := Insert(x, s[1..], less);
      assert s == [s[0]] + s[1..];
      InsertKeeps(x, s[1..], less);
      Chain(less, s[0], x, x);
      forall j | 0 <= j < |rest| ensures !less(rest[j], s[0]) {
        assert rest[j] in multiset(rest);
        assert rest[j] == x || rest[j] in s[1..];
      }
    } else {
      forall j | 0 <= j < |s| ensures !less(s[j], x) {
        assert j > 0 ==> !less(s[j], s[0]);
        Chain(less, x, s[0], s[j]);
      }
    }
  }

  lemma {:induction false} SortSorts<T(!new)>(s: seq<T>, less: (T, T) -> bool)
    requires WeakOrder(less)
    ensures InOrder(Sort(s, less), less) && multiset(Sort(s, less)) == multiset(s) && |Sort(s, less)| == |s|
  {
    hide WeakOrder;
    if s != [] {
      SortSorts(s[1..], less);
      InsertKeeps(s[0], Sort(s[1..], less), less);
      assert s == [s[0]] + s[1..];
    }
    assert |multiset(Sort(s, less))| == |multiset(s)|;
  }

  /** What is in order already stays as it is. */
  lemma {:induction false} SortedStays<T(!new)>(s: seq<T>, less: (T, T) -> bool)
    requires InOrder(s, less)
    ensures Sort(s, less) == s
  {
    if s != [] {
      SortedStays(s[1..], less);
      assert s == [s[0]] + s[1..];
    }
  }

  /** When no two elements tie, there is one order. */
  lemma {:induction false} OneOrder<T(!new)>(a: seq<T>, b: seq<T>, less: (T, T) -> bool)
    requires WeakOrder(less) && InOrder(a, less) && InOrder(b, less) && multiset(a) == multiset(b)
    requires NoTies(a, less)
    ensures a == b
  {
    hide WeakOrder, NoTies;
    assert |multiset(a)| == |multiset(b)|;
    if a == [] {
      assert b == [];
    } else {
      SameFirst(a, b, less);
      Tail(a, less);
      Tail(b, less);
      Untied(a, a[0], a[0], less);
      OneOrder(a[1..], b[1..], less);
      assert a == [a[0]] + a[1..] && b == [b[0]] + b[1..];
    }
  }

  lemma SameFirst<T(!new)>(a: seq<T>, b: seq<T>, less: (T, T) -> bool)
    requires WeakOrder(less) && InOrder(a, less) && InOrder(b, less) && multiset(a) == multiset(b)
    requires NoTies(a, less) && a != [] && b != []
    ensures a[0] == b[0]
  {
    hide WeakOrder, NoTies, InOrder;
    assert a[0] in multiset(b) && b[0] in multiset(a);
    Least(a, b[0], less);
    Least(b, a[0], less);
    Untied(a, a[0], b[0], less);
  }

  lemma Tail<T(!new)>(a: seq<T>, less: (T, T) -> bool)
    requires InOrder(a, less) && a != []
    ensures InOrder(a[1..], less) && multiset(a[1..]) == multiset(a) - multiset{a[0]}
  {
    assert a == [a[0]] + a[1..];
  }

  ghost predicate NoTies<T(!new)>(s: seq<T>, less: (T, T) -> bool) {
    forall x, y | x in s && y in s && x != y :: less(x, y) || less(y, x)
  }

  lemma Untied<T(!new)>(s: seq<T>, x: T, y: T, less: (T, T) -> bool)
    requires NoTies(s, less) && s != []
    ensures NoTies(s[1..], less)
    ensures x in s && y in s && x != y ==> less(x, y) || less(y, x)
  {
    assert forall z | z in s[1..] :: z in s;
  }

  lemma Least<T(!new)>(a: seq<T>, x: T, less: (T, T) -> bool)
    requires WeakOrder(less) && InOrder(a, less) && x in a
    ensures !less(x, a[0])
  {
    var i :| 0 <= i < |a| && a[i] == x;
    Chain(less, x, x, x);
    assert i > 0 ==> !less(a[i], a[0]);
  }
}
