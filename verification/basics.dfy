/** Datatypes shared by the modules of this project. */
module Basics {

  /** A value that may be missing: Python's None, or an absent dictionary key. */
  datatype Option<+T> = None | Some(value: T)

  function Elements<T(==)>(s: seq<T>): set<T> {
    set x | x in s
  }

  /** Where an element first stands. */
  function IndexOf<T(==)>(s: seq<T>, x: T): (i: nat)
    requires x in s
    ensures i < |s| && s[i] == x
  {
    if s[0] == x then 0 else 1 + IndexOf(s[1..], x)
  }

  function Min(a: nat, b: nat): nat {
    if a < b then a else b
  }

  predicate NoRepeats<T(==)>(s: seq<T>) {
    forall i, j | 0 <= i < j < |s| :: s[i] != s[j]
  }

  /** A set as large as the sequence it was filled from means nothing repeated. */
  lemma {:induction false} SetSize<T>(s: seq<T>)
    ensures |Elements(s)| <= |s|
    ensures |Elements(s)| == |s| <==> NoRepeats(s)
  {
    if s != [] {
      var n := |s| - 1;
      var before := s[..n];
      SetSize(before);
      assert s == before + [s[n]];
      assert Elements(s) == Elements(before) + {s[n]};
      if s[n] in before {
        var i :| 0 <= i < n && before[i] == s[n];
        assert s[i] == s[n];
        assert Elements(s) == Elements(before);
      } else {
        assert forall i | 0 <= i < n :: s[i] == before[i] && s[i] != s[n];
      }
    }
  }
}
