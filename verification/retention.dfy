/**
 Which Codex releases stay: shantytown/codex_retention.py. A release is kept when it is
 current, the latest, in use, young, or among the few before one that is current, latest or in use.
 */
module Retention {
  import opened Basics
  import Sorting
  import TextOrder

  const MIN_AGE: nat := 86400

  datatype Name = Name(major: nat, minor: nat, patch: nat, platform: string)

  datatype Snapshot = Snapshot(identity: int, bytes: nat, newest: int)

  /** Order by version. */
  predicate Less(a: Name, b: Name) {
    a.major < b.major || (a.major == b.major && (a.minor < b.minor || (a.minor == b.minor && a.patch < b.patch)))
  }

  predicate Ascending(vs: seq<Name>) {
    forall i, j | 0 <= i < j < |vs| :: Less(vs[i], vs[j])
  }

  predicate OnePlatform(names: seq<Name>) {
    forall i, j | 0 <= i < j < |names| :: names[i].platform == names[j].platform
  }

  // ---------- sorting ----------

  function Sort(names: seq<Name>): seq<Name> {
    Sorting.Sort(names, Less)
  }

  lemma LessIsWeak()
    ensures Sorting.WeakOrder(Less)
  {
  }

  lemma SortSorts(names: seq<Name>)
    requires NoRepeats(names) && OnePlatform(names)
    ensures Ascending(Sort(names))
    ensures forall x :: x in Sort(names) <==> x in names
  {
    hide Sorting.Sort, Sorting.WeakOrder;
    var vs := Sort(names);
    LessIsWeak();
    Sorting.SortSorts(names, Less);
    assert forall x :: x in vs <==> x in multiset(vs);
    assert forall x :: x in names <==> x in multiset(names);
    forall i, j | 0 <= i < j < |vs| ensures Less(vs[i], vs[j]) {
      CountsOnce(names, vs[i]);
      CountsTwice(vs, i, j);
      assert vs[i] in names && vs[j] in names;
      assert !Less(vs[j], vs[i]);
    }
  }

  lemma CountsOnce(names: seq<Name>, x: Name)
    requires NoRepeats(names)
    ensures multiset(names)[x] <= 1
  {
    if x in names {
      var k :| 0 <= k < |names| && names[k] == x;
      assert names == names[..k] + [x] + names[k + 1..];
      assert x !in names[..k] && x !in names[k + 1..];
    }
  }

  lemma CountsTwice(vs: seq<Name>, i: nat, j: nat)
    requires i < j < |vs|
    ensures vs[i] == vs[j] ==> multiset(vs)[vs[i]] >= 2
  {
    var rest := vs[i + 1..];
    assert vs == vs[..i] + [vs[i]] + rest;
    assert rest[j - i - 1] == vs[j];
    assert vs[j] in multiset(rest);
  }

  /** An ascending sequence is determined by its elements. */
  lemma {:induction false} AscendingIsUnique(a: seq<Name>, b: seq<Name>)
    requires Ascending(a) && Ascending(b) && forall x :: x in a <==> x in b
    ensures a == b
  {
    assert b != [] ==> b[0] in b;
    if a != [] {
      assert a[0] in a;
      FirstIsLeast(a, b[0]);
      FirstIsLeast(b, a[0]);
      forall x ensures x in a[1..] <==> x in b[1..] {
        InTail(a, x);
        InTail(b, x);
      }
      AscendingIsUnique(a[1..], b[1..]);
      assert a == [a[0]] + a[1..] && b == [b[0]] + b[1..];
    }
  }

  lemma FirstIsLeast(a: seq<Name>, x: Name)
    requires Ascending(a) && x in a
    ensures x == a[0] || Less(a[0], x)
  {
    var i :| 0 <= i < |a| && a[i] == x;
  }

  lemma InTail(a: seq<Name>, x: Name)
    requires Ascending(a) && a != []
    ensures x in a[1..] <==> x in a && x != a[0]
  {
    if x in a && x != a[0] {
      var i :| 0 <= i < |a| && a[i] == x;
      assert a[1..][i - 1] == x;
    }
    if x in a[1..] {
      var i :| 0 <= i < |a[1..]| && a[1..][i] == x;
      assert a[i + 1] == x;
    }
  }

  // ---------- what is retained ----------

  /** The `keep` versions just before the one at `i`. */
  function Before(vs: seq<Name>, i: nat, keep: nat): seq<Name>
    requires i <= |vs|
  {
    vs[if i < keep then 0 else i - keep..i]
  }

  predicate IsAnchor(vs: seq<Name>, current: Name, inUse: set<Name>, n: Name) {
    n in vs && (n == current || n == vs[|vs| - 1] || n in inUse)
  }

  predicate Young(rows: map<Name, Snapshot>, now: int, n: Name) {
    n in rows && now - rows[n].newest < MIN_AGE
  }

  predicate IsRetained(vs: seq<Name>, rows: map<Name, Snapshot>, current: Name, inUse: set<Name>, keep: nat, now: int,
                       n: Name) {
    && n in vs
    && (IsAnchor(vs, current, inUse, n)
        || (exists i | 0 <= i < |vs| :: IsAnchor(vs, current, inUse, vs[i]) && n in Before(vs, i, keep))
        || Young(rows, now, n))
  }

  /** The releases a plan keeps. */
  function Retained(vs: seq<Name>, rows: map<Name, Snapshot>, current: Name, inUse: set<Name>, keep: nat,
                    now: int): set<Name> {
    set n | n in vs && IsRetained(vs, rows, current, inUse, keep, now, n)
  }

  // ---------- removing what is not retained ----------

  function Without(vs: seq<Name>, gone: set<Name>): seq<Name> {
    if vs == [] then [] else (if vs[0] in gone then [] else [vs[0]]) + Without(vs[1..], gone)
  }

  lemma {:induction false} WithoutMembers(vs: seq<Name>, gone: set<Name>)
    ensures forall x :: x in Without(vs, gone) <==> x in vs && x !in gone
  {
    if vs != [] {
      WithoutMembers(vs[1..], gone);
      assert forall x :: x in vs <==> x == vs[0] || x in vs[1..];
    }
  }

  lemma {:induction false} WithoutAppend(a: seq<Name>, b: seq<Name>, gone: set<Name>)
    ensures Without(a + b, gone) == Without(a, gone) + Without(b, gone)
  {
    if a == [] {
      assert a + b == b;
    } else {
      assert (a + b)[1..] == a[1..] + b;
      WithoutAppend(a[1..], b, gone);
    }
  }

  lemma {:induction false} WithoutNothing(vs: seq<Name>, gone: set<Name>)
    requires forall x | x in vs :: x !in gone
    ensures Without(vs, gone) == vs
  {
    if vs != [] {
      assert vs[0] in vs;
      assert forall x | x in vs[1..] :: x in vs;
      WithoutNothing(vs[1..], gone);
    }
  }

  lemma {:induction false} WithoutAscending(vs: seq<Name>, gone: set<Name>)
    requires Ascending(vs)
    ensures Ascending(Without(vs, gone))
  {
    if vs != [] {
      WithoutAscending(vs[1..], gone);
      WithoutMembers(vs[1..], gone);
      var rest := Without(vs[1..], gone);
      forall j | 0 <= j < |rest| ensures Less(vs[0], rest[j]) {
        assert rest[j] in rest;
        var i :| 0 <= i < |vs[1..]| && vs[1..][i] == rest[j];
        assert vs[i + 1] == rest[j];
      }
    }
  }

  /** When neither a version nor the few before it go, it keeps the same few before it. */
  lemma SameBefore(vs: seq<Name>, i: nat, keep: nat, gone: set<Name>)
    requires i < |vs| && vs[i] !in gone && forall x | x in Before(vs, i, keep) :: x !in gone
    ensures var ws, i' := Without(vs, gone), |Without(vs[..i], gone)|;
      i' < |ws| && ws[i'] == vs[i] && Before(ws, i', keep) == Before(vs, i, keep)
  {
    var j := if i < keep then 0 else i - keep;
    var p, q := vs[..j], vs[j..i];
    assert vs[..i] == p + q;
    assert vs == vs[..i] + ([vs[i]] + vs[i + 1..]);
    WithoutAppend(p, q, gone);
    WithoutNothing(q, gone);
    WithoutAppend(vs[..i], [vs[i]] + vs[i + 1..], gone);
    assert ([vs[i]] + vs[i + 1..])[1..] == vs[i + 1..];
    var i' := |Without(vs[..i], gone)|;
    var ws := Without(vs, gone);
    assert ws[..i'] == Without(p, gone) + q;
    if i < keep { assert p == []; }
    assert Before(ws, i', keep) == ws[..i'][if i' < keep then 0 else i' - keep..];
  }

  lemma SameLast(vs: seq<Name>, gone: set<Name>)
    requires vs != [] && vs[|vs| - 1] !in gone
    ensures Without(vs, gone) != [] && Without(vs, gone)[|Without(vs, gone)| - 1] == vs[|vs| - 1]
  {
    var n := |vs| - 1;
    assert vs == vs[..n] + [vs[n]];
    WithoutAppend(vs[..n], [vs[n]], gone);
    assert [vs[n]][1..] == [];
  }

  lemma {:induction false} AscendingPlace(vs: seq<Name>, i: nat, j: nat)
    requires Ascending(vs) && i < |vs| && j < |vs| && vs[i] == vs[j]
    ensures i == j
  {
  }

  /** Taking away releases outside the retained set changes nothing about what is retained. */
  lemma RetainedStable(vs: seq<Name>, rows: map<Name, Snapshot>, current: Name, inUse: set<Name>, keep: nat, now: int,
                       gone: set<Name>)
    requires Ascending(vs) && current in vs
    requires gone !! Retained(vs, rows, current, inUse, keep, now)
    ensures Retained(Without(vs, gone), rows, current, inUse, keep, now)
      == Retained(vs, rows, current, inUse, keep, now)
  {
    hide Before, Young;
    var ws := Without(vs, gone);
    var kept := Retained(vs, rows, current, inUse, keep, now);
    WithoutMembers(vs, gone);
    WithoutAscending(vs, gone);
    assert IsAnchor(vs, current, inUse, vs[|vs| - 1]);
    assert vs[|vs| - 1] in kept;
    SameLast(vs, gone);
    forall n ensures IsAnchor(ws, current, inUse, n) <==> IsAnchor(vs, current, inUse, n) {
      if IsAnchor(vs, current, inUse, n) { assert n in kept; }
    }
    forall n ensures n in kept <==> n in Retained(ws, rows, current, inUse, keep, now) {
      if n in kept && !IsAnchor(vs, current, inUse, n) && !Young(rows, now, n) {
        var i :| 0 <= i < |vs| && IsAnchor(vs, current, inUse, vs[i]) && n in Before(vs, i, keep);
        AnchorKeepsBefore(vs, rows, current, inUse, keep, now, gone, i);
        var i' := |Without(vs[..i], gone)|;
        assert IsAnchor(ws, current, inUse, ws[i']) && n in Before(ws, i', keep);
      }
      if n in Retained(ws, rows, current, inUse, keep, now) && !IsAnchor(ws, current, inUse, n)
        && !Young(rows, now, n) {
        var i' :| 0 <= i' < |ws| && IsAnchor(ws, current, inUse, ws[i']) && n in Before(ws, i', keep);
        var i := IndexOf(vs, ws[i']);
        AnchorKeepsBefore(vs, rows, current, inUse, keep, now, gone, i);
        AscendingPlace(ws, i', |Without(vs[..i], gone)|);
        assert n in Before(vs, i, keep);
      }
    }
  }

  lemma AnchorKeepsBefore(vs: seq<Name>, rows: map<Name, Snapshot>, current: Name, inUse: set<Name>, keep: nat,
                          now: int, gone: set<Name>, i: nat)
    requires i < |vs| && IsAnchor(vs, current, inUse, vs[i])
    requires gone !! Retained(vs, rows, current, inUse, keep, now)
    ensures vs[i] !in gone
    ensures var ws, i' := Without(vs, gone), |Without(vs[..i], gone)|;
      i' < |ws| && ws[i'] == vs[i] && Before(ws, i', keep) == Before(vs, i, keep)
  {
    assert vs[i] in Retained(vs, rows, current, inUse, keep, now);
    forall x | x in Before(vs, i, keep) ensures x !in gone {
      assert x in vs;
      assert x in Retained(vs, rows, current, inUse, keep, now);
    }
    SameBefore(vs, i, keep, gone);
  }

  /** As time passes releases only stop being young. */
  lemma RetainedAges(vs: seq<Name>, rows: map<Name, Snapshot>, current: Name, inUse: set<Name>, keep: nat, now: int,
                     later: int)
    requires now <= later
    ensures Retained(vs, rows, current, inUse, keep, later) <= Retained(vs, rows, current, inUse, keep, now)
  {
    hide Before;
  }

  // ---------- the plan ----------

  datatype Plan = Plan(keep: nat, current: Name, rows: map<Name, Snapshot>, retained: set<Name>, remove: seq<Name>)

  const MAX_KEEP: nat := 20

  /** What `inventory` refuses: an unknown entry, a current that is not one of the releases, mixed platforms. */
  predicate Sound(names: seq<Name>, rows: map<Name, Snapshot>, current: Option<Name>, unknown: bool, keep: nat) {
    keep <= MAX_KEEP && !unknown && current.Some? && current.value in names && OnePlatform(names)
  }

  /** A directory lists each entry once, and each release has a snapshot. */
  predicate Listing(names: seq<Name>, rows: map<Name, Snapshot>) {
    NoRepeats(names) && rows.Keys == set n | n in names
  }

  function Digits(n: nat): string {
    (if n < 10 then "" else Digits(n / 10)) + ["0123456789"[n % 10]]
  }

  /** The name of the release's directory. */
  function TextOf(n: Name): string {
    Digits(n.major) + "." + Digits(n.minor) + "." + Digits(n.patch) + "-" + n.platform
  }

  function NumberOf(s: string): int {
    if s == "" then 0 else NumberOf(s[..|s| - 1]) * 10 + (s[|s| - 1] as int - '0' as int)
  }

  lemma NumberMore(t: string, d: char)
    ensures NumberOf(t + [d]) == NumberOf(t) * 10 + (d as int - '0' as int)
  {
    assert (t + [d])[..|t|] == t;
  }

  lemma OneDigit(n: nat)
    requires n < 10
    ensures var d := "0123456789"[n]; '0' <= d <= '9' && d as int - '0' as int == n
  {
  }

  /** The digits are those of the number, in base ten and without a needless zero. */
  lemma {:induction false} DigitsRead(n: nat)
    ensures NumberOf(Digits(n)) == n && (forall c | c in Digits(n) :: '0' <= c <= '9')
    ensures Digits(n) != "" && (n > 0 ==> Digits(n)[0] != '0')
  {
    hide NumberOf;
    var front, d := if n < 10 then "" else Digits(n / 10), "0123456789"[n % 10];
    assert Digits(n) == front + [d];
    hide Digits;
    OneDigit(n % 10);
    NumberMore(front, d);
    NumberNothing();
    if n >= 10 {
      DigitsRead(n / 10);
      assert (front + [d])[0] == front[0];
    }
  }

  lemma NumberNothing()
    ensures NumberOf("") == 0
  {
  }

  predicate TextLess(a: Name, b: Name) {
    TextOrder.Less(TextOf(a), TextOf(b))
  }

  /** The releases to remove, in the order of their directories' names. */
  function InTextOrder(names: seq<Name>): seq<Name> {
    Sorting.Sort(names, TextLess)
  }

  lemma TextOrderHolds()
    ensures Sorting.WeakOrder(TextLess)
  {
    hide TextOrder.Less, TextOf;
    forall a, b ensures TextLess(a, b) ==> !TextLess(b, a) { TextOrder.LessIsTotal(TextOf(a), TextOf(b)); }
    forall a, b, c ensures !TextLess(b, a) && !TextLess(c, b) ==> !TextLess(c, a) {
      TextOrder.LessIsTotal(TextOf(a), TextOf(b));
      TextOrder.LessIsTotal(TextOf(b), TextOf(c));
      if TextLess(c, a) && TextLess(a, b) { TextOrder.LessChains(TextOf(c), TextOf(a), TextOf(b)); }
    }
  }

  lemma InTextOrderMembers(names: seq<Name>)
    ensures forall x :: x in InTextOrder(names) <==> x in names
    ensures NoRepeats(names) ==> NoRepeats(InTextOrder(names))
  {
    hide Sorting.Sort, TextLess, Sorting.WeakOrder;
    TextOrderHolds();
    Sorting.SortSorts(names, TextLess);
    var sorted := InTextOrder(names);
    assert forall x :: x in sorted <==> x in multiset(sorted);
    assert forall x :: x in names <==> x in multiset(names);
    if NoRepeats(names) {
      forall i, j | 0 <= i < j < |sorted| ensures sorted[i] != sorted[j] {
        CountsTwice(sorted, i, j);
        CountsOnce(names, sorted[i]);
      }
    }
  }

  /** Taking releases away and putting in order may be done in either order. */
  lemma {:induction false} OrderWithout(names: seq<Name>, gone: set<Name>)
    ensures Without(InTextOrder(names), gone) == InTextOrder(Without(names, gone))
  {
    if names != [] {
      hide TextLess, Sorting.Insert, Sorting.WeakOrder;
      OrderWithout(names[1..], gone);
      TextOrderHolds();
      Sorting.SortSorts(names[1..], TextLess);
      InsertWithout(names[0], InTextOrder(names[1..]), gone);
      var rest := Without(names[1..], gone);
      assert ([names[0]] + rest)[1..] == rest && [] + rest == rest;
    }
  }

  lemma {:induction false} InsertWithout(n: Name, s: seq<Name>, gone: set<Name>)
    requires Sorting.WeakOrder(TextLess) && Sorting.InOrder(s, TextLess)
    ensures Without(Sorting.Insert(n, s, TextLess), gone)
      == if n in gone then Without(s, gone) else Sorting.Insert(n, Without(s, gone), TextLess)
  {
    hide TextLess, Sorting.WeakOrder;
    if s != [] && TextLess(s[0], n) {
      InsertWithout(n, s[1..], gone);
      var rest := Sorting.Insert(n, s[1..], TextLess);
      assert ([s[0]] + rest)[1..] == rest;
      var w := Without(s[1..], gone);
      assert ([s[0]] + w)[1..] == w && [] + w == w;
      assert [] + Without(rest, gone) == Without(rest, gone);
    } else {
      assert ([n] + s)[1..] == s;
      assert [] + Without(s, gone) == Without(s, gone);
      NothingBefore(n, s, gone);
    }
  }

  lemma NothingBefore(n: Name, s: seq<Name>, gone: set<Name>)
    requires Sorting.WeakOrder(TextLess) && Sorting.InOrder(s, TextLess) && (s != [] ==> !TextLess(s[0], n))
    ensures Without(s, gone) != [] ==> !TextLess(Without(s, gone)[0], n)
  {
    hide TextLess, Sorting.WeakOrder;
    if Without(s, gone) != [] {
      WithoutMembers(s, gone);
      var x := Without(s, gone)[0];
      assert x in s;
      var k :| 0 <= k < |s| && s[k] == x;
      assert k > 0 ==> !TextLess(s[k], s[0]);
      Sorting.Chain(TextLess, n, s[0], x);
    }
  }

  function PlanFor(names: seq<Name>, rows: map<Name, Snapshot>, current: Option<Name>, unknown: bool,
                   inUse: set<Name>, keep: nat, now: int): Option<Plan> {
    if !Sound(names, rows, current, unknown, keep) then None
    else
      var vs := Sort(names);
      var kept := Retained(vs, rows, current.value, inUse, keep, now);
      Some(Plan(keep, current.value, rows, kept, InTextOrder(Without(vs, kept))))
  }

  // ---------- the plan in terms of version numbers ----------

  /** Numerically greater, by major, then minor, then patch number. */
  predicate Newer(a: Name, b: Name) {
    || a.major > b.major
    || (a.major == b.major && a.minor > b.minor)
    || (a.major == b.major && a.minor == b.minor && a.patch > b.patch)
  }

  /** Current, in use, or with nothing newer. */
  predicate Stands(names: seq<Name>, current: Name, inUse: set<Name>, n: Name) {
    n == current || n in inUse || forall m | m in names :: !Newer(m, n)
  }

  function Between(names: seq<Name>, high: Name, low: Name): set<Name> {
    set m | m in names && Newer(high, m) && Newer(m, low)
  }

  /** Among the `keep` greatest below a release that stands. */
  ghost predicate NextBelow(names: seq<Name>, current: Name, inUse: set<Name>, keep: nat, n: Name) {
    exists a | a in names ::
      Stands(names, current, inUse, a) && Newer(a, n) && |Between(names, a, n)| < keep
  }

  /** What `inventory` must refuse. */
  ghost predicate MustRefuse(names: seq<Name>, current: Option<Name>, unknown: bool, keep: nat) {
    || keep > 20 || unknown || current.None? || current.value !in names
    || exists a, b :: a in names && b in names && a.platform != b.platform
  }

  /** What a plan must be: which releases stay, that all others go, once each, in the order of their names. */
  ghost predicate Fits(names: seq<Name>, rows: map<Name, Snapshot>, current: Name, inUse: set<Name>, keep: nat,
                       now: int, plan: Plan)
    requires rows.Keys == set n | n in names
  {
    && plan.keep == keep && plan.current == current && plan.rows == rows
    && (forall n :: n in plan.retained <==>
          n in names && (Stands(names, current, inUse, n) || NextBelow(names, current, inUse, keep, n)
                         || now < rows[n].newest + 86400))
    && (forall n :: n in plan.remove <==> n in names && n !in plan.retained)
    && NoRepeats(plan.remove)
    && (forall i, j | 0 <= i < j < |plan.remove| :: !TextOrder.Less(TextOf(plan.remove[j]), TextOf(plan.remove[i])))
  }

  lemma NewerIsLess(a: Name, b: Name)
    ensures Newer(a, b) <==> Less(b, a)
  {
  }

  /** In an ascending listing the last is the one with nothing newer. */
  lemma LastIsNewest(names: seq<Name>, vs: seq<Name>, n: Name)
    requires Ascending(vs) && vs != [] && n in vs && forall x :: x in vs <==> x in names
    ensures n == vs[|vs| - 1] <==> forall m | m in names :: !Newer(m, n)
  {
    hide Less, Newer;
    var last := vs[|vs| - 1];
    assert last in vs;
    var i :| 0 <= i < |vs| && vs[i] == n;
    if i < |vs| - 1 {
      assert Less(vs[i], last);
      NewerIsLess(last, n);
      NeitherWay(n);
    } else {
      forall m | m in names ensures !Newer(m, n) {
        var j :| 0 <= j < |vs| && vs[j] == m;
        NewerIsLess(m, n);
        if j < i { OneWay(m, n); } else { NeitherWay(n); }
      }
    }
  }

  lemma NeitherWay(n: Name)
    ensures !Less(n, n)
  {
  }

  lemma OneWay(a: Name, b: Name)
    requires Less(a, b)
    ensures !Less(b, a)
  {
  }

  /** Places in an ascending listing are places by version. */
  lemma Placed(vs: seq<Name>, i: nat, j: nat)
    requires Ascending(vs) && i < |vs| && j < |vs|
    ensures Less(vs[j], vs[i]) <==> j < i
  {
    hide Less;
    if i < j { OneWay(vs[i], vs[j]); }
    if i == j { NeitherWay(vs[i]); }
  }

  lemma BetweenPlaces(names: seq<Name>, vs: seq<Name>, i: nat, j: nat)
    requires Ascending(vs) && j < i < |vs| && forall x :: x in vs <==> x in names
    ensures |Between(names, vs[i], vs[j])| == i - j - 1
  {
    hide Less, Newer;
    var between := vs[j + 1..i];
    forall m ensures m in Between(names, vs[i], vs[j]) <==> m in Elements(between) {
      NewerIsLess(vs[i], m);
      NewerIsLess(m, vs[j]);
      if m in names {
        var k :| 0 <= k < |vs| && vs[k] == m;
        Placed(vs, i, k);
        Placed(vs, k, j);
        if j < k < i { assert between[k - j - 1] == m; }
      }
      if m in between {
        var k :| 0 <= k < |between| && between[k] == m;
        assert vs[j + 1 + k] == m;
        Placed(vs, i, j + 1 + k);
        Placed(vs, j + 1 + k, j);
      }
    }
    assert Between(names, vs[i], vs[j]) == Elements(between);
    forall a, b | 0 <= a < b < |between| ensures between[a] != between[b] {
      Placed(vs, j + 1 + b, j + 1 + a);
      NeitherWay(between[a]);
    }
    SetSize(between);
  }

  lemma NearMeansNext(names: seq<Name>, vs: seq<Name>, current: Name, inUse: set<Name>, keep: nat, n: Name)
    requires Ascending(vs) && current in vs && n in vs && forall x :: x in vs <==> x in names
    ensures NextBelow(names, current, inUse, keep, n) <==>
      exists i | 0 <= i < |vs| :: IsAnchor(vs, current, inUse, vs[i]) && n in Before(vs, i, keep)
  {
    hide Less, Newer;
    forall a | a in vs ensures IsAnchor(vs, current, inUse, a) <==> Stands(names, current, inUse, a) {
      LastIsNewest(names, vs, a);
    }
    var j :| 0 <= j < |vs| && vs[j] == n;
    forall i | 0 <= i < |vs|
      ensures n in Before(vs, i, keep) <==> Newer(vs[i], n) && |Between(names, vs[i], n)| < keep {
      NewerIsLess(vs[i], n);
      Placed(vs, i, j);
      if j < i { BetweenPlaces(names, vs, i, j); }
      BeforeAt(vs, i, keep, j);
    }
    if NextBelow(names, current, inUse, keep, n) {
      var a :| a in names && Stands(names, current, inUse, a) && Newer(a, n) && |Between(names, a, n)| < keep;
      var i :| 0 <= i < |vs| && vs[i] == a;
      assert IsAnchor(vs, current, inUse, vs[i]) && n in Before(vs, i, keep);
    }
  }

  lemma BeforeAt(vs: seq<Name>, i: nat, keep: nat, j: nat)
    requires Ascending(vs) && i < |vs| && j < |vs|
    ensures vs[j] in Before(vs, i, keep) <==> j < i <= j + keep
  {
    hide Less;
    var start := if i < keep then 0 else i - keep;
    if vs[j] in vs[start..i] {
      var k :| 0 <= k < i - start && vs[start..i][k] == vs[j];
      assert vs[start + k] == vs[j];
      Placed(vs, start + k, j);
      Placed(vs, j, start + k);
      NeitherWay(vs[j]);
    }
    if start <= j < i { assert vs[start..i][j - start] == vs[j]; }
  }

  /** The plan refuses exactly what it must, and otherwise keeps and removes what the version numbers say. */
  lemma PlanMeans(names: seq<Name>, rows: map<Name, Snapshot>, current: Option<Name>, unknown: bool, inUse: set<Name>,
                  keep: nat, now: int)
    requires Listing(names, rows)
    ensures var plan := PlanFor(names, rows, current, unknown, inUse, keep, now);
      && (plan.None? <==> MustRefuse(names, current, unknown, keep))
      && (plan.Some? ==> Fits(names, rows, current.value, inUse, keep, now, plan.value))
  {
    hide Sort, Without, InTextOrder, Before, Less, Newer, Stands, NextBelow, IsAnchor, TextOrder.Less, TextOf;
    if PlanFor(names, rows, current, unknown, inUse, keep, now).Some? {
      var plan := PlanFor(names, rows, current, unknown, inUse, keep, now).value;
      var vs := Sort(names);
      SortSorts(names);
      WithoutMembers(vs, plan.retained);
      RetainedMeans(names, rows, current.value, inUse, keep, now);
      RemovesInOrder(vs, plan.retained);
    }
  }

  lemma RetainedMeans(names: seq<Name>, rows: map<Name, Snapshot>, current: Name, inUse: set<Name>, keep: nat, now: int)
    requires Listing(names, rows) && OnePlatform(names) && current in names
    ensures forall n :: n in Retained(Sort(names), rows, current, inUse, keep, now) <==>
      n in names && (Stands(names, current, inUse, n) || NextBelow(names, current, inUse, keep, n)
                     || now < rows[n].newest + 86400)
  {
    hide Sort, Before, Less, Newer, NextBelow;
    var vs := Sort(names);
    SortSorts(names);
    forall n ensures n in Retained(vs, rows, current, inUse, keep, now) <==>
        n in names && (Stands(names, current, inUse, n) || NextBelow(names, current, inUse, keep, n)
                       || now < rows[n].newest + 86400) {
      if n in names {
        LastIsNewest(names, vs, n);
        NearMeansNext(names, vs, current, inUse, keep, n);
      }
    }
  }

  lemma RemovesInOrder(vs: seq<Name>, kept: set<Name>)
    requires Ascending(vs)
    ensures var remove := InTextOrder(Without(vs, kept));
      && NoRepeats(remove) && (forall n :: n in remove <==> n in vs && n !in kept)
      && forall i, j | 0 <= i < j < |remove| :: !TextOrder.Less(TextOf(remove[j]), TextOf(remove[i]))
  {
    hide Sorting.Sort, Sorting.WeakOrder, TextOrder.Less, TextOf, Less;
    var left := Without(vs, kept);
    WithoutMembers(vs, kept);
    WithoutAscending(vs, kept);
    forall i, j | 0 <= i < j < |left| ensures left[i] != left[j] {
      assert Less(left[i], left[j]);
      NeitherWay(left[i]);
    }
    InTextOrderMembers(left);
    TextOrderHolds();
    Sorting.SortSorts(left, TextLess);
    var remove := InTextOrder(left);
    forall i, j | 0 <= i < j < |remove| ensures !TextOrder.Less(TextOf(remove[j]), TextOf(remove[i])) {
      assert !TextLess(remove[j], remove[i]);
    }
  }

  lemma PrefixStep(vs: seq<Name>, i: nat)
    requires i < |vs|
    ensures forall n :: n in vs[..i + 1] <==> n in vs[..i] || n == vs[i]
  {
    assert vs[..i + 1] == vs[..i] + [vs[i]];
  }

  method AnchorPass(vs: seq<Name>, current: Name, inUse: set<Name>) returns (anchors: set<Name>)
    requires current in vs
    ensures forall n :: n in anchors <==> IsAnchor(vs, current, inUse, n)
  {
    anchors := {current, vs[|vs| - 1]};
    for i := 0 to |vs|
      invariant forall n :: n in anchors <==> n == current || n == vs[|vs| - 1] || (n in inUse && n in vs[..i])
    {
      if vs[i] in inUse { anchors := anchors + {vs[i]}; }
      PrefixStep(vs, i);
    }
    assert vs[..|vs|] == vs;
  }

  /** Some anchor outside `todo` has `n` among the few before it. */
  ghost predicate NearAnchor(vs: seq<Name>, anchors: set<Name>, todo: set<Name>, keep: nat, n: Name) {
    exists i | 0 <= i < |vs| :: vs[i] in anchors && vs[i] !in todo && n in Before(vs, i, keep)
  }

  lemma NearStep(vs: seq<Name>, anchors: set<Name>, todo: set<Name>, keep: nat, n: Name, index: nat)
    requires Ascending(vs) && index < |vs| && vs[index] in todo && todo <= anchors
    ensures NearAnchor(vs, anchors, todo - {vs[index]}, keep, n)
      <==> NearAnchor(vs, anchors, todo, keep, n) || n in Before(vs, index, keep)
  {
    hide Before;
    if NearAnchor(vs, anchors, todo - {vs[index]}, keep, n) {
      var i :| 0 <= i < |vs| && vs[i] in anchors && vs[i] !in todo - {vs[index]} && n in Before(vs, i, keep);
      if vs[i] == vs[index] { AscendingPlace(vs, i, index); }
    }
  }

  method BeforePass(vs: seq<Name>, anchors: set<Name>, keep: nat) returns (retained: set<Name>)
    requires Ascending(vs) && forall n | n in anchors :: n in vs
    ensures forall n :: n in retained <==> n in anchors || NearAnchor(vs, anchors, {}, keep, n)
  {
    hide Before, NearAnchor;
    retained := anchors;
    var todo := anchors;
    NearNothing(vs, anchors, keep);
    while todo != {}
      invariant todo <= anchors
      invariant forall n :: n in retained <==> n in anchors || NearAnchor(vs, anchors, todo, keep, n)
      decreases todo
    {
      var anchor :| anchor in todo;
      var index := IndexOf(vs, anchor);
      forall n { NearStep(vs, anchors, todo, keep, n, index); }
      retained := retained + (set n | n in Before(vs, index, keep));
      todo := todo - {anchor};
    }
  }

  lemma NearNothing(vs: seq<Name>, anchors: set<Name>, keep: nat)
    ensures forall n :: !NearAnchor(vs, anchors, anchors, keep, n)
  {
    hide Before;
  }

  /** `inventory`'s three passes: the anchors, the few before each, the young. */
  method Inventory(names: seq<Name>, rows: map<Name, Snapshot>, current: Option<Name>, unknown: bool,
                   inUse: set<Name>, keep: nat, now: int) returns (plan: Option<Plan>)
    requires Listing(names, rows)
    ensures plan == PlanFor(names, rows, current, unknown, inUse, keep, now)
    ensures plan.None? <==> MustRefuse(names, current, unknown, keep)
    ensures plan.Some? ==> Fits(names, rows, current.value, inUse, keep, now, plan.value)
  {
    hide Fits, MustRefuse;
    PlanMeans(names, rows, current, unknown, inUse, keep, now);
    hide Sort, Without, InTextOrder, Before, Retained, NearAnchor, IsAnchor, Young;
    if !Sound(names, rows, current, unknown, keep) { return None; }
    var vs := Sort(names);
    SortSorts(names);
    assert current.value in vs;
    var anchors := AnchorPass(vs, current.value, inUse);
    AnchorsListed(vs, current.value, inUse, anchors);
    var retained := BeforePass(vs, anchors, keep);
    ghost var middle := retained;
    for i := 0 to |vs|
      invariant forall n :: n in retained <==> n in middle || (n in vs[..i] && now - rows[n].newest < MIN_AGE)
    {
      PrefixStep(vs, i);
      if now - rows[vs[i]].newest < MIN_AGE { retained := retained + {vs[i]}; }
    }
    assert vs[..|vs|] == vs;
    RetainedIs(vs, rows, current.value, inUse, keep, now, anchors, middle, retained);
    return Some(Plan(keep, current.value, rows, retained, InTextOrder(Without(vs, retained))));
  }

  lemma AnchorsListed(vs: seq<Name>, current: Name, inUse: set<Name>, anchors: set<Name>)
    requires forall n :: n in anchors <==> IsAnchor(vs, current, inUse, n)
    ensures forall n | n in anchors :: n in vs
  {
  }

  lemma RetainedIs(vs: seq<Name>, rows: map<Name, Snapshot>, current: Name, inUse: set<Name>, keep: nat, now: int,
                   anchors: set<Name>, middle: set<Name>, retained: set<Name>)
    requires vs != [] && forall n :: n in anchors <==> IsAnchor(vs, current, inUse, n)
    requires forall n | n in vs :: n in rows
    requires forall n :: n in middle <==> n in anchors || NearAnchor(vs, anchors, {}, keep, n)
    requires forall n :: n in retained <==> n in middle || (n in vs && now - rows[n].newest < MIN_AGE)
    ensures retained == Retained(vs, rows, current, inUse, keep, now)
  {
    hide IsAnchor;
    AnchorsListed(vs, current, inUse, anchors);
    forall n ensures n in retained <==> n in Retained(vs, rows, current, inUse, keep, now) {
      if IsRetained(vs, rows, current, inUse, keep, now, n) && !IsAnchor(vs, current, inUse, n)
        && !Young(rows, now, n) {
        var i :| 0 <= i < |vs| && IsAnchor(vs, current, inUse, vs[i]) && n in Before(vs, i, keep);
        assert vs[i] in anchors;
      }
    }
  }

  // ---------- planning again ----------

  /** After any part of a plan is carried out, the plan of what is left keeps the same releases
      and removes exactly the rest of the plan; after all of it there is nothing to remove. */
  lemma PlanAgain(names: seq<Name>, rows: map<Name, Snapshot>, current: Name, inUse: set<Name>, keep: nat, now: int,
                  gone: set<Name>, left: seq<Name>)
    requires Listing(names, rows) && Sound(names, rows, Some(current), false, keep)
    requires var plan := PlanFor(names, rows, Some(current), false, inUse, keep, now).value;
      gone <= set n | n in plan.remove
    requires NoRepeats(left) && forall n :: n in left <==> n in names && n !in gone
    ensures var plan := PlanFor(names, rows, Some(current), false, inUse, keep, now).value;
      var again := PlanFor(left, rows - gone, Some(current), false, inUse, keep, now);
      && again.Some? && again.value.retained == plan.retained
      && again.value.remove == Without(plan.remove, gone)
  {
    hide Sort, Retained, Without, InTextOrder;
    var plan := PlanFor(names, rows, Some(current), false, inUse, keep, now).value;
    var vs := Sort(names);
    SortSorts(names);
    WithoutMembers(vs, plan.retained);
    InTextOrderMembers(Without(vs, plan.retained));
    OrderWithout(Without(vs, plan.retained), gone);
    RetainedMembers(vs, rows, current, inUse, keep, now);
    assert gone !! plan.retained;
    RetainedStable(vs, rows, current, inUse, keep, now, gone);
    LeftOnePlatform(names, left);
    SortSorts(left);
    WithoutMembers(vs, gone);
    WithoutAscending(vs, gone);
    AscendingIsUnique(Sort(left), Without(vs, gone));
    RowsShrink(Without(vs, gone), rows, gone, current, inUse, keep, now);
    WithoutSwap(vs, gone, plan.retained);
  }

  lemma RetainedMembers(vs: seq<Name>, rows: map<Name, Snapshot>, current: Name, inUse: set<Name>, keep: nat, now: int)
    requires current in vs
    ensures current in Retained(vs, rows, current, inUse, keep, now)
    ensures Retained(vs, rows, current, inUse, keep, now) <= set n | n in vs
  {
    assert IsAnchor(vs, current, inUse, current);
  }

  lemma LeftOnePlatform(names: seq<Name>, left: seq<Name>)
    requires OnePlatform(names) && forall n | n in left :: n in names
    ensures OnePlatform(left)
  {
    forall i, j | 0 <= i < j < |left| ensures left[i].platform == left[j].platform {
      assert left[i] in names && left[j] in names;
      var a :| 0 <= a < |names| && names[a] == left[i];
      var b :| 0 <= b < |names| && names[b] == left[j];
    }
  }

  lemma RowsShrink(ws: seq<Name>, rows: map<Name, Snapshot>, gone: set<Name>, current: Name, inUse: set<Name>,
                   keep: nat, now: int)
    requires forall n | n in ws :: n !in gone
    ensures Retained(ws, rows - gone, current, inUse, keep, now) == Retained(ws, rows, current, inUse, keep, now)
  {
    hide Before;
    forall n | n in ws ensures Young(rows - gone, now, n) == Young(rows, now, n) { }
  }

  lemma {:induction false} WithoutSwap(vs: seq<Name>, a: set<Name>, b: set<Name>)
    ensures Without(Without(vs, a), b) == Without(Without(vs, b), a)
  {
    if vs != [] {
      WithoutSwap(vs[1..], a, b);
      var x := Without(vs[1..], a);
      var y := Without(vs[1..], b);
      assert ([vs[0]] + x)[1..] == x && ([vs[0]] + y)[1..] == y;
      assert [] + x == x && [] + y == y;
    } else {
      assert Without(vs, a) == [] && Without(vs, b) == [];
    }
  }

  /** Carrying out the whole plan leaves nothing to remove. */
  lemma PlanDone(names: seq<Name>, rows: map<Name, Snapshot>, current: Name, inUse: set<Name>, keep: nat, now: int,
                 left: seq<Name>)
    requires Listing(names, rows) && Sound(names, rows, Some(current), false, keep)
    requires var plan := PlanFor(names, rows, Some(current), false, inUse, keep, now).value;
      NoRepeats(left) && forall n :: n in left <==> n in names && n !in plan.remove
    ensures var plan := PlanFor(names, rows, Some(current), false, inUse, keep, now).value;
      var again := PlanFor(left, rows - (set n | n in plan.remove), Some(current), false, inUse, keep, now);
      again.Some? && again.value.remove == [] && again.value.retained == plan.retained
  {
    hide Sort, Retained, InTextOrder;
    var plan := PlanFor(names, rows, Some(current), false, inUse, keep, now).value;
    var gone := set n | n in plan.remove;
    PlanAgain(names, rows, current, inUse, keep, now, gone, left);
    WithoutAll(plan.remove, gone);
  }

  lemma {:induction false} WithoutAll(vs: seq<Name>, gone: set<Name>)
    requires forall n | n in vs :: n in gone
    ensures Without(vs, gone) == []
  {
    if vs != [] {
      assert vs[0] in vs;
      assert forall n | n in vs[1..] :: n in vs;
      WithoutAll(vs[1..], gone);
    }
  }
}
