/** What it means to keep some elements of a sequence: each position once, in order.
    The filters of the other modules are stated in these terms. */
module Selections {
  ghost predicate Increasing(at: seq<nat>) { forall i, j :: 0 <= i < j < |at| ==> at[i] < at[j] }

  /** t holds the elements of s at the positions `at`. */
  ghost predicate Picks<T>(s: seq<T>, t: seq<T>, at: seq<nat>) {
    |at| == |t| && Increasing(at) && forall k :: 0 <= k < |at| ==> at[k] < |s| && t[k] == s[at[k]]
  }

  /** The positions are exactly those whose element has the property. */
  ghost predicate Covers<T>(s: seq<T>, p: T -> bool, at: seq<nat>) {
    forall i: nat :: i < |s| ==> (i in at <==> p(s[i]))
  }

  ghost predicate Subsequence<T>(t: seq<T>, s: seq<T>) { exists at :: Picks(s, t, at) }

  ghost predicate Selects<T>(s: seq<T>, t: seq<T>, p: T -> bool) { exists at :: Picks(s, t, at) && Covers(s, p, at) }

  predicate AllDiffer<T(==)>(s: seq<T>) { forall i, j :: 0 <= i < j < |s| ==> s[i] != s[j] }

  // ----- one element more -----

  lemma SelectsNone<T>(p: T -> bool)
    ensures Selects([], [], p)
  {
    assert Picks<T>([], [], []) && Covers([], p, []);
  }

  lemma PicksSnoc<T>(s: seq<T>, t: seq<T>, at: seq<nat>, x: T)
    requires Picks(s, t, at)
    ensures Picks(s + [x], t, at) && Picks(s + [x], t + [x], at + [|s|])
  {
  }

  lemma CoversSnoc<T>(s: seq<T>, p: T -> bool, at: seq<nat>, x: T)
    requires Covers(s, p, at) && forall k :: 0 <= k < |at| ==> at[k] < |s|
    ensures Covers(s + [x], p, if p(x) then at + [|s|] else at)
  {
    var u := s + [x];
    var next := if p(x) then at + [|s|] else at;
    forall i: nat | i < |u| ensures i in next <==> p(u[i]) {
      if i < |s| { assert u[i] == s[i] && (i in next <==> i in at); } else { assert u[i] == x; }
    }
  }

  lemma SelectsSnoc<T>(s: seq<T>, t: seq<T>, p: T -> bool, x: T)
    requires Selects(s, t, p)
    ensures p(x) ==> Selects(s + [x], t + [x], p)
    ensures !p(x) ==> Selects(s + [x], t, p)
  {
    var at :| Picks(s, t, at) && Covers(s, p, at);
    PicksSnoc(s, t, at, x);
    CoversSnoc(s, p, at, x);
  }

  lemma SelectsNext<T>(s: seq<T>, t: seq<T>, p: T -> bool, x: T, s': seq<T>, t': seq<T>)
    requires Selects(s, t, p) && s' == s + [x] && t' == t + (if p(x) then [x] else [])
    ensures Selects(s', t', p)
  {
    SelectsSnoc(s, t, p, x);
    if !p(x) { assert t' == t; }
  }

  /** All positions one further. */
  function Moved(at: seq<nat>): (r: seq<nat>)
    ensures |r| == |at| && forall k :: 0 <= k < |at| ==> r[k] == at[k] + 1
  {
    seq(|at|, k requires 0 <= k < |at| => at[k] + 1)
  }

  lemma MovedHas(at: seq<nat>, i: nat)
    ensures i in Moved(at) <==> i > 0 && i - 1 in at
  {
    if i > 0 && i - 1 in at {
      var k :| 0 <= k < |at| && at[k] == i - 1;
      assert Moved(at)[k] == i;
    }
  }

  lemma PicksCons<T>(x: T, s: seq<T>, t: seq<T>, at: seq<nat>)
    requires Picks(s, t, at)
    ensures Picks([x] + s, t, Moved(at)) && Picks([x] + s, [x] + t, [0] + Moved(at))
  {
  }

  lemma CoversCons<T>(x: T, s: seq<T>, p: T -> bool, at: seq<nat>)
    requires Covers(s, p, at)
    ensures Covers([x] + s, p, if p(x) then [0] + Moved(at) else Moved(at))
  {
    var u := [x] + s;
    forall i: nat | i < |u| ensures i in (if p(x) then [0] + Moved(at) else Moved(at)) <==> p(u[i]) {
      MovedHas(at, i);
      if i > 0 { assert u[i] == s[i - 1]; }
    }
  }

  lemma SelectsCons<T>(x: T, s: seq<T>, t: seq<T>, p: T -> bool)
    requires Selects(s, t, p)
    ensures p(x) ==> Selects([x] + s, [x] + t, p)
    ensures !p(x) ==> Selects([x] + s, t, p)
  {
    var at :| Picks(s, t, at) && Covers(s, p, at);
    PicksCons(x, s, t, at);
    CoversCons(x, s, p, at);
  }

  // ----- what a selection determines -----

  lemma PickedHas<T>(s: seq<T>, t: seq<T>, at: seq<nat>, i: nat)
    requires Picks(s, t, at) && i in at
    ensures i < |s| && s[i] in t
  {
    var k :| 0 <= k < |at| && at[k] == i;
    assert t[k] == s[i];
  }

  lemma PickedFrom<T>(s: seq<T>, t: seq<T>, p: T -> bool, at: seq<nat>, k: nat)
    requires Picks(s, t, at) && Covers(s, p, at) && k < |t|
    ensures t[k] in s && p(t[k])
  {
    assert at[k] in at;
  }

  lemma SelectedMembers<T>(s: seq<T>, t: seq<T>, p: T -> bool)
    requires Selects(s, t, p)
    ensures forall i :: 0 <= i < |s| && p(s[i]) ==> s[i] in t
    ensures forall k :: 0 <= k < |t| ==> t[k] in s && p(t[k])
    ensures Subsequence(t, s)
  {
    var at :| Picks(s, t, at) && Covers(s, p, at);
    forall i: nat | i < |s| && p(s[i]) ensures s[i] in t { PickedHas(s, t, at, i); }
    forall k: nat | k < |t| ensures t[k] in s && p(t[k]) { PickedFrom(s, t, p, at, k); }
  }

  lemma SubsequenceDiffers<T>(t: seq<T>, s: seq<T>)
    requires Subsequence(t, s) && AllDiffer(s)
    ensures AllDiffer(t)
  {
  }

  lemma InitHas(at: seq<nat>, i: nat)
    requires at != [] && Increasing(at)
    ensures i in at[..|at| - 1] <==> i in at && i != at[|at| - 1]
  {
    var n := |at| - 1;
    if i in at && i != at[n] {
      var k :| 0 <= k < |at| && at[k] == i;
      assert at[..n][k] == i;
    }
    if i in at[..n] {
      var k :| 0 <= k < n && at[..n][k] == i;
      assert at[k] < at[n];
    }
  }

  lemma LastIn(a: seq<nat>, b: seq<nat>)
    requires a != [] && Increasing(b) && Increasing(a) && forall i :: i in a <==> i in b
    ensures b != [] && a[|a| - 1] <= b[|b| - 1]
  {
    var n := a[|a| - 1];
    assert n in a && n in b;
    var k :| 0 <= k < |b| && b[k] == n;
    if k < |b| - 1 { assert b[k] < b[|b| - 1]; }
  }

  lemma {:induction false} SamePositions(a: seq<nat>, b: seq<nat>)
    requires Increasing(a) && Increasing(b) && forall i :: i in a <==> i in b
    ensures a == b
    decreases |a|
  {
    if a != [] { LastIn(a, b); }
    if b != [] { LastIn(b, a); }
    if a != [] {
      var c, d := a[..|a| - 1], b[..|b| - 1];
      forall i: nat ensures i in c <==> i in d {
        InitHas(a, i);
        InitHas(b, i);
      }
      SamePositions(c, d);
      assert a == a[..|a| - 1] + [a[|a| - 1]] && b == b[..|b| - 1] + [b[|b| - 1]];
    }
  }

  lemma PositionsAgree<T>(s: seq<T>, t: seq<T>, u: seq<T>, p: T -> bool, a: seq<nat>, b: seq<nat>)
    requires Picks(s, t, a) && Picks(s, u, b) && Covers(s, p, a) && Covers(s, p, b)
    ensures a == b
  {
    forall i: nat ensures i in a <==> i in b {
      if i < |s| {
        assert (i in a <==> p(s[i])) && (i in b <==> p(s[i]));
      } else {
        assert i !in a && i !in b;
      }
    }
    SamePositions(a, b);
  }

  /** There is only one. */
  lemma SelectionIsUnique<T>(s: seq<T>, t: seq<T>, u: seq<T>, p: T -> bool)
    requires Selects(s, t, p) && Selects(s, u, p)
    ensures t == u
  {
    var a :| Picks(s, t, a) && Covers(s, p, a);
    var b :| Picks(s, u, b) && Covers(s, p, b);
    PositionsAgree(s, t, u, p, a, b);
    assert forall k :: 0 <= k < |t| ==> t[k] == s[a[k]] == u[k];
  }

  // ----- counting -----

  function Filter<T>(s: seq<T>, p: T -> bool): seq<T> {
    if s == [] then [] else Filter(s[..|s| - 1], p) + if p(s[|s| - 1]) then [s[|s| - 1]] else []
  }

  lemma {:induction false} FilterSelects<T>(s: seq<T>, p: T -> bool)
    ensures Selects(s, Filter(s, p), p)
    decreases |s|
  {
    if s == [] {
      SelectsNone(p);
    } else {
      var init, x := s[..|s| - 1], s[|s| - 1];
      FilterSelects(init, p);
      FilterNext(s, init, x, p, Filter(init, p));
    }
  }

  lemma FilterNext<T>(s: seq<T>, init: seq<T>, x: T, p: T -> bool, t: seq<T>)
    requires s == init + [x] && t == Filter(init, p) && Selects(init, t, p)
    ensures Selects(s, Filter(s, p), p)
  {
    SelectsSnoc(init, t, p, x);
    assert s[..|s| - 1] == init && s[|s| - 1] == x;
    if !p(x) { assert t + [] == t; }
  }

  lemma {:induction false} FilterMultiset<T>(s: seq<T>, p: T -> bool, x: T)
    ensures multiset(Filter(s, p))[x] == if p(x) then multiset(s)[x] else 0
    decreases |s|
  {
    if s != [] {
      FilterMultiset(s[..|s| - 1], p, x);
      assert s == s[..|s| - 1] + [s[|s| - 1]];
    }
  }

  function Positions<T>(s: seq<T>, p: T -> bool): set<nat> { set i: nat | i < |s| && p(s[i]) }

  lemma PositionsSnoc<T>(s: seq<T>, x: T, p: T -> bool)
    ensures |Positions(s + [x], p)| == |Positions(s, p)| + if p(x) then 1 else 0
  {
    var u, n := s + [x], |s|;
    assert u[n] == x;
    forall i: nat ensures i in Positions(u, p) <==> i in Positions(s, p) || (i == n && p(x)) {
      if i < n { assert u[i] == s[i]; }
    }
    if p(x) { assert Positions(u, p) == Positions(s, p) + {n}; } else { assert Positions(u, p) == Positions(s, p); }
  }

  lemma {:induction false} FilterSize<T>(s: seq<T>, p: T -> bool)
    ensures |Filter(s, p)| == |Positions(s, p)|
    decreases |s|
  {
    if s != [] {
      var init, x := s[..|s| - 1], s[|s| - 1];
      FilterSize(init, p);
      PositionsSnoc(init, x, p);
      assert s == init + [x];
    }
  }

  /** Each element with the property is kept as often as it occurs, no other is, and
      there are as many as positions with the property. */
  lemma SelectionCounts<T>(s: seq<T>, t: seq<T>, p: T -> bool)
    requires Selects(s, t, p)
    ensures forall x :: multiset(t)[x] == if p(x) then multiset(s)[x] else 0
    ensures |t| == |Positions(s, p)|
  {
    FilterSelects(s, p);
    SelectionIsUnique(s, t, Filter(s, p), p);
    forall x ensures multiset(t)[x] == if p(x) then multiset(s)[x] else 0 { FilterMultiset(s, p, x); }
    FilterSize(s, p);
  }
}
