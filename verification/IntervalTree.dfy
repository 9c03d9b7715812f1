/** The interval tree that indexes MCAP chunks by time. */
module IntervalTree {

  const TWO64: nat := 0x1_0000_0000_0000_0000

  type Scalar = x: nat | x < TWO64

  datatype Interval<+V> = Interval(start: Scalar, stop: Scalar, value: V)

  function MakeInterval<V>(s: Scalar, e: Scalar, v: V): (i: Interval<V>)
    ensures Proper(i) && {i.start, i.stop} == {s, e}
  {
    if s <= e then Interval(s, e, v) else Interval(e, s, v)
  }

  /** Nil is a missing child. */
  datatype Tree<V> = Nil | Node(intervals: seq<Interval<V>>, left: Tree<V>, right: Tree<V>, center: Scalar)

  predicate Proper<V>(i: Interval<V>) { i.start <= i.stop }

  ghost predicate AllProper<V>(s: seq<Interval<V>>) {
    forall k :: 0 <= k < |s| ==> Proper(s[k])
  }

  predicate Sorted<V>(s: seq<Interval<V>>) {
    forall i, j :: 0 <= i < j < |s| ==> s[i].start <= s[j].start
  }

  /** The conditions the code tests an interval for. */
  datatype Test =
    | Before(c: Scalar)
    | After(c: Scalar)
    | Across(c: Scalar)
    | Overlapping(lo: Scalar, hi: Scalar)
    | Within(lo: Scalar, hi: Scalar)

  predicate Passes<V>(i: Interval<V>, t: Test) {
    match t
    case Before(c) => i.stop < c
    case After(c) => !(i.stop < c) && i.start > c
    case Across(c) => !(i.stop < c) && !(i.start > c)
    case Overlapping(lo, hi) => i.stop >= lo && i.start <= hi
    case Within(lo, hi) => lo <= i.start && i.stop <= hi
  }

  /** What the queries ask for, said of points: an interval overlaps a range if they share one, and lies within it
      if all of its points do. */
  lemma QueriesMean<V>(i: Interval<V>, lo: Scalar, hi: Scalar)
    requires Proper(i) && lo <= hi
    ensures Passes(i, Overlapping(lo, hi)) <==> exists x: nat :: IsIn(x, lo, hi) && IsIn(x, i.start, i.stop)
    ensures Passes(i, Within(lo, hi)) <==> forall x: nat :: IsIn(x, i.start, i.stop) ==> IsIn(x, lo, hi)
  {
    if Passes(i, Overlapping(lo, hi)) {
      var x := if lo <= i.start then i.start else lo;
      assert IsIn(x, lo, hi) && IsIn(x, i.start, i.stop);
    }
    assert IsIn(i.start, i.start, i.stop) && IsIn(i.stop, i.start, i.stop);
  }

  predicate IsIn(x: nat, lo: nat, hi: nat) { lo <= x <= hi }

  /** The linear scan. */
  function Filter<V>(s: seq<Interval<V>>, t: Test): seq<Interval<V>> {
    if s == [] then [] else (if Passes(s[0], t) then [s[0]] else []) + Filter(s[1..], t)
  }

  lemma {:induction false} FilterConcat<V>(a: seq<Interval<V>>, b: seq<Interval<V>>, t: Test)
    ensures Filter(a + b, t) == Filter(a, t) + Filter(b, t)
  {
    hide Passes;
    if a == [] {
      assert a + b == b;
    } else {
      var head := if Passes(a[0], t) then [a[0]] else [];
      assert (a + b)[0] == a[0] && (a + b)[1..] == a[1..] + b;
      FilterConcat(a[1..], b, t);
      assert Filter(a + b, t) == head + (Filter(a[1..], t) + Filter(b, t));
      assert Filter(a, t) == head + Filter(a[1..], t);
    }
  }

  lemma {:induction false} FilterNone<V>(s: seq<Interval<V>>, t: Test)
    requires forall k :: 0 <= k < |s| ==> !Passes(s[k], t)
    ensures Filter(s, t) == []
  {
    if s != [] {
      FilterNone(s[1..], t);
    }
  }

  lemma {:induction false} FilterMember<V>(s: seq<Interval<V>>, t: Test, i: Interval<V>)
    ensures i in Filter(s, t) <==> i in s && Passes(i, t)
  {
    if s != [] {
      FilterMember(s[1..], t, i);
      assert s == [s[0]] + s[1..];
    }
  }

  lemma {:induction false} FilterSorted<V>(s: seq<Interval<V>>, t: Test)
    requires Sorted(s)
    ensures Sorted(Filter(s, t))
  {
    if s != [] {
      FilterSorted(s[1..], t);
      var rest := Filter(s[1..], t);
      forall k | 0 <= k < |rest| ensures s[0].start <= rest[k].start {
        FilterMember(s[1..], t, rest[k]);
        var j :| 0 <= j < |s[1..]| && s[1..][j] == rest[k];
        assert s[j + 1] == rest[k];
      }
    }
  }

  /** Every interval lies before, after or across the center, and in only one of the three. */
  lemma {:induction false} FilterPartition<V>(s: seq<Interval<V>>, c: Scalar)
    ensures multiset(s) == multiset(Filter(s, Before(c))) + multiset(Filter(s, Across(c))) +
            multiset(Filter(s, After(c)))
  {
    if s != [] {
      FilterPartition(s[1..], c);
      assert s == [s[0]] + s[1..];
    }
  }

  // ----- what a tree stands for -----

  /** visit_all: left subtree, own intervals, right subtree. */
  function All<V>(t: Tree<V>): seq<Interval<V>> {
    match t
    case Nil => []
    case Node(intervals, left, right, _) => All(left) + intervals + All(right)
  }

  ghost predicate AllPass<V>(s: seq<Interval<V>>, t: Test) {
    forall k :: 0 <= k < |s| ==> Passes(s[k], t)
  }

  ghost predicate WellFormed<V>(t: Tree<V>) {
    match t
    case Nil => true
    case Node(intervals, left, right, center) =>
      && Sorted(intervals) && AllProper(intervals)
      && WellFormed(left) && AllPass(All(left), Before(center)) && (left.Node? ==> All(left) != [])
      && WellFormed(right) && AllPass(All(right), After(center)) && (right.Node? ==> All(right) != [])
  }

  lemma {:induction false} WellFormedProper<V>(t: Tree<V>)
    requires WellFormed(t)
    ensures AllProper(All(t))
  {
    if t.Node? {
      WellFormedProper(t.left);
      WellFormedProper(t.right);
    }
  }

  // ----- searching -----

  /** What visit_near calls its function on, in order. */
  function Near<V>(t: Tree<V>, start: Scalar, stop: Scalar): seq<Interval<V>> {
    match t
    case Nil => []
    case Node(intervals, left, right, center) =>
      (if intervals != [] && !(stop < intervals[0].start) then intervals else [])
      + (if left.Node? && start <= center then Near(left, start, stop) else [])
      + (if right.Node? && stop >= center then Near(right, start, stop) else [])
  }

  ghost predicate IsQuery(q: Test, start: Scalar, stop: Scalar) {
    q == Overlapping(start, stop) || q == Within(start, stop)
  }

  /** The pruning drops nothing that the query asks for. */
  lemma {:induction false} SearchIsScan<V>(t: Tree<V>, q: Test, start: Scalar, stop: Scalar)
    requires WellFormed(t) && IsQuery(q, start, stop)
    ensures Same(Filter(Near(t, start, stop), q), Filter(All(t), q))
  {
    hide Passes, Sorted, Filter, AllPass, AllProper, Near, All, WellFormed, IsQuery;
    if t.Node? {
      Unfold(t, start, stop);
      SearchIsScan(t.left, q, start, stop);
      SearchIsScan(t.right, q, start, stop);
      var own := if t.intervals != [] && !(stop < t.intervals[0].start) then t.intervals else [];
      var l := if t.left.Node? && start <= t.center then Near(t.left, start, stop) else [];
      var r := if t.right.Node? && stop >= t.center then Near(t.right, start, stop) else [];
      assert Filter<V>([], q) == [] by { FilterNone<V>([], q); }
      assert Same(Filter(own, q), Filter(t.intervals, q)) by { OwnPruned(t.intervals, q, start, stop); }
      assert Same(Filter(l, q), Filter(All(t.left), q)) by { LeftPruned(t.left, t.center, q, start, stop); }
      assert Same(Filter(r, q), Filter(All(t.right), q)) by { RightPruned(t.right, t.center, q, start, stop); }
      NodeIsScan(own, l, r, All(t.left), t.intervals, All(t.right), q);
    } else {
      UnfoldNil(t, start, stop);
    }
  }

  lemma Unfold<V>(t: Tree<V>, start: Scalar, stop: Scalar)
    requires t.Node? && WellFormed(t)
    ensures Near(t, start, stop) ==
            (if t.intervals != [] && !(stop < t.intervals[0].start) then t.intervals else [])
            + (if t.left.Node? && start <= t.center then Near(t.left, start, stop) else [])
            + (if t.right.Node? && stop >= t.center then Near(t.right, start, stop) else [])
    ensures All(t) == All(t.left) + t.intervals + All(t.right)
    ensures WellFormed(t.left) && AllPass(All(t.left), Before(t.center))
    ensures WellFormed(t.right) && AllPass(All(t.right), After(t.center))
    ensures Sorted(t.intervals) && AllProper(t.intervals)
  {
    hide Passes, Sorted, AllPass, AllProper;
  }

  lemma UnfoldNil<V>(t: Tree<V>, start: Scalar, stop: Scalar)
    ensures t.Nil? ==> Near(t, start, stop) == All(t)
  {
  }

  ghost predicate Same<T>(a: seq<T>, b: seq<T>) { multiset(a) == multiset(b) }

  lemma NodeIsScan<V>(own: seq<Interval<V>>, l: seq<Interval<V>>, r: seq<Interval<V>>,
                      left: seq<Interval<V>>, intervals: seq<Interval<V>>, right: seq<Interval<V>>, q: Test)
    requires Same(Filter(own, q), Filter(intervals, q))
    requires Same(Filter(l, q), Filter(left, q)) && Same(Filter(r, q), Filter(right, q))
    ensures Same(Filter(own + l + r, q), Filter(left + intervals + right, q))
  {
    FilterThree(own, l, r, q);
    FilterThree(left, intervals, right, q);
  }

  lemma FilterThree<V>(a: seq<Interval<V>>, b: seq<Interval<V>>, c: seq<Interval<V>>, q: Test)
    ensures Filter(a + b + c, q) == Filter(a, q) + Filter(b, q) + Filter(c, q)
  {
    FilterConcat(a + b, c, q);
    FilterConcat(a, b, q);
  }

  lemma OwnPruned<V>(s: seq<Interval<V>>, q: Test, start: Scalar, stop: Scalar)
    requires Sorted(s) && AllProper(s) && IsQuery(q, start, stop)
    ensures s != [] && stop < s[0].start ==> Filter(s, q) == []
  {
    if s != [] && stop < s[0].start {
      FilterNone(s, q);
    }
  }

  lemma LeftPruned<V>(left: Tree<V>, center: Scalar, q: Test, start: Scalar, stop: Scalar)
    requires WellFormed(left) && AllPass(All(left), Before(center)) && IsQuery(q, start, stop)
    ensures !(left.Node? && start <= center) ==> Filter(All(left), q) == []
  {
    if left.Node? && start > center {
      WellFormedProper(left);
      FilterNone(All(left), q);
    }
  }

  lemma RightPruned<V>(right: Tree<V>, center: Scalar, q: Test, start: Scalar, stop: Scalar)
    requires WellFormed(right) && AllPass(All(right), After(center)) && IsQuery(q, start, stop)
    ensures !(right.Node? && stop >= center) ==> Filter(All(right), q) == []
  {
    if right.Node? && stop < center {
      WellFormedProper(right);
      FilterNone(All(right), q);
    }
  }

  // ----- building -----

  lemma FilterSnoc<V>(s: seq<Interval<V>>, k: nat, t: Test)
    requires k < |s|
    ensures Filter(s[..k + 1], t) == Filter(s[..k], t) + (if Passes(s[k], t) then [s[k]] else [])
  {
    assert s[..k + 1] == s[..k] + [s[k]];
    FilterConcat(s[..k], [s[k]], t);
    assert Filter([s[k]], t) == if Passes(s[k], t) then [s[k]] else [];
  }

  function Insert<V>(i: Interval<V>, s: seq<Interval<V>>): seq<Interval<V>> {
    if s == [] || i.start <= s[0].start then [i] + s else [s[0]] + Insert(i, s[1..])
  }

  lemma {:induction false} InsertSorted<V>(i: Interval<V>, s: seq<Interval<V>>)
    requires Sorted(s)
    ensures Sorted(Insert(i, s))
  {
    if s != [] && i.start > s[0].start {
      InsertSorted(i, s[1..]);
      InsertBound(i, s[1..], s[0].start);
    }
  }

  lemma {:induction false} InsertBound<V>(i: Interval<V>, s: seq<Interval<V>>, lo: Scalar)
    requires lo <= i.start && forall k :: 0 <= k < |s| ==> lo <= s[k].start
    ensures forall k :: 0 <= k < |Insert(i, s)| ==> lo <= Insert(i, s)[k].start
  {
    if s != [] && i.start > s[0].start {
      InsertBound(i, s[1..], lo);
    }
  }

  lemma {:induction false} InsertPermutes<V>(i: Interval<V>, s: seq<Interval<V>>)
    ensures multiset(Insert(i, s)) == multiset(s) + multiset{i}
  {
    if s != [] && i.start > s[0].start {
      InsertPermutes(i, s[1..]);
      assert s == [s[0]] + s[1..];
    }
  }

  /** Stands for std::sort by start: any sorted permutation. */
  method SortByStart<V>(s: seq<Interval<V>>) returns (r: seq<Interval<V>>)
    ensures Sorted(r) && multiset(r) == multiset(s)
  {
    r := [];
    for k := 0 to |s|
      invariant Sorted(r) && multiset(r) == multiset(s[..k])
    {
      assert s[..k + 1] == s[..k] + [s[k]];
      InsertSorted(s[k], r);
      InsertPermutes(s[k], r);
      r := Insert(s[k], r);
    }
    assert s[..|s|] == s;
  }

  function MinStart<V>(s: seq<Interval<V>>): (m: Scalar)
    requires s != []
    ensures forall k :: 0 <= k < |s| ==> m <= s[k].start
    ensures exists k :: 0 <= k < |s| && m == s[k].start
  {
    if |s| == 1 then s[0].start
    else
      var rest := MinStart(s[1..]);
      assert exists k :: 0 <= k < |s[1..]| && rest == s[1..][k].start;
      assert s == [s[0]] + s[1..];
      if s[0].start <= rest then s[0].start else rest
  }

  function MaxStop<V>(s: seq<Interval<V>>): (m: Scalar)
    requires s != []
    ensures forall k :: 0 <= k < |s| ==> s[k].stop <= m
    ensures exists k :: 0 <= k < |s| && m == s[k].stop
  {
    if |s| == 1 then s[0].stop
    else
      var rest := MaxStop(s[1..]);
      assert exists k :: 0 <= k < |s[1..]| && rest == s[1..][k].stop;
      assert s == [s[0]] + s[1..];
      if s[0].stop >= rest then s[0].stop else rest
  }

  lemma {:induction false} FilterCount<V>(s: seq<Interval<V>>, q: Test, i: Interval<V>)
    ensures multiset(Filter(s, q))[i] == if Passes(i, q) then multiset(s)[i] else 0
  {
    if s != [] {
      FilterCount(s[1..], q, i);
      assert s == [s[0]] + s[1..];
    }
  }

  lemma FilterPermutes<V(!new)>(a: seq<Interval<V>>, b: seq<Interval<V>>, q: Test)
    requires Same(a, b)
    ensures Same(Filter(a, q), Filter(b, q))
  {
    forall i: Interval<V> ensures multiset(Filter(a, q))[i] == multiset(Filter(b, q))[i] {
      FilterCount(a, q, i);
      FilterCount(b, q, i);
    }
  }

  // ----- is_valid -----

  datatype Validity = Validity(ok: bool, lo: Scalar, hi: Scalar)

  function Min(a: Scalar, b: Scalar): Scalar { if b < a then b else a }

  /** The self-check, branch by branch. The upper bound starts at the smallest scalar and is only ever lowered. */
  function IsValid<V>(t: Tree<V>): Validity
    requires t.Node?
  {
    var lo0 := if t.intervals != [] then Min(TWO64 - 1, MinStart(t.intervals)) else TWO64 - 1;
    var hi0 := if t.intervals != [] then Min(0, MaxStop(t.intervals)) else 0;
    var l := if t.left.Node? then IsValid(t.left) else Validity(true, TWO64 - 1, TWO64 - 1);
    var lo1, hi1 := Min(lo0, l.lo), Min(hi0, l.hi);
    if t.left.Node? && (!l.ok || l.hi >= t.center) then Validity(false, lo1, hi1)
    else
      var r := if t.right.Node? then IsValid(t.right) else Validity(true, TWO64 - 1, TWO64 - 1);
      var lo2, hi2 := Min(lo1, r.lo), Min(hi1, r.hi);
      if t.right.Node? && (!r.ok || r.lo <= t.center) then Validity(false, lo2, hi2)
      else Validity(Sorted(t.intervals), lo2, hi2)
  }

  /** The least start in a tree, or the largest scalar if it is empty. */
  function Least<V>(t: Tree<V>): Scalar {
    match t
    case Nil => TWO64 - 1
    case Node(intervals, left, right, _) =>
      var own := if intervals != [] then MinStart(intervals) else TWO64 - 1;
      Min(Min(own, Least(left)), Least(right))
  }

  /** What the self-check really establishes: it says nothing about the stops on the left. */
  predicate Accepted<V>(t: Tree<V>) {
    match t
    case Nil => true
    case Node(intervals, left, right, center) =>
      && Sorted(intervals)
      && Accepted(left) && (left.Node? ==> center > 0)
      && Accepted(right) && (right.Node? ==> Least(right) > center)
  }

  lemma {:induction false} IsValidExact<V>(t: Tree<V>)
    requires t.Node?
    ensures IsValid(t).hi == 0
    ensures IsValid(t).ok <==> Accepted(t)
    ensures IsValid(t).ok ==> IsValid(t).lo == Least(t)
  {
    hide MinStart, MaxStop, Sorted;
    if t.left.Node? {
      IsValidExact(t.left);
    }
    if t.right.Node? {
      IsValidExact(t.right);
    }
  }

  lemma {:induction false} LeastAttained<V>(t: Tree<V>)
    ensures All(t) != [] ==> exists k :: 0 <= k < |All(t)| && All(t)[k].start == Least(t)
  {
    if t.Node? {
      LeastAttained(t.left);
      LeastAttained(t.right);
      var a, b, c := All(t.left), t.intervals, All(t.right);
      if b != [] {
        var k :| 0 <= k < |b| && b[k].start == MinStart(b);
        assert All(t)[|a| + k] == b[k];
      }
      if a != [] {
        var k :| 0 <= k < |a| && a[k].start == Least(t.left);
        assert All(t)[k] == a[k];
      } else {
        EmptyLeast(t.left);
      }
      if c != [] {
        var k :| 0 <= k < |c| && c[k].start == Least(t.right);
        assert All(t)[|a| + |b| + k] == c[k];
      } else {
        EmptyLeast(t.right);
      }
    }
  }

  lemma {:induction false} EmptyLeast<V>(t: Tree<V>)
    requires All(t) == []
    ensures Least(t) == TWO64 - 1
  {
    if t.Node? {
      assert |All(t)| == |All(t.left)| + |t.intervals| + |All(t.right)|;
      EmptyLeast(t.left);
      EmptyLeast(t.right);
    }
  }

  /** The self-check never rejects a well-formed tree. */
  lemma {:induction false} WellFormedAccepted<V>(t: Tree<V>)
    requires WellFormed(t)
    ensures Accepted(t)
  {
    if t.Node? {
      WellFormedAccepted(t.left);
      WellFormedAccepted(t.right);
      if t.left.Node? {
        assert Passes(All(t.left)[0], Before(t.center));
      }
      if t.right.Node? {
        LeastAttained(t.right);
        var k :| 0 <= k < |All(t.right)| && All(t.right)[k].start == Least(t.right);
        assert Passes(All(t.right)[k], After(t.center));
      }
    }
  }

  ghost predicate LeftsBefore<V>(t: Tree<V>) {
    match t
    case Nil => true
    case Node(_, left, right, center) => AllPass(All(left), Before(center)) && LeftsBefore(left) && LeftsBefore(right)
  }

  predicate NoEmptyChild<V>(t: Tree<V>) {
    match t
    case Nil => true
    case Node(_, left, right, _) =>
      && (left.Node? ==> All(left) != []) && NoEmptyChild(left)
      && (right.Node? ==> All(right) != []) && NoEmptyChild(right)
  }

  lemma {:induction false} LeastBelow<V>(t: Tree<V>)
    ensures forall k :: 0 <= k < |All(t)| ==> Least(t) <= All(t)[k].start
  {
    if t.Node? {
      LeastBelow(t.left);
      LeastBelow(t.right);
    }
  }

  lemma ProperParts<V>(t: Tree<V>)
    requires t.Node? && AllProper(All(t))
    ensures AllProper(All(t.left)) && AllProper(t.intervals) && AllProper(All(t.right))
  {
    hide AllProper;
    ProperThree(All(t.left), t.intervals, All(t.right));
  }

  lemma ProperThree<V>(a: seq<Interval<V>>, b: seq<Interval<V>>, c: seq<Interval<V>>)
    requires AllProper(a + b + c)
    ensures AllProper(a) && AllProper(b) && AllProper(c)
  {
    var s := a + b + c;
    forall k | 0 <= k < |a| ensures Proper(a[k]) { assert a[k] == s[k]; }
    forall k | 0 <= k < |b| ensures Proper(b[k]) { assert b[k] == s[|a| + k]; }
    forall k | 0 <= k < |c| ensures Proper(c[k]) { assert c[k] == s[|a| + |b| + k]; }
  }

  lemma RightBehind<V>(t: Tree<V>, center: Scalar)
    requires AllProper(All(t)) && (t.Node? ==> Least(t) > center)
    ensures AllPass(All(t), After(center))
  {
    hide All, Least;
    if t.Node? {
      LeastBelow(t);
      forall k | 0 <= k < |All(t)| ensures Passes(All(t)[k], After(center)) {
        assert Proper(All(t)[k]);
      }
    } else {
      NilIsEmpty(t);
    }
  }

  lemma NilIsEmpty<V>(t: Tree<V>)
    ensures t.Nil? ==> All(t) == []
  {
  }

  /** What the self-check leaves open: it is right about a tree exactly if moreover every interval is stored
      smaller end first, every left subtree lies before its center, and no child is empty. */
  lemma {:induction false} WellFormedExactly<V>(t: Tree<V>)
    ensures WellFormed(t) <==> Accepted(t) && AllProper(All(t)) && LeftsBefore(t) && NoEmptyChild(t)
  {
    hide Passes, Sorted, AllPass, AllProper, Least;
    if t.Node? {
      WellFormedExactly(t.left);
      WellFormedExactly(t.right);
      if WellFormed(t) {
        WellFormedAccepted(t);
        WellFormedProper(t);
      }
      if Accepted(t) && AllProper(All(t)) && LeftsBefore(t) && NoEmptyChild(t) {
        ProperParts(t);
        RightBehind(t.right, t.center);
      }
    } else {
      NilProper(t);
    }
  }

  lemma NilProper<V>(t: Tree<V>)
    ensures t.Nil? ==> AllProper(All(t))
  {
  }

  /** It does accept trees on which searching is wrong: here the interval [0, 9] hangs left of center 5,
      and the query [6, 7] does not find it. */
  lemma AcceptedIsNotEnough()
    ensures exists t: Tree<int> :: t.Node? && IsValid(t).ok && AllProper(All(t)) &&
              !Same(Filter(Near(t, 6, 7), Overlapping(6, 7)), Filter(All(t), Overlapping(6, 7)))
  {
    hide IsValid, MinStart, MaxStop;
    var i := Interval(0, 9, 0);
    var leaf := Node([i], Nil, Nil, 4);
    var t := Node([], leaf, Nil, 5);
    assert All(leaf) == [i] && All(t) == [i];
    assert Near(t, 6, 7) == [];
    assert Filter([i], Overlapping(6, 7)) == [i];
    assert i in multiset([i]);
    IsValidExact(t);
    assert Accepted(leaf);
  }

  // ----- the constructor -----

  function Center<V>(ivals: seq<Interval<V>>): Scalar
    requires ivals != []
  {
    (MinStart(ivals) + MaxStop(ivals)) % TWO64 / 2
  }

  /** The depth after the decrement at the top; a 64-bit zero wraps around. */
  function Deeper(depth: nat): nat {
    if depth == 0 then TWO64 - 1 else depth - 1
  }

  predicate IsLeaf(size: nat, depth: nat, minbucket: nat, maxbucket: nat) {
    Deeper(depth) == 0 || (size < minbucket && size < maxbucket)
  }

  method Build<V(!new)>(input: seq<Interval<V>>, depth: nat, minbucket: nat, maxbucket: nat, leftextent: Scalar,
                        rightextent: Scalar)
    returns (t: Tree<V>)
    requires depth < TWO64 && AllProper(input)
    // The source takes front() of the list before it partitions a root list.
    requires input == [] ==> IsLeaf(0, depth, minbucket, maxbucket) || leftextent != 0 || rightextent != 0
    requires leftextent != 0 || rightextent != 0 ==> Sorted(input)
    ensures t.Node? && WellFormed(t) && IsValid(t).ok
    ensures Same(All(t), input)
    decreases if depth == 0 then TWO64 else depth
  {
    hide MinStart, MaxStop, Passes, Sorted, IsValid, AllPass, Filter;
    var ivals := input;
    var center: Scalar := *;
    if ivals != [] {
      center := Center(ivals);
    }
    if leftextent == 0 && rightextent == 0 {
      ivals := SortByStart(ivals);
    } else {
      assert Sorted(ivals);
    }
    PermutedProper(input, ivals);
    if IsLeaf(|ivals|, depth, minbucket, maxbucket) {
      ivals := SortByStart(ivals);
      PermutedProper(input, ivals);
      t := Node(ivals, Nil, Nil, center);
      LeafWellFormed(input, ivals, center);
      return;
    }
    var leftp, rightp := leftextent, rightextent;
    if leftextent == 0 && rightextent == 0 {
      leftp := ivals[0].start;
      rightp := MaxStop(ivals);
    }
    var lefts, own, rights := Partition(ivals, center);
    var left: Tree<V>, right: Tree<V> := Nil, Nil;
    if lefts != [] {
      left := Build(lefts, Deeper(depth), minbucket, maxbucket, leftp, center);
    }
    if rights != [] {
      right := Build(rights, Deeper(depth), minbucket, maxbucket, center, rightp);
    }
    t := Node(own, left, right, center);
    NodeWellFormed(input, ivals, own, left, right, center);
  }

  method Partition<V>(ivals: seq<Interval<V>>, center: Scalar)
    returns (lefts: seq<Interval<V>>, own: seq<Interval<V>>, rights: seq<Interval<V>>)
    requires Sorted(ivals) && AllProper(ivals)
    ensures lefts == Filter(ivals, Before(center)) && own == Filter(ivals, Across(center)) &&
            rights == Filter(ivals, After(center))
    ensures Sorted(lefts) && Sorted(own) && Sorted(rights)
    ensures AllProper(lefts) && AllProper(own) && AllProper(rights)
  {
    hide Filter, Sorted;
    lefts, own, rights := [], [], [];
    assert ivals[..0] == [];
    FilterNone<V>([], Before(center));
    FilterNone<V>([], Across(center));
    FilterNone<V>([], After(center));
    for i := 0 to |ivals|
      invariant lefts == Filter(ivals[..i], Before(center))
      invariant own == Filter(ivals[..i], Across(center))
      invariant rights == Filter(ivals[..i], After(center))
      invariant AllProper(lefts) && AllProper(own) && AllProper(rights)
    {
      FilterSnoc(ivals, i, Before(center));
      FilterSnoc(ivals, i, Across(center));
      FilterSnoc(ivals, i, After(center));
      var cur := ivals[i];
      if cur.stop < center {
        lefts := lefts + [cur];
      } else if cur.start > center {
        rights := rights + [cur];
      } else {
        assert cur.start <= center <= cur.stop;
        own := own + [cur];
      }
    }
    assert ivals[..|ivals|] == ivals;
    FilterSorted(ivals, Before(center));
    FilterSorted(ivals, Across(center));
    FilterSorted(ivals, After(center));
  }

  lemma PermutedProper<V>(a: seq<Interval<V>>, b: seq<Interval<V>>)
    requires AllProper(a) && multiset(a) == multiset(b)
    ensures AllProper(b) && Same(a, b) && |a| == |b|
  {
    forall k | 0 <= k < |b| ensures Proper(b[k]) {
      assert b[k] in multiset(b);
      assert b[k] in a;
    }
    assert |multiset(a)| == |a| && |multiset(b)| == |b|;
  }

  lemma LeafWellFormed<V>(input: seq<Interval<V>>, ivals: seq<Interval<V>>, center: Scalar)
    requires Sorted(ivals) && AllProper(ivals) && Same(input, ivals)
    ensures var t := Node(ivals, Nil, Nil, center);
            WellFormed(t) && IsValid(t).ok && Same(All(t), input)
  {
    var t := Node(ivals, Nil, Nil, center);
    assert All(t) == ivals;
    IsValidExact(t);
  }

  lemma PassesPermuted<V>(s: seq<Interval<V>>, a: seq<Interval<V>>, q: Test)
    requires Same(a, Filter(s, q))
    ensures AllPass(a, q)
  {
    forall k | 0 <= k < |a| ensures Passes(a[k], q) {
      assert a[k] in multiset(a);
      assert a[k] in Filter(s, q);
      FilterMember(s, q, a[k]);
    }
  }

  lemma NodeWellFormed<V>(input: seq<Interval<V>>, ivals: seq<Interval<V>>, own: seq<Interval<V>>, left: Tree<V>,
                          right: Tree<V>, center: Scalar)
    requires Same(input, ivals)
    requires Sorted(own) && AllProper(own) && own == Filter(ivals, Across(center))
    requires WellFormed(left) && WellFormed(right)
    requires Same(All(left), Filter(ivals, Before(center))) && Same(All(right), Filter(ivals, After(center)))
    requires (left.Node? ==> Filter(ivals, Before(center)) != []) &&
             (right.Node? ==> Filter(ivals, After(center)) != [])
    ensures var t := Node(own, left, right, center);
            WellFormed(t) && IsValid(t).ok && Same(All(t), input)
  {
    hide IsValid, Filter, Passes, Sorted;
    var t := Node(own, left, right, center);
    PassesPermuted(ivals, All(left), Before(center));
    PassesPermuted(ivals, All(right), After(center));
    FilterPartition(ivals, center);
    assert left.Node? ==> |multiset(All(left))| > 0;
    assert right.Node? ==> |multiset(All(right))| > 0;
    WellFormedAccepted(t);
    IsValidExact(t);
  }

  // ----- the visits -----

  /** `result` collects what the visitor keeps. */
  method VisitNear<V>(t: Tree<V>, start: Scalar, stop: Scalar, q: Test, result: seq<Interval<V>>)
    returns (r: seq<Interval<V>>)
    requires t.Node?
    ensures r == result + Filter(Near(t, start, stop), q)
    decreases t
  {
    hide Passes, Filter, Near;
    r := result;
    ghost var own, l, right := [], [], [];
    if t.intervals != [] && !(stop < t.intervals[0].start) {
      r := Keep(t.intervals, q, r);
      own := Filter(t.intervals, q);
    }
    assert r == result + own;
    if t.left.Node? && start <= t.center {
      r := VisitNear(t.left, start, stop, q, r);
      l := Filter(Near(t.left, start, stop), q);
    }
    assert r == result + (own + l);
    if t.right.Node? && stop >= t.center {
      r := VisitNear(t.right, start, stop, q, r);
      right := Filter(Near(t.right, start, stop), q);
    }
    assert r == result + (own + l + right);
    FilterNear(t, start, stop, q);
  }

  lemma FilterNear<V>(t: Tree<V>, start: Scalar, stop: Scalar, q: Test)
    requires t.Node?
    ensures Filter(Near(t, start, stop), q) ==
            (if t.intervals != [] && !(stop < t.intervals[0].start) then Filter(t.intervals, q) else [])
            + (if t.left.Node? && start <= t.center then Filter(Near(t.left, start, stop), q) else [])
            + (if t.right.Node? && stop >= t.center then Filter(Near(t.right, start, stop), q) else [])
  {
    hide Passes, Filter;
    FilterNone<V>([], q);
    FilterThree(if t.intervals != [] && !(stop < t.intervals[0].start) then t.intervals else [],
      if t.left.Node? && start <= t.center then Near(t.left, start, stop) else [],
      if t.right.Node? && stop >= t.center then Near(t.right, start, stop) else [], q);
  }

  method Keep<V>(s: seq<Interval<V>>, q: Test, result: seq<Interval<V>>) returns (r: seq<Interval<V>>)
    ensures r == result + Filter(s, q)
  {
    r := result;
    assert s[..0] == [];
    for i := 0 to |s|
      invariant r == result + Filter(s[..i], q)
    {
      FilterSnoc(s, i, q);
      if Passes(s[i], q) {
        r := r + [s[i]];
      }
    }
    assert s[..|s|] == s;
  }

  method FindOverlapping<V>(t: Tree<V>, start: Scalar, stop: Scalar) returns (result: seq<Interval<V>>)
    requires t.Node? && WellFormed(t)
    ensures Same(result, Filter(All(t), Overlapping(start, stop)))
  {
    result := VisitNear(t, start, stop, Overlapping(start, stop), []);
    SearchIsScan(t, Overlapping(start, stop), start, stop);
  }

  method FindContained<V>(t: Tree<V>, start: Scalar, stop: Scalar) returns (result: seq<Interval<V>>)
    requires t.Node? && WellFormed(t)
    ensures Same(result, Filter(All(t), Within(start, stop)))
  {
    result := VisitNear(t, start, stop, Within(start, stop), []);
    SearchIsScan(t, Within(start, stop), start, stop);
  }

  method VisitAll<V>(t: Tree<V>, result: seq<Interval<V>>) returns (r: seq<Interval<V>>)
    requires t.Node?
    ensures r == result + All(t)
    decreases t
  {
    r := result;
    if t.left.Node? {
      r := VisitAll(t.left, r);
    }
    for i := 0 to |t.intervals|
      invariant r == result + All(t.left) + t.intervals[..i]
    {
      r := r + [t.intervals[i]];
    }
    if t.right.Node? {
      r := VisitAll(t.right, r);
    }
  }

  /** Building an index over any list and asking it anything is scanning the list. */
  method IndexAnswers<V(!new)>(ivals: seq<Interval<V>>, depth: nat, minbucket: nat, maxbucket: nat, start: Scalar,
                               stop: Scalar)
    returns (overlapping: seq<Interval<V>>, contained: seq<Interval<V>>, all: seq<Interval<V>>)
    requires depth < TWO64 && AllProper(ivals)
    requires ivals == [] ==> IsLeaf(0, depth, minbucket, maxbucket)
    ensures Same(overlapping, Filter(ivals, Overlapping(start, stop)))
    ensures Same(contained, Filter(ivals, Within(start, stop)))
    ensures Same(all, ivals)
  {
    var t := Build(ivals, depth, minbucket, maxbucket, 0, 0);
    overlapping := FindOverlapping(t, start, stop);
    contained := FindContained(t, start, stop);
    all := VisitAll(t, []);
    FilterPermutes(All(t), ivals, Overlapping(start, stop));
    FilterPermutes(All(t), ivals, Within(start, stop));
  }
}
