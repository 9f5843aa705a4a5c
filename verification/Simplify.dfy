/**
 * Douglas-Peucker with an explicit stack (utility/map-bake/bake.py, `simplify_part`).
 * Distances are compared squared, over the reals.
 */
module Simplify {
  import opened Bytes

  datatype Point = Point(x: real, y: real)

  function Square(a: real): (r: real)
    ensures r >= 0.0
  {
    a * a
  }

  function DistSq(p: Point, q: Point): (r: real)
    ensures r >= 0.0
  {
    Square(p.x - q.x) + Square(p.y - q.y)
  }

  function Clamp(t: real): real {
    if t < 0.0 then 0.0 else if t > 1.0 then 1.0 else t
  }

  /** The point at parameter `t` of the segment from `a` to `b`. */
  function Along(a: Point, b: Point, t: real): Point {
    Point(a.x + t * (b.x - a.x), a.y + t * (b.y - a.y))
  }

  /** One coordinate's share of the scalar product of `p - a` and `b - a`. */
  function Share(p: real, a: real, b: real): real {
    (p - a) * (b - a)
  }

  function Dot(p: Point, a: Point, b: Point): real {
    Share(p.x, a.x, b.x) + Share(p.y, a.y, b.y)
  }

  /** The squared distance the loop measures from `p` to the segment from `a` to `b`. */
  function SegDistSq(p: Point, a: Point, b: Point): (r: real)
    ensures r >= 0.0
  {
    var lenSq := DistSq(b, a);
    if lenSq == 0.0 then DistSq(p, a) else DistSq(p, Along(a, b, Clamp(Dot(p, a, b) / lenSq)))
  }

  // ---------------------------------------------------------------- it is the distance to the segment

  /** The parabola `d + t * t * l - 2 * t * n`. */
  function Parabola(d: real, l: real, n: real, t: real): real {
    d + t * t * l - 2.0 * t * n
  }

  lemma ParabolasAdd(d: real, l: real, n: real, d': real, l': real, n': real, t: real)
    ensures Parabola(d + d', l + l', n + n', t) == Parabola(d, l, n, t) + Parabola(d', l', n', t)
  {
    assert t * t * (l + l') == t * t * l + t * t * l';
    assert 2.0 * t * (n + n') == 2.0 * t * n + 2.0 * t * n';
  }

  /** One coordinate's share of the squared distance, along the segment. */
  lemma Component(p: real, a: real, b: real, t: real, q: real)
    requires q == a + t * (b - a)
    ensures Square(p - q) == Parabola(Square(p - a), Square(b - a), Share(p, a, b), t)
  {
    var u, v, w := p - a, b - a, p - q;
    assert w == u - t * v;
    assert w * w == u * u + t * t * (v * v) - 2.0 * t * (u * v) by {
      assert (u - t * v) * (u - t * v) == u * u - u * (t * v) - (t * v) * u + (t * v) * (t * v);
    }
  }

  /** Along the segment the squared distance is a parabola in `t`. */
  lemma DistanceAlong(p: Point, a: Point, b: Point, t: real)
    ensures DistSq(p, Along(a, b, t)) == Parabola(DistSq(p, a), DistSq(b, a), Dot(p, a, b), t)
  {
    hide Parabola, Square, Share;
    var q := Along(a, b, t);
    Component(p.x, a.x, b.x, t, q.x);
    Component(p.y, a.y, b.y, t, q.y);
    ParabolasAdd(Square(p.x - a.x), Square(b.x - a.x), Share(p.x, a.x, b.x),
                 Square(p.y - a.y), Square(b.y - a.y), Share(p.y, a.y, b.y), t);
  }

  lemma Product(a: real, b: real, c: real)
    requires c == a * b && a >= 0.0 && b >= 0.0
    ensures c >= 0.0
  {
  }

  lemma PositiveProduct(a: real, b: real, c: real)
    requires c == a * b && a > 0.0 && b > 0.0
    ensures c > 0.0
  {
  }

  /** Between two parameters the parabola changes by `l * (t - c) * (t + c - 2v)`, `v` its vertex. */
  lemma Difference(d: real, l: real, n: real, v: real, c: real, t: real, change: real)
    requires n == v * l
    requires change == l * ((t - c) * (t + c - 2.0 * v))
    ensures Parabola(d, l, n, t) - Parabola(d, l, n, c) == change
  {
    assert (t - c) * (t + c - 2.0 * v) == t * t - c * c - 2.0 * v * t + 2.0 * v * c;
    assert 2.0 * t * (v * l) == l * (2.0 * v * t) && 2.0 * c * (v * l) == l * (2.0 * v * c);
    assert l * (t * t) == t * t * l && l * (c * c) == c * c * l;
  }

  /** A parabola that opens upward is least, over [0, 1], at its vertex clamped to [0, 1]. */
  lemma ClampIsLeast(d: real, l: real, n: real, t: real)
    requires l > 0.0 && 0.0 <= t <= 1.0
    ensures Parabola(d, l, n, Clamp(n / l)) <= Parabola(d, l, n, t)
  {
    hide Parabola;
    var v := n / l;
    var c := Clamp(v);
    var both := (t - c) * (t + c - 2.0 * v);
    BothSides(v, c, t, both);
    var change := l * both;
    Product(l, both, change);
    Difference(d, l, n, v, c, t, change);
  }

  lemma BothSides(v: real, c: real, t: real, both: real)
    requires 0.0 <= t <= 1.0 && c == Clamp(v) && both == (t - c) * (t + c - 2.0 * v)
    ensures both >= 0.0
  {
    if v < 0.0 {
      Product(t, t - 2.0 * v, both);
    } else if v > 1.0 {
      assert (t - 1.0) * (t + 1.0 - 2.0 * v) == (1.0 - t) * (2.0 * v - 1.0 - t);
      Product(1.0 - t, 2.0 * v - 1.0 - t, both);
    } else {
      assert t + c - 2.0 * v == t - c;
      if t >= c {
        Product(t - c, t - c, both);
      } else {
        Product(c - t, c - t, both);
      }
    }
  }

  lemma NoSquareVanishes(d: real)
    ensures d != 0.0 ==> Square(d) > 0.0
  {
    if d > 0.0 {
      PositiveProduct(d, d, Square(d));
    } else if d < 0.0 {
      PositiveProduct(-d, -d, Square(d));
    }
  }

  lemma LeastAlong(p: Point, a: Point, b: Point, t: real)
    requires 0.0 <= t <= 1.0 && DistSq(b, a) > 0.0
    ensures DistSq(p, Along(a, b, Clamp(Dot(p, a, b) / DistSq(b, a)))) <= DistSq(p, Along(a, b, t))
  {
    hide DistSq, Along, Dot, Clamp, Parabola;
    var l, n := DistSq(b, a), Dot(p, a, b);
    DistanceAlong(p, a, b, t);
    DistanceAlong(p, a, b, Clamp(n / l));
    ClampIsLeast(DistSq(p, a), l, n, t);
  }

  /** No point of the segment is nearer than what the loop measures, and one is that near. */
  lemma SegDistIsLeast(p: Point, a: Point, b: Point, t: real)
    requires 0.0 <= t <= 1.0
    ensures SegDistSq(p, a, b) <= DistSq(p, Along(a, b, t))
    ensures exists c :: 0.0 <= c <= 1.0 && SegDistSq(p, a, b) == DistSq(p, Along(a, b, c))
  {
    var l, n := DistSq(b, a), Dot(p, a, b);
    if l == 0.0 {
      assert b.x == a.x && b.y == a.y by {
        NoSquareVanishes(b.x - a.x);
        NoSquareVanishes(b.y - a.y);
      }
      assert t * (b.x - a.x) == 0.0 && t * (b.y - a.y) == 0.0;
      assert Along(a, b, t) == a;
      assert SegDistSq(p, a, b) == DistSq(p, Along(a, b, t));
    } else {
      var c := Clamp(n / l);
      LeastAlong(p, a, b, t);
      assert 0.0 <= c <= 1.0 && SegDistSq(p, a, b) == DistSq(p, Along(a, b, c));
    }
  }

  // ---------------------------------------------------------------- the stack

  datatype Range = Range(start: nat, end: nat)

  /** What bounds the number of turns left: each range of n gaps is worth 2n - 1. */
  function Measure(stack: seq<Range>): (m: nat)
    requires forall r :: r in stack ==> r.start < r.end
  {
    if stack == [] then 0
    else
      var top := stack[|stack| - 1];
      Measure(stack[..|stack| - 1]) + 2 * (top.end - top.start) - 1
  }

  lemma MeasurePush(stack: seq<Range>, r: Range)
    requires forall q :: q in stack + [r] ==> q.start < q.end
    ensures forall q :: q in stack ==> q.start < q.end
    ensures Measure(stack + [r]) == Measure(stack) + 2 * (r.end - r.start) - 1
  {
    assert r in stack + [r];
    assert forall q :: q in stack ==> q in stack + [r];
    assert (stack + [r])[..|stack|] == stack;
  }

  /** Everything between two vertices is within the tolerance of the segment joining them. */
  predicate AllNear(xy: seq<Point>, start: nat, end: nat, epsSq: real)
    requires start <= end < |xy|
  {
    forall i :: start < i < end ==> SegDistSq(xy[i], xy[start], xy[end]) <= epsSq
  }

  /** `m` is beyond the tolerance of the segment from `a` to `b`, and the first of the farthest between them. */
  predicate SplitsAt(xy: seq<Point>, a: nat, b: nat, m: nat, epsSq: real)
    requires b < |xy|
  {
    && a < m < b && SegDistSq(xy[m], xy[a], xy[b]) > epsSq
    && (forall i :: a < i < b ==> SegDistSq(xy[i], xy[a], xy[b]) <= SegDistSq(xy[m], xy[a], xy[b]))
    && (forall i :: a < i < m ==> SegDistSq(xy[i], xy[a], xy[b]) < SegDistSq(xy[m], xy[a], xy[b]))
  }

  /** The vertices kept between `a` and `b`, by the recursive definition. */
  ghost function Marks(xy: seq<Point>, a: nat, b: nat, epsSq: real): (ms: set<nat>)
    requires b < |xy|
    ensures forall m :: m in ms ==> a < m < b
    decreases b - a
  {
    if exists m: nat :: SplitsAt(xy, a, b, m, epsSq) then
      var m: nat :| SplitsAt(xy, a, b, m, epsSq);
      Marks(xy, a, m, epsSq) + {m} + Marks(xy, m, b, epsSq)
    else {}
  }

  /** The farthest vertex strictly inside a range, the first of them if several are as far. */
  method Farthest(xy: seq<Point>, start: nat, end: nat) returns (best: nat, bestSq: real)
    requires start + 1 < end < |xy|
    ensures start < best < end && bestSq == SegDistSq(xy[best], xy[start], xy[end])
    ensures forall i :: start < i < end ==> SegDistSq(xy[i], xy[start], xy[end]) <= bestSq
    ensures forall i :: start < i < best ==> SegDistSq(xy[i], xy[start], xy[end]) < bestSq
  {
    hide SegDistSq;
    best, bestSq := start, -1.0;
    for i := start + 1 to end
      invariant best == start <==> i == start + 1
      invariant best == start ==> bestSq == -1.0
      invariant best != start ==> start < best < i && bestSq == SegDistSq(xy[best], xy[start], xy[end])
      invariant forall k :: start < k < i ==> SegDistSq(xy[k], xy[start], xy[end]) <= bestSq
      invariant forall k :: start < k < best ==> SegDistSq(xy[k], xy[start], xy[end]) < bestSq
    {
      var distSq := SegDistSq(xy[i], xy[start], xy[end]);
      if distSq > bestSq {
        best, bestSq := i, distSq;
      }
    }
  }

  // ---------------------------------------------------------------- the loop

  lemma MarksSplit(xy: seq<Point>, a: nat, b: nat, m: nat, epsSq: real)
    requires b < |xy| && SplitsAt(xy, a, b, m, epsSq)
    ensures Marks(xy, a, b, epsSq) == Marks(xy, a, m, epsSq) + {m} + Marks(xy, m, b, epsSq)
  {
    hide SegDistSq;
    var k: nat :| SplitsAt(xy, a, b, k, epsSq)
                  && Marks(xy, a, b, epsSq) == Marks(xy, a, k, epsSq) + {k} + Marks(xy, k, b, epsSq);
    assert k == m;
  }

  lemma NoMarks(xy: seq<Point>, a: nat, b: nat, epsSq: real)
    requires a <= b < |xy| && AllNear(xy, a, b, epsSq)
    ensures Marks(xy, a, b, epsSq) == {}
  {
    hide SegDistSq;
  }

  /** What the ranges on the stack have still to mark. */
  ghost function StackMarks(xy: seq<Point>, stack: seq<Range>, epsSq: real): set<nat>
    requires forall r :: r in stack ==> r.end < |xy|
  {
    if stack == [] then {}
    else
      var top := stack[|stack| - 1];
      assert top in stack;
      StackMarks(xy, stack[..|stack| - 1], epsSq) + Marks(xy, top.start, top.end, epsSq)
  }

  lemma StackPush(xy: seq<Point>, stack: seq<Range>, r: Range, epsSq: real)
    requires forall q :: q in stack + [r] ==> q.end < |xy|
    ensures forall q :: q in stack ==> q.end < |xy|
    ensures StackMarks(xy, stack + [r], epsSq) == StackMarks(xy, stack, epsSq) + Marks(xy, r.start, r.end, epsSq)
  {
    assert r in stack + [r];
    assert forall q :: q in stack ==> q in stack + [r];
    assert (stack + [r])[..|stack|] == stack;
  }

  function Marked(keep: seq<bool>): set<nat> {
    set i | 0 <= i < |keep| && keep[i]
  }

  /** What is marked when all is done: both ends and what the recursive definition marks between them. */
  ghost function Kept(xy: seq<Point>, epsSq: real): set<nat>
    requires xy != []
  {
    {0, |xy| - 1} + Marks(xy, 0, |xy| - 1, epsSq)
  }

  predicate InBounds(xy: seq<Point>, stack: seq<Range>) {
    forall r :: r in stack ==> r.start < r.end < |xy|
  }

  /** The loop over the stack marks what the recursive definition marks. */
  method MarkKept(xy: seq<Point>, epsSq: real) returns (keep: array<bool>)
    requires |xy| >= 3 && epsSq >= 0.0
    ensures fresh(keep) && keep.Length == |xy| && Marked(keep[..]) == Kept(xy, epsSq)
  {
    hide Measure, Marks, StackMarks, SegDistSq;
    var n := |xy|;
    keep := new bool[n](_ => false);
    keep[0] := true;
    keep[n - 1] := true;
    var stack: seq<Range> := [Range(0, n - 1)];
    StackStarts(xy, epsSq);
    while stack != []
      invariant keep.Length == n && InBounds(xy, stack)
      invariant Marked(keep[..]) + StackMarks(xy, stack, epsSq) == Kept(xy, epsSq)
      decreases Measure(stack)
    {
      var r, rest := stack[|stack| - 1], stack[..|stack| - 1];
      assert stack == rest + [r] && r in stack;
      MeasurePush(rest, r);
      StackPush(xy, rest, r, epsSq);
      stack := rest;
      if r.end <= r.start + 1 {
        NoMarks(xy, r.start, r.end, epsSq);
        continue;
      }
      var best, bestSq := Farthest(xy, r.start, r.end);
      if bestSq > epsSq {
        ghost var before := keep[..];
        keep[best] := true;
        assert Marked(keep[..]) == Marked(before) + {best};
        MarksSplit(xy, r.start, r.end, best, epsSq);
        var left, right := Range(r.start, best), Range(best, r.end);
        stack := rest + [left] + [right];
        MeasurePush(rest, left);
        MeasurePush(rest + [left], right);
        StackPush(xy, rest, left, epsSq);
        StackPush(xy, rest + [left], right, epsSq);
      } else {
        NoMarks(xy, r.start, r.end, epsSq);
      }
    }
    NothingLeft(xy, epsSq);
  }

  lemma StackStarts(xy: seq<Point>, epsSq: real)
    requires xy != []
    ensures StackMarks(xy, [Range(0, |xy| - 1)], epsSq) == Marks(xy, 0, |xy| - 1, epsSq)
  {
    hide Marks;
    var r := Range(0, |xy| - 1);
    StackPush(xy, [], r, epsSq);
    assert [] + [r] == [r];
  }

  lemma NothingLeft(xy: seq<Point>, epsSq: real)
    ensures StackMarks(xy, [], epsSq) == {}
  {
  }

  // ---------------------------------------------------------------- what is marked

  /** `a` and `b` are marked and no vertex between them is. */
  ghost predicate Neighbours(marks: set<nat>, a: nat, b: nat) {
    a < b && a in marks && b in marks && forall i :: a < i < b ==> i !in marks
  }

  lemma {:induction false} FirstFarthest(xy: seq<Point>, a: nat, b: nat, end: nat) returns (m: nat)
    requires a + 1 < end <= b < |xy|
    ensures a < m < end
    ensures forall i :: a < i < end ==> SegDistSq(xy[i], xy[a], xy[b]) <= SegDistSq(xy[m], xy[a], xy[b])
    ensures forall i :: a < i < m ==> SegDistSq(xy[i], xy[a], xy[b]) < SegDistSq(xy[m], xy[a], xy[b])
  {
    hide SegDistSq;
    m := a + 1;
    if a + 2 < end {
      m := FirstFarthest(xy, a, b, end - 1);
      if SegDistSq(xy[end - 1], xy[a], xy[b]) > SegDistSq(xy[m], xy[a], xy[b]) {
        m := end - 1;
      }
    }
  }

  /** Nothing is marked between two vertices exactly when all there is near their segment. */
  lemma NothingMarkedIff(xy: seq<Point>, a: nat, b: nat, epsSq: real)
    requires a <= b < |xy|
    ensures Marks(xy, a, b, epsSq) == {} <==> AllNear(xy, a, b, epsSq)
  {
    hide SegDistSq;
    if AllNear(xy, a, b, epsSq) {
      NoMarks(xy, a, b, epsSq);
    } else {
      var m := FirstFarthest(xy, a, b, b);
      MarksSplit(xy, a, b, m, epsSq);
      assert m in Marks(xy, a, b, epsSq);
    }
  }

  /** Neighbours are on one side of a marked vertex. */
  lemma OneSide(a: nat, m: nat, b: nat, left: set<nat>, right: set<nat>, x: nat, y: nat)
    requires Neighbours({a, b} + (left + {m} + right), x, y) && a < m < b
    requires (forall i :: i in left ==> a < i < m) && forall i :: i in right ==> m < i < b
    ensures y <= m ==> Neighbours({a, m} + left, x, y)
    ensures y > m ==> Neighbours({m, b} + right, x, y)
  {
    assert m in {a, b} + (left + {m} + right);
  }

  /** Every vertex passed over is near the segment between the marked ones around it. */
  lemma {:induction false} GapsAreNear(xy: seq<Point>, a: nat, b: nat, epsSq: real, x: nat, y: nat)
    requires a < b < |xy| && Neighbours({a, b} + Marks(xy, a, b, epsSq), x, y)
    ensures AllNear(xy, x, y, epsSq)
    decreases b - a
  {
    hide SegDistSq;
    if m: nat :| SplitsAt(xy, a, b, m, epsSq) {
      MarksSplit(xy, a, b, m, epsSq);
      hide Marks, Neighbours, AllNear;
      OneSide(a, m, b, Marks(xy, a, m, epsSq), Marks(xy, m, b, epsSq), x, y);
      if y <= m {
        GapsAreNear(xy, a, m, epsSq, x, y);
      } else {
        GapsAreNear(xy, m, b, epsSq, x, y);
      }
    } else {
      assert x == a && y == b;
      NothingMarkedIff(xy, a, b, epsSq);
    }
  }

  /** Every marked vertex is where the range between two other marked ones is split. */
  lemma {:induction false} EachSplits(xy: seq<Point>, a: nat, b: nat, epsSq: real, m: nat) returns (x: nat, y: nat)
    requires a < b < |xy| && m in Marks(xy, a, b, epsSq)
    ensures x in {a, b} + Marks(xy, a, b, epsSq) && y in {a, b} + Marks(xy, a, b, epsSq)
    ensures y < |xy| && SplitsAt(xy, x, y, m, epsSq)
    decreases b - a
  {
    hide SegDistSq;
    var k: nat :| SplitsAt(xy, a, b, k, epsSq);
    MarksSplit(xy, a, b, k, epsSq);
    hide Marks;
    x, y := a, b;
    if m < k {
      x, y := EachSplits(xy, a, k, epsSq, m);
    } else if m > k {
      x, y := EachSplits(xy, k, b, epsSq, m);
    }
  }

  // ---------------------------------------------------------------- the simplified part

  /** The kept vertices, in order. */
  function Selected<T>(part: seq<T>, keep: seq<bool>): (r: seq<T>)
    requires |keep| == |part|
    ensures |r| <= |part|
  {
    if part == [] then []
    else if keep[|part| - 1] then Selected(part[..|part| - 1], keep[..|part| - 1]) + [part[|part| - 1]]
    else Selected(part[..|part| - 1], keep[..|part| - 1])
  }

  /** `at` names, in increasing order, where in `part` each vertex of `r` comes from. */
  ghost predicate Subsequence<T(!new)>(part: seq<T>, r: seq<T>, at: seq<nat>) {
    && |at| == |r|
    && (forall k :: 0 <= k < |at| ==> at[k] < |part| && r[k] == part[at[k]])
    && (forall j, k :: 0 <= j < k < |at| ==> at[j] < at[k])
  }

  lemma {:induction false} SelectedFrom<T(!new)>(part: seq<T>, keep: seq<bool>) returns (at: seq<nat>)
    requires |keep| == |part|
    ensures Subsequence(part, Selected(part, keep), at)
    ensures forall i: nat :: i < |part| ==> (keep[i] <==> i in at)
  {
    if part == [] {
      at := [];
    } else {
      hide Subsequence;
      var n := |part| - 1;
      at := SelectedFrom(part[..n], keep[..n]);
      assert part[..n] + [part[n]] == part && keep[..n] + [keep[n]] == keep;
      Extended(part[..n], part[n], Selected(part[..n], keep[..n]), at);
      assert forall i: nat :: i < n ==> keep[i] == keep[..n][i];
      if keep[n] {
        at := at + [n];
      }
    }
  }

  lemma Extended<T(!new)>(part: seq<T>, v: T, r: seq<T>, at: seq<nat>)
    requires Subsequence(part, r, at)
    ensures Subsequence(part + [v], r, at)
    ensures Subsequence(part + [v], r + [v], at + [|part|])
    ensures |part| !in at
  {
    assert forall k :: 0 <= k < |at| ==> at[k] < |part| && (part + [v])[at[k]] == part[at[k]];
  }

  /** Neighbours in the result were neighbouring marked vertices. */
  lemma NeighboursOf(marks: set<nat>, at: seq<nat>, k: nat)
    requires k + 1 < |at|
    requires forall i: nat :: i in marks <==> i in at
    requires forall i, j :: 0 <= i < j < |at| ==> at[i] < at[j]
    ensures Neighbours(marks, at[k], at[k + 1])
  {
    assert at[k] in at && at[k + 1] in at;
    forall i: nat | at[k] < i < at[k + 1]
      ensures i !in marks
    {
      assert forall j :: 0 <= j < |at| ==> at[j] <= at[k] || at[j] >= at[k + 1];
    }
  }

  /** The `k`-th is beyond the tolerance, and the first of the farthest, between the `i`-th and the `j`-th. */
  ghost predicate NeededBetween(xy: seq<Point>, at: seq<nat>, i: nat, k: nat, j: nat, epsSq: real) {
    i < k < j < |at| && at[j] < |xy| && SplitsAt(xy, at[i], at[j], at[k], epsSq)
  }

  ghost predicate Needed(xy: seq<Point>, at: seq<nat>, k: nat, epsSq: real) {
    exists i, j :: NeededBetween(xy, at, i, k, j, epsSq)
  }

  ghost predicate NearBetween(xy: seq<Point>, at: seq<nat>, k: nat, epsSq: real) {
    k + 1 < |at| && at[k] < at[k + 1] < |xy| && AllNear(xy, at[k], at[k + 1], epsSq)
  }

  /**
   * The vertices at `at` are a simplification: every vertex dropped is within the
   * tolerance of the segment joining those kept on either side of it; every one kept in
   * between is needed between two others; and if all are within the tolerance of the
   * segment joining the ends, only the ends are left.
   */
  ghost predicate Simplified(xy: seq<Point>, at: seq<nat>, epsSq: real) {
    && |at| >= 2 && at[0] == 0 && at[|at| - 1] == |xy| - 1
    && (forall k: nat :: k + 1 < |at| ==> NearBetween(xy, at, k, epsSq))
    && (forall k: nat :: 0 < k < |at| - 1 ==> Needed(xy, at, k, epsSq))
    && (|xy| >= 1 && AllNear(xy, 0, |xy| - 1, epsSq) ==> at == [0, |xy| - 1])
  }

  /** Simplifies one part, whose coordinates are compared in local metres. */
  method SimplifyPart(part: seq<Point>, scaleX: real, scaleY: real, eps: real)
    returns (r: seq<Point>, ghost at: seq<nat>)
    requires eps >= 0.0
    ensures Subsequence(part, r, at)
    ensures |part| < 3 ==> r == part
    ensures |part| >= 3 ==> Simplified(Scaled(part, scaleX, scaleY), at, Square(eps))
  {
    if |part| < 3 {
      r := part;
      at := seq(|part|, i => i);
      return;
    }
    hide Square;
    var xy, epsSq := Scaled(part, scaleX, scaleY), Square(eps);
    var keep := MarkKept(xy, epsSq);
    r := Selected(part, keep[..]);
    at := SelectedFrom(part, keep[..]);
    InOrder(part, r, at);
    hide *;
    MarksSimplify(xy, at, keep[..], epsSq);
  }

  lemma InOrder(part: seq<Point>, r: seq<Point>, at: seq<nat>)
    requires Subsequence(part, r, at)
    ensures forall i :: 0 <= i < |at| ==> at[i] < |part|
    ensures forall i, j :: 0 <= i < j < |at| ==> at[i] < at[j]
  {
  }

  lemma MarksSimplify(xy: seq<Point>, at: seq<nat>, keep: seq<bool>, epsSq: real)
    requires |xy| == |keep| >= 3 && Marked(keep) == Kept(xy, epsSq)
    requires forall i: nat :: i < |keep| ==> (keep[i] <==> i in at)
    requires forall i :: 0 <= i < |at| ==> at[i] < |xy|
    requires forall i, j :: 0 <= i < j < |at| ==> at[i] < at[j]
    ensures Simplified(xy, at, epsSq)
  {
    hide Marks, SplitsAt, AllNear;
    var marks, last := Kept(xy, epsSq), |xy| - 1;
    forall i: nat
      ensures i in marks <==> i in at
    {
      assert i in Marked(keep) <==> i < |xy| && keep[i];
    }
    EndsKept(at, marks, last);
    forall k: nat | k + 1 < |at|
      ensures NearBetween(xy, at, k, epsSq)
    {
      assert at[k] < at[k + 1];
      NeighboursOf(marks, at, k);
      GapsAreNear(xy, 0, last, epsSq, at[k], at[k + 1]);
    }
    forall k: nat | 0 < k < |at| - 1
      ensures Needed(xy, at, k, epsSq)
    {
      var i, j := EachNeeded(xy, at, marks, k, epsSq);
    }
    NothingMarkedIff(xy, 0, last, epsSq);
    if AllNear(xy, 0, last, epsSq) {
      OnlyEnds(at, last);
    }
  }

  /** Local metres: each coordinate times its own factor, fixed for the part. */
  function Scaled(part: seq<Point>, scaleX: real, scaleY: real): (r: seq<Point>)
    ensures |r| == |part|
    ensures forall i :: 0 <= i < |part| ==> r[i].x == scaleX * part[i].x && r[i].y == scaleY * part[i].y
  {
    seq(|part|, i requires 0 <= i < |part| => Point(scaleX * part[i].x, scaleY * part[i].y))
  }

  lemma EndsKept(at: seq<nat>, marks: set<nat>, last: nat)
    requires 0 < last && 0 in marks && last in marks && forall i :: i in marks ==> i <= last
    requires forall i: nat :: i in marks <==> i in at
    requires forall i, j :: 0 <= i < j < |at| ==> at[i] < at[j]
    ensures |at| >= 2 && at[0] == 0 && at[|at| - 1] == last
  {
    var i :| 0 <= i < |at| && at[i] == 0;
    var j :| 0 <= j < |at| && at[j] == last;
    assert i == 0;
    assert at[|at| - 1] in at;
    assert j == |at| - 1;
  }

  lemma EachNeeded(xy: seq<Point>, at: seq<nat>, marks: set<nat>, k: nat, epsSq: real) returns (i: nat, j: nat)
    requires |xy| >= 3 && marks == Kept(xy, epsSq)
    requires 0 < k < |at| - 1 && at[0] == 0 && at[|at| - 1] == |xy| - 1
    requires forall i: nat :: i in marks <==> i in at
    requires forall i, j :: 0 <= i < j < |at| ==> at[i] < at[j]
    ensures NeededBetween(xy, at, i, k, j, epsSq)
  {
    hide Marks;
    assert at[k] in at && at[k] in marks;
    var x, y := EachSplits(xy, 0, |xy| - 1, epsSq, at[k]);
    assert x < at[k] < y;
    hide SplitsAt;
    i :| i < |at| && at[i] == x;
    j :| j < |at| && at[j] == y;
    assert i < k < j;
  }

  lemma OnlyEnds(at: seq<nat>, last: nat)
    requires |at| >= 2 && at[0] == 0 && at[|at| - 1] == last
    requires forall i: nat :: i in at <==> i in {0, last}
    requires forall i, j :: 0 <= i < j < |at| ==> at[i] < at[j]
    ensures at == [0, last]
  {
    assert at[1] in at;
  }
}
