/** The line diff of internal/git/diffstat.go: the linear-space middle-snake search, the divide and
    conquer that counts a shortest edit script, and the notebook line rule. */
module DiffStat {
  import opened EditDistance

  // ---- Furthest-reaching diagonals ----

  predicate Near(k: int, d: int) { -d <= k <= d }

  /** Round d fills every second diagonal, counted down from d. */
  predicate Even(n: int)
    decreases if n < 0 then 0 else n
  {
    n == 0 || (n >= 2 && Even(n - 2))
  }

  lemma {:induction false} EvenIsMod(n: nat)
    ensures Even(n) <==> n % 2 == 0
  {
    if n >= 2 { EvenIsMod(n - 2); }
  }

  lemma NotBothEven(n: int)
    requires Even(n)
    ensures !Even(n - 1) && !Even(n + 1)
  {
    EvenIsMod(n);
    EvenIsMod(n + 1);
    if n > 0 { EvenIsMod(n - 1); }
  }

  /** Point x of diagonal k is reachable with at most d edits. */
  ghost predicate Within<T>(a: seq<T>, b: seq<T>, d: int, k: int, x: int)
  {
    0 <= x && k <= x && Cost(a, b, x, x - k) <= d
  }

  /** x is the furthest point of diagonal k reachable with at most d edits. */
  ghost predicate Furthest<T>(a: seq<T>, b: seq<T>, d: int, k: int, x: int)
  {
    Within(a, b, d, k, x) && NoneBeyond(a, b, d, k, x)
  }

  ghost predicate NoneBeyond<T>(a: seq<T>, b: seq<T>, d: int, k: int, x: int)
  {
    forall z :: Within(a, b, d, k, z) ==> z <= x
  }

  ghost predicate Holds<T>(a: seq<T>, b: seq<T>, d: int, offset: int, row: seq<int>, k: int)
  {
    0 <= offset + k < |row| && Furthest(a, b, d, k, row[offset + k])
  }

  /** The diagonals of round d below hi hold their furthest points. */
  ghost predicate RowTo<T>(a: seq<T>, b: seq<T>, d: int, offset: int, row: seq<int>, hi: int)
  {
    forall k :: Near(k, d) && k < hi && Even(d - k) ==> Holds(a, b, d, offset, row, k)
  }

  ghost predicate Row<T>(a: seq<T>, b: seq<T>, d: int, offset: int, row: seq<int>)
  {
    RowTo(a, b, d, offset, row, d + 1)
  }

  /** The lines between sx and x of diagonal k are pairwise equal. */
  ghost predicate Snake<T>(a: seq<T>, b: seq<T>, k: int, sx: int, x: int)
  {
    && 0 <= sx <= x && k <= sx
    && forall i :: sx <= i < x ==> SameAt(a, b, k, i)
  }

  ghost predicate SameAt<T>(a: seq<T>, b: seq<T>, k: int, i: int)
  {
    0 <= i < |a| && 0 <= i - k < |b| && a[i] == b[i - k]
  }

  /** A snake is free. */
  lemma {:induction false} SnakeCost<T>(a: seq<T>, b: seq<T>, k: int, sx: int, x: int)
    requires Snake(a, b, k, sx, x)
    ensures Cost(a, b, x, x - k) == Cost(a, b, sx, sx - k)
    decreases x
  {
    if sx < x {
      SnakeCost(a, b, k, sx, x - 1);
      assert SameAt(a, b, k, x - 1);
    }
  }

  /** Extending the better neighbour of round d - 1 along its snake reaches as far as d edits can. */
  lemma {:induction false} NothingFurther<T>(a: seq<T>, b: seq<T>, d: int, k: int, sx: int, x: int, z: int)
    requires 0 <= sx <= x && k <= sx
    requires NoneBeyond(a, b, d - 1, k - 1, sx - 1)
    requires NoneBeyond(a, b, d - 1, k + 1, sx)
    requires !(x < |a| && x - k < |b| && a[x] == b[x - k])
    requires Within(a, b, d, k, z)
    ensures z <= x
    decreases z
  {
    var y := z - k;
    if z > 0 && y > 0 {
      if Match(a, b, z, y) {
        NothingFurther(a, b, d, k, sx, x, z - 1);
      } else if Cost(a, b, z - 1, y) <= Cost(a, b, z, y - 1) {
        assert Within(a, b, d - 1, k - 1, z - 1);
      } else {
        assert Within(a, b, d - 1, k + 1, z);
      }
    }
  }

  lemma FurthestNext<T>(a: seq<T>, b: seq<T>, d: int, k: int, sx: int, x: int)
    requires Within(a, b, d, k, sx) && Snake(a, b, k, sx, x)
    requires NoneBeyond(a, b, d - 1, k - 1, sx - 1)
    requires NoneBeyond(a, b, d - 1, k + 1, sx)
    requires !(x < |a| && x - k < |b| && a[x] == b[x - k])
    ensures Furthest(a, b, d, k, x)
  {
    SnakeCost(a, b, k, sx, x);
    forall z | Within(a, b, d, k, z) ensures z <= x {
      NothingFurther(a, b, d, k, sx, x, z);
    }
  }

  /** The start of diagonal k in round d: the neighbour that is further, a deletion before an
      insertion. */
  function Start(row: seq<int>, offset: int, d: int, k: int): int
    requires Near(k, d) && 1 <= offset + k < |row| - 1
  {
    if k == -d || (k != d && row[offset + k - 1] < row[offset + k + 1]) then row[offset + k + 1]
    else row[offset + k - 1] + 1
  }

  /** No point of a diagonal further out than d is reachable with d edits. */
  lemma OutOfReach<T>(a: seq<T>, b: seq<T>, d: int, k: int, x: int)
    requires k < -d || d < k
    ensures NoneBeyond(a, b, d, k, x)
  {
    forall z | Within(a, b, d, k, z) ensures z <= x {
      CostBounds(a, b, z, z - k);
    }
  }

  lemma StartDominates<T>(a: seq<T>, b: seq<T>, row: seq<int>, offset: int, d: int, k: int)
    requires Near(k, d) && Even(d - k) && 1 <= offset + k < |row| - 1
    requires Row(a, b, d - 1, offset, row)
    requires d == 0 ==> row[offset + 1] == 0
    ensures Within(a, b, d, k, Start(row, offset, d, k))
    ensures NoneBeyond(a, b, d - 1, k - 1, Start(row, offset, d, k) - 1)
    ensures NoneBeyond(a, b, d - 1, k + 1, Start(row, offset, d, k))
  {
    var sx := Start(row, offset, d, k);
    if k == -d {
      OutOfReach(a, b, d - 1, k - 1, sx - 1);
    } else {
      EvenIsMod(d - k);
      assert Even((d - 1) - (k - 1)) by { assert (d - 1) - (k - 1) == d - k; }
      assert Holds(a, b, d - 1, offset, row, k - 1);
      StepRight(a, b, d - 1, k - 1, row[offset + k - 1]);
    }
    if k == d {
      OutOfReach(a, b, d - 1, k + 1, sx);
    } else {
      assert Even((d - 1) - (k + 1)) by { assert (d - 1) - (k + 1) == d - k - 2; }
      assert Holds(a, b, d - 1, offset, row, k + 1);
      StepDown(a, b, d - 1, k + 1, row[offset + k + 1]);
    }
  }

  lemma StepRight<T>(a: seq<T>, b: seq<T>, d: int, k: int, x: int)
    requires Within(a, b, d, k, x)
    ensures Within(a, b, d + 1, k + 1, x + 1)
  {
    UnitMoves(a, b, x, x - k);
  }

  lemma StepDown<T>(a: seq<T>, b: seq<T>, d: int, k: int, x: int)
    requires Within(a, b, d, k, x)
    ensures Within(a, b, d + 1, k - 1, x)
  {
    UnitMoves(a, b, x, x - k);
  }

  // ---- The first overlap ----

  /** On a diagonal close enough to the far corner, a point cheap enough lies inside the grid. */
  lemma InGrid<T>(a: seq<T>, b: seq<T>, d: int, e: int, k: int, x: int)
    requires 0 <= d && 0 <= e && d + e <= Dist(a, b)
    requires Within(a, b, d, k, x) && Near(|a| - |b| - k, e)
    ensures x <= |a| && x - k <= |b|
  {
    var y := x - k;
    if x > |a| {
      BeyondRight(a, b, x, y);
      if y > |b| { BeyondBelow(a, b, |a|, y); } else { Through(a, b, |a|, y); }
    } else if y > |b| {
      BeyondBelow(a, b, x, y);
      Through(a, b, x, |b|);
    }
  }

  /** The snake at the first overlap lies on a cheapest path. */
  lemma OverlapIsMiddle<T>(a: seq<T>, b: seq<T>, d: int, e: int, k: int, sx: int, x: int, w: int)
    requires 0 <= d && 0 <= e && d + e <= Dist(a, b)
    requires Near(k, d) && Near(|a| - |b| - k, e)
    requires Snake(a, b, k, sx, x) && Within(a, b, d, k, x)
    requires Within(Rev(a), Rev(b), e, |a| - |b| - k, w)
    requires x + w >= |a|
    ensures x <= |a| && x - k <= |b|
    ensures Dist(a[..sx], b[..sx - k]) == d
    ensures Dist(a[x..], b[x - k..]) == e
    ensures d + e == Dist(a, b)
  {
    OverlapCosts(a, b, d, e, k, x, w);
    SnakeCost(a, b, k, sx, x);
    DistOfPrefix(a, b, sx, sx - k);
    DistOfSuffix(a, b, x, x - k);
  }

  lemma OverlapCosts<T>(a: seq<T>, b: seq<T>, d: int, e: int, k: int, x: int, w: int)
    requires 0 <= d && 0 <= e && d + e <= Dist(a, b)
    requires Near(k, d) && Near(|a| - |b| - k, e)
    requires Within(a, b, d, k, x) && Within(Rev(a), Rev(b), e, |a| - |b| - k, w)
    requires x + w >= |a|
    ensures x <= |a| && x - k <= |b|
    ensures Cost(a, b, x, x - k) == d
    ensures Cost(Rev(a), Rev(b), |a| - x, |b| - (x - k)) == e
    ensures d + e == Dist(a, b)
  {
    InGrid(a, b, d, e, k, x);
    assert w <= |a| by {
      DistRev(a, b);
      InGrid(Rev(a), Rev(b), e, d, |a| - |b| - k, w);
    }
    DiagonalMonotoneBy(Rev(a), Rev(b), |a| - x, |b| - (x - k), x + w - |a|);
    Through(a, b, x, x - k);
  }

  /** The forward and backward rows overlap on diagonal k. */
  ghost predicate Overlap(n: int, delta: int, offset: int, fwd: seq<int>, bwd: seq<int>, k: int)
  {
    && 0 <= offset + k < |fwd| && 0 <= offset + delta - k < |bwd|
    && fwd[offset + k] + bwd[offset + delta - k] >= n
  }

  /** Once the two rounds together can pay for the distance, some diagonal in range overlaps. */
  lemma OverlapExists<T>(a: seq<T>, b: seq<T>, d: int, e: int, offset: int, fwd: seq<int>, bwd: seq<int>)
    returns (k: int)
    requires Row(a, b, d, offset, fwd) && Row(Rev(a), Rev(b), e, offset, bwd)
    requires 0 <= d && 0 <= e && d + e == Dist(a, b)
    ensures Near(k, d) && Even(d - k)
    ensures Near(|a| - |b| - k, e)
    ensures Overlap(|a|, |a| - |b|, offset, fwd, bwd, k)
  {
    var x: int, y: int := OnCheapestPath(a, b, d);
    k := x - y;
    assert Near(k, d) && Even(d - k) by {
      CostBounds(a, b, x, y);
      CostParity(a, b, x, y);
      EvenIsMod(d - k);
    }
    assert Holds(a, b, d, offset, fwd, k);
    assert Within(a, b, d, k, x);
    RowCovers(Rev(a), Rev(b), e, offset, bwd, |a| - x, |b| - y);
  }

  lemma RowCovers<T>(a: seq<T>, b: seq<T>, d: int, offset: int, row: seq<int>, x: int, y: int)
    requires Row(a, b, d, offset, row)
    requires 0 <= x && 0 <= y && Cost(a, b, x, y) == d
    ensures Near(x - y, d)
    ensures 0 <= offset + (x - y) < |row| && x <= row[offset + (x - y)]
  {
    assert Near(x - y, d) && Even(d - (x - y)) by {
      CostBounds(a, b, x, y);
      CostParity(a, b, x, y);
      EvenIsMod(d - (x - y));
    }
    assert Holds(a, b, d, offset, row, x - y);
    assert Within(a, b, d, x - y, x);
  }

  /** Non-empty, with different first and different last lines. */
  ghost predicate Trimmed<T>(a: seq<T>, b: seq<T>)
  {
    && |a| > 0 && |b| > 0
    && a[0] != b[0] && a[|a| - 1] != b[|b| - 1]
  }

  /** (x, y) to (u, v) is a run of equal lines that splits a cheapest path into two smaller boxes. */
  ghost predicate MiddleSnakeOf<T>(a: seq<T>, b: seq<T>, x: int, y: int, u: int, v: int)
  {
    && 0 <= x <= u <= |a| && 0 <= y <= v <= |b|
    && a[x..u] == b[y..v]
    && Dist(a[..x], b[..y]) + Dist(a[u..], b[v..]) == Dist(a, b)
    && x + y < |a| + |b| && 0 < u + v
  }

  lemma SnakeRun<T>(a: seq<T>, b: seq<T>, k: int, sx: int, x: int)
    requires Snake(a, b, k, sx, x) && x <= |a| && x - k <= |b|
    ensures a[sx..x] == b[sx - k..x - k]
  {
    forall i | 0 <= i < x - sx ensures a[sx..x][i] == b[sx - k..x - k][i] {
      assert SameAt(a, b, k, sx + i);
    }
  }

  lemma ForwardHit<T>(a: seq<T>, b: seq<T>, d: int, e: int, k: int, sx: int, x: int, w: int)
    requires Trimmed(a, b) && d <= e + 1 && 0 <= e <= d && d + e <= Dist(a, b)
    requires Near(k, d) && Near(|a| - |b| - k, e)
    requires Snake(a, b, k, sx, x) && Within(a, b, d, k, x)
    requires Within(Rev(a), Rev(b), e, |a| - |b| - k, w)
    requires x + w >= |a|
    ensures MiddleSnakeOf(a, b, sx, sx - k, x, x - k)
  {
    OverlapIsMiddle(a, b, d, e, k, sx, x, w);
    TrimmedDist(a, b);
    SnakeRun(a, b, k, sx, x);
    BothBoxesSmaller(a, b, d, e, sx, sx - k, x, x - k);
  }

  /** Neither of two balanced boxes is the whole grid. */
  lemma BothBoxesSmaller<T>(a: seq<T>, b: seq<T>, d: int, e: int, x: int, y: int, u: int, v: int)
    requires 0 <= x <= u <= |a| && 0 <= y <= v <= |b| && 0 <= e <= d <= e + 1 && d + e == Dist(a, b) && Dist(a, b) >= 2
    requires Dist(a[..x], b[..y]) == d && Dist(a[u..], b[v..]) == e
    ensures x + y < |a| + |b| && 0 < u + v
  {
    assert a[..|a|] == a && b[..|b|] == b && a[0..] == a && b[0..] == b;
  }

  lemma BackwardHit<T>(a: seq<T>, b: seq<T>, d: int, k: int, sx: int, x: int, w: int)
    requires Trimmed(a, b) && 0 <= d && d + d <= Dist(a, b)
    requires Near(k, d) && Near(|a| - |b| - k, d)
    requires Snake(Rev(a), Rev(b), k, sx, x) && Within(Rev(a), Rev(b), d, k, x)
    requires Within(a, b, d, |a| - |b| - k, w)
    requires x + w >= |a|
    ensures x <= |a| && x - k <= |b|
    ensures MiddleSnakeOf(a, b, |a| - x, |b| - (x - k), |a| - sx, |b| - (sx - k))
  {
    ReversedHit(a, b, d, k, sx, x, w);
    FlipSnake(a, b, sx, sx - k, x, x - k);
  }

  lemma ReversedHit<T>(a: seq<T>, b: seq<T>, d: int, k: int, sx: int, x: int, w: int)
    requires Trimmed(a, b) && 0 <= d && d + d <= Dist(a, b)
    requires Near(k, d) && Near(|a| - |b| - k, d)
    requires Snake(Rev(a), Rev(b), k, sx, x) && Within(Rev(a), Rev(b), d, k, x)
    requires Within(a, b, d, |a| - |b| - k, w)
    requires x + w >= |a|
    ensures MiddleSnakeOf(Rev(a), Rev(b), sx, sx - k, x, x - k)
  {
    ReversedBox(a, b, d, |a| - |b| - k, w);
    ForwardHit(Rev(a), Rev(b), d, d, k, sx, x, w);
  }

  lemma ReversedBox<T>(a: seq<T>, b: seq<T>, d: int, k: int, w: int)
    requires Trimmed(a, b) && Within(a, b, d, k, w)
    ensures Trimmed(Rev(a), Rev(b)) && Dist(Rev(a), Rev(b)) == Dist(a, b) && Within(Rev(Rev(a)), Rev(Rev(b)), d, k, w)
  {
    DistRev(a, b);
    RevRev(a);
    RevRev(b);
  }

  lemma FlipSnake<T>(a: seq<T>, b: seq<T>, x: nat, y: nat, u: nat, v: nat)
    requires MiddleSnakeOf(Rev(a), Rev(b), x, y, u, v)
    ensures MiddleSnakeOf(a, b, |a| - u, |b| - v, |a| - x, |b| - y)
  {
    var n, m := |a|, |b|;
    assert Dist(a[n - x..], b[m - y..]) == Dist(Rev(a)[..x], Rev(b)[..y]) by {
      DistRev(a[n - x..], b[m - y..]);
      RevSuffix(a, n - x);
      RevSuffix(b, m - y);
    }
    assert Dist(a[..n - u], b[..m - v]) == Dist(Rev(a)[u..], Rev(b)[v..]) by {
      DistRev(a[..n - u], b[..m - v]);
      RevPrefix(a, n - u);
      RevPrefix(b, m - v);
    }
    FlipRun(a, b, x, y, u, v);
    DistRev(a, b);
  }

  lemma FlipRun<T>(a: seq<T>, b: seq<T>, x: nat, y: nat, u: nat, v: nat)
    requires x <= u <= |a| && y <= v <= |b| && Rev(a)[x..u] == Rev(b)[y..v]
    ensures a[|a| - u..|a| - x] == b[|b| - v..|b| - y]
  {
    var t, p, q := u - x, a[|a| - u..|a| - x], b[|b| - v..|b| - y];
    assert |Rev(a)[x..u]| == |Rev(b)[y..v]|;
    forall i | 0 <= i < t ensures p[i] == q[i] {
      assert Rev(a)[x..u][t - 1 - i] == Rev(b)[y..v][t - 1 - i];
    }
  }

  // ---- The search ----

  /** One forward diagonal: pick the start, run the snake, record its end. */
  method ExtendForward<T(==)>(a: seq<T>, b: seq<T>, vf: array<int>, offset: int, d: int, k: int)
    returns (sx: int, x: int)
    requires Near(k, d) && Even(d - k) && d < offset && vf.Length == 2 * offset + 1
    requires Row(a, b, d - 1, offset, vf[..])
    requires d == 0 ==> vf[offset + 1] == 0
    modifies vf
    ensures vf[..] == old(vf[..])[offset + k := x]
    ensures Snake(a, b, k, sx, x) && Furthest(a, b, d, k, x)
  {
    StartDominates(a, b, vf[..], offset, d, k);
    if k == -d || (k != d && vf[offset + k - 1] < vf[offset + k + 1]) {
      sx := vf[offset + k + 1];
    } else {
      sx := vf[offset + k - 1] + 1;
    }
    assert sx == Start(vf[..], offset, d, k);
    x := sx;
    var y := sx - k;
    while x < |a| && y < |b| && a[x] == b[y]
      invariant y == x - k && Snake(a, b, k, sx, x)
      decreases |a| - x
    {
      x, y := x + 1, y + 1;
    }
    FurthestNext(a, b, d, k, sx, x);
    vf[offset + k] := x;
  }

  /** One backward diagonal, measured as distances from the end. */
  method ExtendBackward<T(==)>(a: seq<T>, b: seq<T>, vb: array<int>, offset: int, d: int, k: int)
    returns (sx: int, x: int)
    requires Near(k, d) && Even(d - k) && d < offset && vb.Length == 2 * offset + 1
    requires Row(Rev(a), Rev(b), d - 1, offset, vb[..])
    requires d == 0 ==> vb[offset + 1] == 0
    modifies vb
    ensures vb[..] == old(vb[..])[offset + k := x]
    ensures Snake(Rev(a), Rev(b), k, sx, x) && Furthest(Rev(a), Rev(b), d, k, x)
  {
    ghost var ra, rb := Rev(a), Rev(b);
    StartDominates(ra, rb, vb[..], offset, d, k);
    if k == -d || (k != d && vb[offset + k - 1] < vb[offset + k + 1]) {
      sx := vb[offset + k + 1];
    } else {
      sx := vb[offset + k - 1] + 1;
    }
    assert sx == Start(vb[..], offset, d, k);
    x := sx;
    var y := sx - k;
    var n, m := |a|, |b|;
    while x < n && y < m && a[n - 1 - x] == b[m - 1 - y]
      invariant y == x - k && Snake(ra, rb, k, sx, x)
      decreases n - x
    {
      assert ra[x] == a[n - 1 - x] && rb[y] == b[m - 1 - y];
      x, y := x + 1, y + 1;
    }
    FurthestNext(ra, rb, d, k, sx, x);
    vb[offset + k] := x;
  }

  lemma RowGrows<T>(a: seq<T>, b: seq<T>, d: int, offset: int, row: seq<int>, k: int, x: int)
    requires 0 <= offset + k < |row| && Even(d - k)
    requires RowTo(a, b, d, offset, row, k) && Row(a, b, d - 1, offset, row)
    requires Furthest(a, b, d, k, x)
    ensures RowTo(a, b, d, offset, row[offset + k := x], k + 2)
    ensures Row(a, b, d - 1, offset, row[offset + k := x])
  {
    var next := row[offset + k := x];
    NotBothEven(d - k);
    forall j | Near(j, d) && j < k + 2 && Even(d - j) ensures Holds(a, b, d, offset, next, j) {
      if j < k { assert Holds(a, b, d, offset, row, j); }
    }
    var c := d - 1;
    forall j | Near(j, c) && Even(c - j) ensures Holds(a, b, c, offset, next, j) {
      assert Holds(a, b, c, offset, row, j);
    }
  }

  /** No diagonal of round d below hi that lies within e of the far corner overlaps. */
  ghost predicate ApartTo(n: int, delta: int, offset: int, fwd: seq<int>, bwd: seq<int>, d: int, e: int, hi: int)
  {
    forall k :: Near(k, d) && k < hi && Even(d - k) && Near(delta - k, e) ==> !Overlap(n, delta, offset, fwd, bwd, k)
  }

  /** Two rounds without an overlap cannot pay for the distance. */
  lemma ApartMeansFar<T>(a: seq<T>, b: seq<T>, d: int, e: int, offset: int, fwd: seq<int>, bwd: seq<int>)
    requires 0 <= e <= d
    requires Row(a, b, d, offset, fwd) && Row(Rev(a), Rev(b), e, offset, bwd)
    requires ApartTo(|a|, |a| - |b|, offset, fwd, bwd, d, e, d + 1)
    ensures d + e != Dist(a, b)
  {
    if d + e == Dist(a, b) {
      var k := OverlapExists(a, b, d, e, offset, fwd, bwd);
    }
  }

  /** The same, seen from the backward rows. */
  lemma OverlapExistsBackward<T>(a: seq<T>, b: seq<T>, d: int, offset: int, fwd: seq<int>, bwd: seq<int>)
    returns (k: int)
    requires Row(a, b, d, offset, fwd) && Row(Rev(a), Rev(b), d, offset, bwd)
    requires 0 <= d && d + d == Dist(a, b)
    ensures Near(k, d) && Even(d - k)
    ensures Near(|a| - |b| - k, d)
    ensures Overlap(|a|, |a| - |b|, offset, bwd, fwd, k)
  {
    var j := OverlapExists(a, b, d, d, offset, fwd, bwd);
    k := |a| - |b| - j;
    CostParity(a, b, |a|, |b|);
    EvenIsMod(d - j);
    EvenIsMod(d - k);
  }

  lemma ApartMeansFarBackward<T>(a: seq<T>, b: seq<T>, d: int, offset: int, fwd: seq<int>, bwd: seq<int>)
    requires 0 <= d
    requires Row(a, b, d, offset, fwd) && Row(Rev(a), Rev(b), d, offset, bwd)
    requires ApartTo(|a|, |a| - |b|, offset, bwd, fwd, d, d, d + 1)
    ensures d + d != Dist(a, b)
  {
    if d + d == Dist(a, b) {
      var k := OverlapExistsBackward(a, b, d, offset, fwd, bwd);
    }
  }

  /** The partner of a filled diagonal is filled in the round the overlap test reads. */
  lemma PartnerParity(d: int, k: int, delta: int)
    requires Even(d - k)
    ensures delta % 2 != 0 && Near(delta - k, d - 1) ==> Even((d - 1) - (delta - k))
    ensures delta % 2 == 0 && Near(delta - k, d) ==> Even(d - (delta - k))
  {
    EvenIsMod(d - k);
    if Near(delta - k, d - 1) { EvenIsMod((d - 1) - (delta - k)); }
    if Near(delta - k, d) { EvenIsMod(d - (delta - k)); }
  }

  lemma ForwardRowHit<T>(a: seq<T>, b: seq<T>, d: int, offset: int, bwd: seq<int>, k: int, sx: int, x: int)
    requires Trimmed(a, b) && 0 <= d - 1 && 2 * d - 1 <= Dist(a, b)
    requires Near(k, d) && Near(|a| - |b| - k, d - 1) && Even((d - 1) - (|a| - |b| - k))
    requires Snake(a, b, k, sx, x) && Furthest(a, b, d, k, x)
    requires Row(Rev(a), Rev(b), d - 1, offset, bwd)
    requires 0 <= offset + |a| - |b| - k < |bwd| && x + bwd[offset + |a| - |b| - k] >= |a|
    ensures MiddleSnakeOf(a, b, sx, sx - k, x, x - k)
  {
    assert Holds(Rev(a), Rev(b), d - 1, offset, bwd, |a| - |b| - k);
    ForwardHit(a, b, d, d - 1, k, sx, x, bwd[offset + |a| - |b| - k]);
  }

  lemma BackwardRowHit<T>(a: seq<T>, b: seq<T>, d: int, offset: int, fwd: seq<int>, k: int, sx: int, x: int)
    requires Trimmed(a, b) && 0 <= d && 2 * d <= Dist(a, b)
    requires Near(k, d) && Near(|a| - |b| - k, d) && Even(d - (|a| - |b| - k))
    requires Snake(Rev(a), Rev(b), k, sx, x) && Furthest(Rev(a), Rev(b), d, k, x)
    requires Row(a, b, d, offset, fwd)
    requires 0 <= offset + |a| - |b| - k < |fwd| && x + fwd[offset + |a| - |b| - k] >= |a|
    ensures x <= |a| && x - k <= |b|
    ensures MiddleSnakeOf(a, b, |a| - x, |b| - (x - k), |a| - sx, |b| - (sx - k))
  {
    assert Holds(a, b, d, offset, fwd, |a| - |b| - k);
    BackwardHit(a, b, d, k, sx, x, fwd[offset + |a| - |b| - k]);
  }

  lemma ApartGrows(n: int, delta: int, offset: int, fwd: seq<int>, bwd: seq<int>, d: int, e: int, k: int, x: int)
    requires 0 <= offset + k < |fwd| && Even(d - k)
    requires ApartTo(n, delta, offset, fwd, bwd, d, e, k)
    requires Near(delta - k, e) ==> !Overlap(n, delta, offset, fwd[offset + k := x], bwd, k)
    ensures ApartTo(n, delta, offset, fwd[offset + k := x], bwd, d, e, k + 2)
  {
    var next := fwd[offset + k := x];
    NotBothEven(d - k);
    forall j | Near(j, d) && j < k + 2 && Even(d - j) && Near(delta - j, e)
      ensures !Overlap(n, delta, offset, next, bwd, j)
    {
      if j < k { assert !Overlap(n, delta, offset, fwd, bwd, j); }
    }
  }

  /** The overlap test of an odd search, on the rows it reads. */
  predicate ForwardMeets(n: int, delta: int, offset: int, fwd: seq<int>, bwd: seq<int>, d: int, k: int)
    requires |fwd| == |bwd| == 2 * offset + 1 && Near(k, d) && d < offset
  {
    k >= delta - (d - 1) && k <= delta + (d - 1) && fwd[offset + k] + bwd[offset + delta - k] >= n
  }

  /** What one forward diagonal establishes: its own entry of the row and, in an odd search, a middle
      snake or one more diagonal without an overlap. */
  lemma ForwardStep<T>(a: seq<T>, b: seq<T>, d: int, offset: int, before: seq<int>, fwd: seq<int>, bwd: seq<int>,
                       k: int, sx: int, x: int)
    requires Trimmed(a, b) && 0 <= d < offset && |before| == |bwd| == 2 * offset + 1 && Near(k, d) && Even(d - k)
    requires fwd == before[offset + k := x] && RowTo(a, b, d, offset, before, k) && Row(a, b, d - 1, offset, before)
    requires Row(Rev(a), Rev(b), d - 1, offset, bwd) && Snake(a, b, k, sx, x) && Furthest(a, b, d, k, x)
    requires (|a| - |b|) % 2 != 0 ==>
              2 * d - 1 <= Dist(a, b) && ApartTo(|a|, |a| - |b|, offset, before, bwd, d, d - 1, k)
    ensures RowTo(a, b, d, offset, fwd, k + 2) && Row(a, b, d - 1, offset, fwd)
    ensures (|a| - |b|) % 2 != 0 ==>
              if ForwardMeets(|a|, |a| - |b|, offset, fwd, bwd, d, k) then MiddleSnakeOf(a, b, sx, sx - k, x, x - k)
              else ApartTo(|a|, |a| - |b|, offset, fwd, bwd, d, d - 1, k + 2)
  {
    RowGrows(a, b, d, offset, before, k, x);
    if (|a| - |b|) % 2 != 0 { ForwardOutcome(a, b, d, offset, before, bwd, k, sx, x); }
  }

  lemma ForwardOutcome<T>(a: seq<T>, b: seq<T>, d: int, offset: int, before: seq<int>, bwd: seq<int>, k: int, sx: int,
                          x: int)
    requires Trimmed(a, b) && 0 <= d < offset && |before| == |bwd| == 2 * offset + 1 && Near(k, d) && Even(d - k)
    requires Row(Rev(a), Rev(b), d - 1, offset, bwd) && Snake(a, b, k, sx, x) && Furthest(a, b, d, k, x)
    requires (|a| - |b|) % 2 != 0 && 2 * d - 1 <= Dist(a, b)
    requires ApartTo(|a|, |a| - |b|, offset, before, bwd, d, d - 1, k)
    ensures var fwd := before[offset + k := x];
            if ForwardMeets(|a|, |a| - |b|, offset, fwd, bwd, d, k) then MiddleSnakeOf(a, b, sx, sx - k, x, x - k)
            else ApartTo(|a|, |a| - |b|, offset, fwd, bwd, d, d - 1, k + 2)
  {
    var fwd := before[offset + k := x];
    if ForwardMeets(|a|, |a| - |b|, offset, fwd, bwd, d, k) {
      ForwardMeeting(a, b, d, offset, fwd, bwd, k, sx, x);
    } else {
      ApartGrows(|a|, |a| - |b|, offset, before, bwd, d, d - 1, k, x);
    }
  }

  lemma ForwardMeeting<T>(a: seq<T>, b: seq<T>, d: int, offset: int, fwd: seq<int>, bwd: seq<int>, k: int, sx: int,
                          x: int)
    requires Trimmed(a, b) && 0 <= d < offset && |fwd| == |bwd| == 2 * offset + 1 && Near(k, d) && Even(d - k)
    requires fwd[offset + k] == x && ForwardMeets(|a|, |a| - |b|, offset, fwd, bwd, d, k)
    requires Row(Rev(a), Rev(b), d - 1, offset, bwd) && Snake(a, b, k, sx, x) && Furthest(a, b, d, k, x)
    requires (|a| - |b|) % 2 != 0 && 2 * d - 1 <= Dist(a, b)
    ensures MiddleSnakeOf(a, b, sx, sx - k, x, x - k)
  {
    PartnerParity(d, k, |a| - |b|);
    ForwardRowHit(a, b, d, offset, bwd, k, sx, x);
  }

  /** One forward diagonal and the overlap test of an odd search. */
  method ForwardDiagonal<T(==)>(a: seq<T>, b: seq<T>, vf: array<int>, vb: array<int>, offset: int, d: int, k: int)
    returns (found: bool, x: int, y: int, u: int, v: int)
    requires Trimmed(a, b) && 0 <= d < offset && vf != vb && vf.Length == vb.Length == 2 * offset + 1
    requires Near(k, d) && Even(d - k)
    requires RowTo(a, b, d, offset, vf[..], k) && Row(a, b, d - 1, offset, vf[..])
    requires Row(Rev(a), Rev(b), d - 1, offset, vb[..])
    requires d == 0 ==> vf[offset + 1] == 0
    requires (|a| - |b|) % 2 != 0 ==>
              2 * d - 1 <= Dist(a, b) && ApartTo(|a|, |a| - |b|, offset, vf[..], vb[..], d, d - 1, k)
    modifies vf
    ensures RowTo(a, b, d, offset, vf[..], k + 2) && Row(a, b, d - 1, offset, vf[..])
    ensures found ==> MiddleSnakeOf(a, b, x, y, u, v)
    ensures !found && (|a| - |b|) % 2 != 0 ==> ApartTo(|a|, |a| - |b|, offset, vf[..], vb[..], d, d - 1, k + 2)
  {
    var n := |a|;
    var delta := n - |b|;
    var odd := delta % 2 != 0;
    ghost var before, bwd := vf[..], vb[..];
    x, u := ExtendForward(a, b, vf, offset, d, k);
    y, v := x - k, u - k;
    ForwardStep(a, b, d, offset, before, vf[..], bwd, k, x, u);
    found := odd && k >= delta - (d - 1) && k <= delta + (d - 1) && vf[offset + k] + vb[offset + delta - k] >= n;
    assert odd ==> found == ForwardMeets(n, delta, offset, vf[..], bwd, d, k);
  }

  predicate BackwardMeets(n: int, delta: int, offset: int, bwd: seq<int>, fwd: seq<int>, d: int, k: int)
    requires |fwd| == |bwd| == 2 * offset + 1 && Near(k, d) && d < offset
  {
    k >= delta - d && k <= delta + d && bwd[offset + k] + fwd[offset + delta - k] >= n
  }

  /** What one backward diagonal establishes. */
  lemma BackwardStep<T>(a: seq<T>, b: seq<T>, d: int, offset: int, before: seq<int>, bwd: seq<int>, fwd: seq<int>,
                        k: int, sx: int, x: int)
    requires Trimmed(a, b) && 0 <= d < offset && |before| == |fwd| == 2 * offset + 1 && Near(k, d) && Even(d - k)
    requires bwd == before[offset + k := x] && RowTo(Rev(a), Rev(b), d, offset, before, k)
    requires Row(Rev(a), Rev(b), d - 1, offset, before)
    requires Row(a, b, d, offset, fwd) && Snake(Rev(a), Rev(b), k, sx, x) && Furthest(Rev(a), Rev(b), d, k, x)
    requires (|a| - |b|) % 2 == 0 ==> 2 * d <= Dist(a, b) && ApartTo(|a|, |a| - |b|, offset, before, fwd, d, d, k)
    ensures RowTo(Rev(a), Rev(b), d, offset, bwd, k + 2) && Row(Rev(a), Rev(b), d - 1, offset, bwd)
    ensures (|a| - |b|) % 2 == 0 ==>
              if BackwardMeets(|a|, |a| - |b|, offset, bwd, fwd, d, k)
              then MiddleSnakeOf(a, b, |a| - x, |b| - (x - k), |a| - sx, |b| - (sx - k))
              else ApartTo(|a|, |a| - |b|, offset, bwd, fwd, d, d, k + 2)
  {
    RowGrows(Rev(a), Rev(b), d, offset, before, k, x);
    if (|a| - |b|) % 2 == 0 { BackwardOutcome(a, b, d, offset, before, fwd, k, sx, x); }
  }

  lemma BackwardOutcome<T>(a: seq<T>, b: seq<T>, d: int, offset: int, before: seq<int>, fwd: seq<int>, k: int,
                           sx: int, x: int)
    requires Trimmed(a, b) && 0 <= d < offset && |before| == |fwd| == 2 * offset + 1 && Near(k, d) && Even(d - k)
    requires Row(a, b, d, offset, fwd) && Snake(Rev(a), Rev(b), k, sx, x) && Furthest(Rev(a), Rev(b), d, k, x)
    requires (|a| - |b|) % 2 == 0 && 2 * d <= Dist(a, b) && ApartTo(|a|, |a| - |b|, offset, before, fwd, d, d, k)
    ensures var bwd := before[offset + k := x];
            if BackwardMeets(|a|, |a| - |b|, offset, bwd, fwd, d, k)
            then MiddleSnakeOf(a, b, |a| - x, |b| - (x - k), |a| - sx, |b| - (sx - k))
            else ApartTo(|a|, |a| - |b|, offset, bwd, fwd, d, d, k + 2)
  {
    var bwd := before[offset + k := x];
    if BackwardMeets(|a|, |a| - |b|, offset, bwd, fwd, d, k) {
      BackwardMeeting(a, b, d, offset, bwd, fwd, k, sx, x);
    } else {
      ApartGrows(|a|, |a| - |b|, offset, before, fwd, d, d, k, x);
    }
  }

  lemma BackwardMeeting<T>(a: seq<T>, b: seq<T>, d: int, offset: int, bwd: seq<int>, fwd: seq<int>, k: int, sx: int,
                           x: int)
    requires Trimmed(a, b) && 0 <= d < offset && |bwd| == |fwd| == 2 * offset + 1 && Near(k, d) && Even(d - k)
    requires bwd[offset + k] == x && BackwardMeets(|a|, |a| - |b|, offset, bwd, fwd, d, k)
    requires Row(a, b, d, offset, fwd) && Snake(Rev(a), Rev(b), k, sx, x) && Furthest(Rev(a), Rev(b), d, k, x)
    requires (|a| - |b|) % 2 == 0 && 2 * d <= Dist(a, b)
    ensures MiddleSnakeOf(a, b, |a| - x, |b| - (x - k), |a| - sx, |b| - (sx - k))
  {
    PartnerParity(d, k, |a| - |b|);
    BackwardRowHit(a, b, d, offset, fwd, k, sx, x);
  }

  /** One backward diagonal and the overlap test of an even search. */
  method BackwardDiagonal<T(==)>(a: seq<T>, b: seq<T>, vf: array<int>, vb: array<int>, offset: int, d: int, k: int)
    returns (found: bool, x: int, y: int, u: int, v: int)
    requires Trimmed(a, b) && 0 <= d < offset && vf != vb && vf.Length == vb.Length == 2 * offset + 1
    requires Near(k, d) && Even(d - k)
    requires RowTo(Rev(a), Rev(b), d, offset, vb[..], k) && Row(Rev(a), Rev(b), d - 1, offset, vb[..])
    requires Row(a, b, d, offset, vf[..])
    requires d == 0 ==> vb[offset + 1] == 0
    requires (|a| - |b|) % 2 == 0 ==> 2 * d <= Dist(a, b) && ApartTo(|a|, |a| - |b|, offset, vb[..], vf[..], d, d, k)
    modifies vb
    ensures RowTo(Rev(a), Rev(b), d, offset, vb[..], k + 2) && Row(Rev(a), Rev(b), d - 1, offset, vb[..])
    ensures found ==> MiddleSnakeOf(a, b, x, y, u, v)
    ensures !found && (|a| - |b|) % 2 == 0 ==> ApartTo(|a|, |a| - |b|, offset, vb[..], vf[..], d, d, k + 2)
  {
    var n, m := |a|, |b|;
    var delta := n - m;
    var odd := delta % 2 != 0;
    ghost var before, fwd := vb[..], vf[..];
    var sx, bx := ExtendBackward(a, b, vb, offset, d, k);
    x, y, u, v := n - bx, m - (bx - k), n - sx, m - (sx - k);
    BackwardStep(a, b, d, offset, before, vb[..], fwd, k, sx, bx);
    found := !odd && k >= delta - d && k <= delta + d && vb[offset + k] + vf[offset + delta - k] >= n;
    assert !odd ==> found == BackwardMeets(n, delta, offset, vb[..], fwd, d, k);
  }

  /** The forward D-paths of round d; found reports the first overlap of an odd search. */
  method ForwardRound<T(==)>(a: seq<T>, b: seq<T>, vf: array<int>, vb: array<int>, offset: int, d: int)
    returns (found: bool, x: int, y: int, u: int, v: int)
    requires Trimmed(a, b) && 0 <= d < offset && vf != vb && vf.Length == vb.Length == 2 * offset + 1
    requires Row(a, b, d - 1, offset, vf[..]) && Row(Rev(a), Rev(b), d - 1, offset, vb[..])
    requires d == 0 ==> vf[offset + 1] == 0
    requires (|a| - |b|) % 2 != 0 ==> 2 * d - 1 <= Dist(a, b)
    modifies vf
    ensures found ==> MiddleSnakeOf(a, b, x, y, u, v)
    ensures !found ==> Row(a, b, d, offset, vf[..])
    ensures !found && (|a| - |b|) % 2 != 0 ==> 2 * d - 1 < Dist(a, b)
  {
    found, x, y, u, v := false, 0, 0, 0, 0;
    var k := -d;
    EvenIsMod(d - k);
    while k <= d
      invariant -d <= k <= d + 2 && (k <= d ==> Even(d - k))
      invariant RowTo(a, b, d, offset, vf[..], k) && Row(a, b, d - 1, offset, vf[..])
      invariant d == 0 && k == 0 ==> vf[offset + 1] == 0
      invariant (|a| - |b|) % 2 != 0 ==> ApartTo(|a|, |a| - |b|, offset, vf[..], vb[..], d, d - 1, k)
    {
      found, x, y, u, v := ForwardDiagonal(a, b, vf, vb, offset, d, k);
      if found {
        return;
      }
      k := k + 2;
    }
    if (|a| - |b|) % 2 != 0 && d > 0 { ApartMeansFar(a, b, d, d - 1, offset, vf[..], vb[..]); }
  }

  /** The backward D-paths of round d; found reports the first overlap of an even search. */
  method BackwardRound<T(==)>(a: seq<T>, b: seq<T>, vf: array<int>, vb: array<int>, offset: int, d: int)
    returns (found: bool, x: int, y: int, u: int, v: int)
    requires Trimmed(a, b) && 0 <= d < offset && vf != vb && vf.Length == vb.Length == 2 * offset + 1
    requires Row(a, b, d, offset, vf[..]) && Row(Rev(a), Rev(b), d - 1, offset, vb[..])
    requires d == 0 ==> vb[offset + 1] == 0
    requires (|a| - |b|) % 2 == 0 ==> 2 * d <= Dist(a, b)
    modifies vb
    ensures found ==> MiddleSnakeOf(a, b, x, y, u, v)
    ensures !found ==> Row(Rev(a), Rev(b), d, offset, vb[..])
    ensures !found && (|a| - |b|) % 2 == 0 ==> 2 * d < Dist(a, b)
  {
    found, x, y, u, v := false, 0, 0, 0, 0;
    var k := -d;
    EvenIsMod(d - k);
    while k <= d
      invariant -d <= k <= d + 2 && (k <= d ==> Even(d - k))
      invariant RowTo(Rev(a), Rev(b), d, offset, vb[..], k) && Row(Rev(a), Rev(b), d - 1, offset, vb[..])
      invariant d == 0 && k == 0 ==> vb[offset + 1] == 0
      invariant (|a| - |b|) % 2 == 0 ==> ApartTo(|a|, |a| - |b|, offset, vb[..], vf[..], d, d, k)
    {
      found, x, y, u, v := BackwardDiagonal(a, b, vf, vb, offset, d, k);
      if found {
        return;
      }
      k := k + 2;
    }
    if (|a| - |b|) % 2 == 0 { ApartMeansFarBackward(a, b, d, offset, vf[..], vb[..]); }
  }

  /** The distance is larger than what the rounds up to d can pay for. */
  ghost predicate Exhausted<T>(a: seq<T>, b: seq<T>, d: int)
  {
    if (|a| - |b|) % 2 != 0 then 2 * d - 1 < Dist(a, b) else 2 * d < Dist(a, b)
  }

  lemma NextRound<T>(a: seq<T>, b: seq<T>, d: int)
    requires Exhausted(a, b, d - 1)
    ensures if (|a| - |b|) % 2 != 0 then 2 * d - 1 <= Dist(a, b) else 2 * d <= Dist(a, b)
  {
    CostParity(a, b, |a|, |b|);
  }

  lemma RoundsSuffice<T>(a: seq<T>, b: seq<T>, d: int)
    requires d >= (|a| + |b| + 1) / 2
    ensures !Exhausted(a, b, d)
  {
    CostBounds(a, b, |a|, |b|);
    CostParity(a, b, |a|, |b|);
  }

  /** The middle snake of a shortest edit script.  The rounds always end in an overlap, so the search
      never runs out of rounds. */
  method MiddleSnake<T(==)>(a: seq<T>, b: seq<T>) returns (x: int, y: int, u: int, v: int)
    requires Trimmed(a, b)
    ensures MiddleSnakeOf(a, b, x, y, u, v)
  {
    var n, m := |a|, |b|;
    var maxD := (n + m + 1) / 2;
    var offset := maxD + 1;
    var vf := new int[2 * maxD + 3];
    var vb := new int[2 * maxD + 3];
    vf[offset + 1] := 0;
    vb[offset + 1] := 0;
    var d := 0;
    var found := false;
    while d <= maxD
      invariant 0 <= d
      invariant Row(a, b, d - 1, offset, vf[..]) && Row(Rev(a), Rev(b), d - 1, offset, vb[..])
      invariant d == 0 ==> vf[offset + 1] == 0 && vb[offset + 1] == 0
      invariant d > 0 ==> Exhausted(a, b, d - 1)
    {
      if d > 0 { NextRound(a, b, d); }
      found, x, y, u, v := ForwardRound(a, b, vf, vb, offset, d);
      if found {
        return;
      }
      found, x, y, u, v := BackwardRound(a, b, vf, vb, offset, d);
      if found {
        return;
      }
      d := d + 1;
    }
    RoundsSuffice(a, b, d - 1);
    assert false;
  }

  // ---- Divide and conquer ----

  lemma TrimFirst<T>(a: seq<T>, b: seq<T>, alo: nat, ahi: nat, blo: nat, bhi: nat)
    requires alo < ahi <= |a| && blo < bhi <= |b| && a[alo] == b[blo]
    ensures Dist(a[alo + 1..ahi], b[blo + 1..bhi]) == Dist(a[alo..ahi], b[blo..bhi])
  {
    DropEqualFirst(a[alo..ahi], b[blo..bhi]);
    assert a[alo..ahi][1..] == a[alo + 1..ahi] && b[blo..bhi][1..] == b[blo + 1..bhi];
  }

  lemma TrimLast<T>(a: seq<T>, b: seq<T>, alo: nat, ahi: nat, blo: nat, bhi: nat)
    requires alo < ahi <= |a| && blo < bhi <= |b| && a[ahi - 1] == b[bhi - 1]
    ensures Dist(a[alo..ahi - 1], b[blo..bhi - 1]) == Dist(a[alo..ahi], b[blo..bhi])
  {
    DropEqualLast(a[alo..ahi], b[blo..bhi]);
    assert a[alo..ahi][..ahi - alo - 1] == a[alo..ahi - 1] && b[blo..bhi][..bhi - blo - 1] == b[blo..bhi - 1];
  }

  lemma OneSide<T>(a: seq<T>, b: seq<T>, alo: nat, ahi: nat, blo: nat, bhi: nat)
    requires alo <= ahi <= |a| && blo <= bhi <= |b|
    ensures alo == ahi ==> Dist(a[alo..ahi], b[blo..bhi]) == bhi - blo
    ensures blo == bhi ==> Dist(a[alo..ahi], b[blo..bhi]) == ahi - alo
  {
  }

  lemma SplitRange<T>(a: seq<T>, b: seq<T>, alo: nat, ahi: nat, blo: nat, bhi: nat, x: nat, y: nat, u: nat, v: nat)
    requires alo <= ahi <= |a| && blo <= bhi <= |b|
    requires MiddleSnakeOf(a[alo..ahi], b[blo..bhi], x, y, u, v)
    ensures u - x == v - y
    ensures Dist(a[alo..alo + x], b[blo..blo + y]) + Dist(a[alo + u..ahi], b[blo + v..bhi]) ==
      Dist(a[alo..ahi], b[blo..bhi])
  {
    assert |a[alo..ahi][x..u]| == |b[blo..bhi][y..v]|;
    assert a[alo..ahi][..x] == a[alo..alo + x] && b[blo..bhi][..y] == b[blo..blo + y];
    assert a[alo..ahi][u..] == a[alo + u..ahi] && b[blo..bhi][v..] == b[blo + v..bhi];
  }

  /** Drops the matching prefix and then the matching suffix of the box. */
  method Trim<T(==)>(a: seq<T>, b: seq<T>, alo0: nat, ahi0: nat, blo0: nat, bhi0: nat)
    returns (alo: nat, ahi: nat, blo: nat, bhi: nat)
    requires alo0 <= ahi0 <= |a| && blo0 <= bhi0 <= |b|
    ensures alo0 <= alo <= ahi <= ahi0 && blo0 <= blo <= bhi <= bhi0
    ensures alo - alo0 == blo - blo0 && ahi0 - ahi == bhi0 - bhi
    ensures alo < ahi && blo < bhi ==> a[alo] != b[blo] && a[ahi - 1] != b[bhi - 1]
    ensures Dist(a[alo..ahi], b[blo..bhi]) == Dist(a[alo0..ahi0], b[blo0..bhi0])
  {
    alo, ahi, blo, bhi := alo0, ahi0, blo0, bhi0;
    ghost var whole := Dist(a[alo0..ahi0], b[blo0..bhi0]);
    while alo < ahi && blo < bhi && a[alo] == b[blo]
      invariant alo0 <= alo <= ahi && blo0 <= blo <= bhi && alo - alo0 == blo - blo0
      invariant Dist(a[alo..ahi], b[blo..bhi]) == whole
    {
      TrimFirst(a, b, alo, ahi, blo, bhi);
      alo, blo := alo + 1, blo + 1;
    }
    while alo < ahi && blo < bhi && a[ahi - 1] == b[bhi - 1]
      invariant alo <= ahi <= ahi0 && blo <= bhi <= bhi0 && ahi0 - ahi == bhi0 - bhi
      invariant alo < ahi && blo < bhi ==> a[alo] != b[blo]
      invariant Dist(a[alo..ahi], b[blo..bhi]) == whole
    {
      TrimLast(a, b, alo, ahi, blo, bhi);
      ahi, bhi := ahi - 1, bhi - 1;
    }
  }

  /** The middle snake of a trimmed box, in the coordinates of the whole sequences. */
  method SplitBox<T(==)>(a: seq<T>, b: seq<T>, alo: nat, ahi: nat, blo: nat, bhi: nat)
    returns (x: nat, y: nat, u: nat, v: nat)
    requires alo < ahi <= |a| && blo < bhi <= |b|
    requires a[alo] != b[blo] && a[ahi - 1] != b[bhi - 1]
    ensures alo <= x <= u <= ahi && blo <= y <= v <= bhi && u - x == v - y
    ensures (x < ahi || y < bhi) && (alo < u || blo < v)
    ensures Dist(a[alo..x], b[blo..y]) + Dist(a[u..ahi], b[v..bhi]) == Dist(a[alo..ahi], b[blo..bhi])
  {
    x, y, u, v := MiddleSnake(a[alo..ahi], b[blo..bhi]);
    SplitRange(a, b, alo, ahi, blo, bhi, x, y, u, v);
    x, y, u, v := alo + x, blo + y, alo + u, blo + v;
  }

  /** Counts the diff of a[alo0..ahi0] against b[blo0..bhi0]. */
  method CountRange<T(==)>(a: seq<T>, b: seq<T>, alo0: nat, ahi0: nat, blo0: nat, bhi0: nat)
    returns (insertions: nat, deletions: nat)
    requires alo0 <= ahi0 <= |a| && blo0 <= bhi0 <= |b|
    ensures insertions + deletions == Dist(a[alo0..ahi0], b[blo0..bhi0])
    ensures insertions - deletions == (bhi0 - blo0) - (ahi0 - alo0)
    decreases ahi0 - alo0 + bhi0 - blo0
  {
    var alo, ahi, blo, bhi := Trim(a, b, alo0, ahi0, blo0, bhi0);
    OneSide(a, b, alo, ahi, blo, bhi);
    if alo == ahi {
      return bhi - blo, 0;
    } else if blo == bhi {
      return 0, ahi - alo;
    }
    var x, y, u, v := SplitBox(a, b, alo, ahi, blo, bhi);
    var ins1, del1 := CountRange(a, b, alo, x, blo, y);
    var ins2, del2 := CountRange(a, b, u, ahi, v, bhi);
    return ins1 + ins2, del1 + del2;
  }

  /** The linear-space algorithm counts exactly what a shortest edit script does. */
  method CountDiff<T(==,!new)>(a: seq<T>, b: seq<T>) returns (insertions: nat, deletions: nat)
    ensures insertions == |b| - Lcs(a, b) && deletions == |a| - Lcs(a, b)
    ensures ShortestCounts(a, b, insertions, deletions)
  {
    insertions, deletions := CountRange(a, b, 0, |a|, 0, |b|);
    assert a[0..|a|] == a && b[0..|b|] == b;
    DistIsLcs(a, b);
    ShortestCountsAreLcs(a, b, insertions, deletions);
  }
}
