/** Shortest-edit-script theory used by the line diff: a distance on an unbounded edit grid,
    its symmetry under reversal, and what it means in terms of edit scripts. */
module EditDistance {

  function Min(x: nat, y: nat): nat { if x <= y then x else y }

  function Max(x: nat, y: nat): nat { if x <= y then y else x }

  /** The diagonal move into (x, y): both lines exist and are equal. */
  ghost predicate Match<T>(a: seq<T>, b: seq<T>, x: nat, y: nat)
  {
    0 < x <= |a| && 0 < y <= |b| && a[x-1] == b[y-1]
  }

  /** The cheapest way from (0, 0) to (x, y) when right and down moves cost one and diagonal
      moves are free.  Points beyond either sequence are legal: no diagonal move enters them. */
  ghost function Cost<T>(a: seq<T>, b: seq<T>, x: nat, y: nat): nat
    decreases x + y
  {
    if x == 0 then y
    else if y == 0 then x
    else if Match(a, b, x, y) then Cost(a, b, x - 1, y - 1)
    else 1 + Min(Cost(a, b, x - 1, y), Cost(a, b, x, y - 1))
  }

  ghost function Dist<T>(a: seq<T>, b: seq<T>): nat { Cost(a, b, |a|, |b|) }

  function Rev<T>(s: seq<T>): (r: seq<T>)
    ensures |r| == |s|
    ensures forall i :: 0 <= i < |s| ==> r[i] == s[|s| - 1 - i]
  {
    seq(|s|, i requires 0 <= i < |s| => s[|s| - 1 - i])
  }

  lemma RevRev<T>(s: seq<T>)
    ensures Rev(Rev(s)) == s
  {
  }

  lemma RevSuffix<T>(s: seq<T>, i: nat)
    requires i <= |s|
    ensures Rev(s[i..]) == Rev(s)[..|s| - i]
  {
  }

  lemma RevPrefix<T>(s: seq<T>, i: nat)
    requires i <= |s|
    ensures Rev(s[..i]) == Rev(s)[|s| - i..]
  {
  }

  // ---- Local structure of the grid ----

  /** A unit move changes the cost by at most one, in either direction. */
  lemma {:induction false} UnitMoves<T>(a: seq<T>, b: seq<T>, x: nat, y: nat)
    ensures Cost(a, b, x + 1, y) <= Cost(a, b, x, y) + 1
    ensures Cost(a, b, x, y) <= Cost(a, b, x + 1, y) + 1
    ensures Cost(a, b, x, y + 1) <= Cost(a, b, x, y) + 1
    ensures Cost(a, b, x, y) <= Cost(a, b, x, y + 1) + 1
    decreases x + y
  {
    if x > 0 { UnitMoves(a, b, x - 1, y); }
    if y > 0 { UnitMoves(a, b, x, y - 1); }
  }

  /** Moving one step further along a diagonal never makes a point cheaper. */
  lemma DiagonalMonotone<T>(a: seq<T>, b: seq<T>, x: nat, y: nat)
    ensures Cost(a, b, x, y) <= Cost(a, b, x + 1, y + 1)
  {
    UnitMoves(a, b, x, y);
  }

  lemma {:induction false} DiagonalMonotoneBy<T>(a: seq<T>, b: seq<T>, x: nat, y: nat, t: nat)
    ensures Cost(a, b, x, y) <= Cost(a, b, x + t, y + t)
    decreases t
  {
    if t > 0 {
      DiagonalMonotoneBy(a, b, x, y, t - 1);
      DiagonalMonotone(a, b, x + t - 1, y + t - 1);
    }
  }

  /** Beyond the last line of a, every further column costs exactly one. */
  lemma {:induction false} BeyondRight<T>(a: seq<T>, b: seq<T>, x: nat, y: nat)
    requires x >= |a|
    ensures Cost(a, b, x, y) == Cost(a, b, |a|, y) + (x - |a|)
    decreases x, y
  {
    if x > |a| {
      BeyondRight(a, b, x - 1, y);
      if y > 0 {
        BeyondRight(a, b, x, y - 1);
        BeyondRight(a, b, x - 1, y - 1);
        UnitMoves(a, b, x - 1, y - 1);
      }
    }
  }

  /** Beyond the last line of b, every further row costs exactly one. */
  lemma {:induction false} BeyondBelow<T>(a: seq<T>, b: seq<T>, x: nat, y: nat)
    requires y >= |b|
    ensures Cost(a, b, x, y) == Cost(a, b, x, |b|) + (y - |b|)
    decreases y, x
  {
    if y > |b| {
      BeyondBelow(a, b, x, y - 1);
      if x > 0 {
        BeyondBelow(a, b, x - 1, y);
        BeyondBelow(a, b, x - 1, y - 1);
        UnitMoves(a, b, x - 1, y - 1);
      }
    }
  }

  /** A diagonal displacement is paid for. */
  lemma {:induction false} CostBounds<T>(a: seq<T>, b: seq<T>, x: nat, y: nat)
    ensures x - y <= Cost(a, b, x, y) && y - x <= Cost(a, b, x, y) <= x + y
    decreases x + y
  {
    if x > 0 && y > 0 {
      CostBounds(a, b, x - 1, y - 1);
      CostBounds(a, b, x - 1, y);
      CostBounds(a, b, x, y - 1);
    }
  }

  /** The parity of a cost is that of its diagonal. */
  lemma {:induction false} CostParity<T>(a: seq<T>, b: seq<T>, x: nat, y: nat)
    ensures (Cost(a, b, x, y) - x - y) % 2 == 0
    decreases x + y
  {
    if x > 0 && y > 0 {
      CostParity(a, b, x - 1, y - 1);
      CostParity(a, b, x - 1, y);
      CostParity(a, b, x, y - 1);
    }
  }

  // ---- Forward and backward costs ----

  lemma RevMatch<T>(a: seq<T>, b: seq<T>, x: nat, y: nat)
    requires x < |a| && y < |b|
    ensures Match(a, b, x + 1, y + 1) <==> Match(Rev(a), Rev(b), |a| - x, |b| - y)
  {
  }

  /** A path through (x, y) is no cheaper than the whole distance. */
  lemma {:induction false} Through<T>(a: seq<T>, b: seq<T>, x: nat, y: nat)
    requires x <= |a| && y <= |b|
    ensures Dist(a, b) <= Cost(a, b, x, y) + Cost(Rev(a), Rev(b), |a| - x, |b| - y)
    decreases |a| - x + |b| - y
  {
    if x < |a| { UnitMoves(a, b, x, y); Through(a, b, x + 1, y); }
    if y < |b| { UnitMoves(a, b, x, y); Through(a, b, x, y + 1); }
    if x < |a| && y < |b| { RevMatch(a, b, x, y); Through(a, b, x + 1, y + 1); }
  }

  lemma DistRev<T>(a: seq<T>, b: seq<T>)
    ensures Dist(Rev(a), Rev(b)) == Dist(a, b)
  {
    Through(a, b, 0, 0);
    Through(Rev(a), Rev(b), 0, 0);
    RevRev(a);
    RevRev(b);
  }

  /** Every cost up to the distance is met by a point on a cheapest path. */
  lemma {:induction false} OnCheapestPath<T>(a: seq<T>, b: seq<T>, e: nat) returns (x: nat, y: nat)
    requires e <= Dist(a, b)
    ensures x <= |a| && y <= |b|
    ensures Cost(a, b, x, y) == e
    ensures Cost(Rev(a), Rev(b), |a| - x, |b| - y) == Dist(a, b) - e
  {
    x, y := |a|, |b|;
    while Cost(a, b, x, y) > e
      invariant x <= |a| && y <= |b|
      invariant e <= Cost(a, b, x, y)
      invariant Cost(a, b, x, y) + Cost(Rev(a), Rev(b), |a| - x, |b| - y) == Dist(a, b)
      decreases x + y
    {
      x, y := StepBack(a, b, x, y);
    }
  }

  lemma StepBack<T>(a: seq<T>, b: seq<T>, x: nat, y: nat) returns (x': nat, y': nat)
    requires x <= |a| && y <= |b| && 0 < Cost(a, b, x, y)
    requires Cost(a, b, x, y) + Cost(Rev(a), Rev(b), |a| - x, |b| - y) == Dist(a, b)
    ensures x' <= x && y' <= y && x' + y' < x + y
    ensures Cost(a, b, x, y) - 1 <= Cost(a, b, x', y')
    ensures Cost(a, b, x', y') + Cost(Rev(a), Rev(b), |a| - x', |b| - y') == Dist(a, b)
  {
    if x > 0 && y > 0 && Match(a, b, x, y) {
      x', y' := x - 1, y - 1;
      BackwardMatch(a, b, x', y');
    } else if x > 0 && Cost(a, b, x, y) == 1 + Cost(a, b, x - 1, y) {
      x', y' := x - 1, y;
      StepBackIsTight(a, b, x, y, x', y');
    } else {
      x', y' := x, y - 1;
      StepBackIsTight(a, b, x, y, x', y');
    }
  }

  lemma BackwardMatch<T>(a: seq<T>, b: seq<T>, x: nat, y: nat)
    requires x < |a| && y < |b| && Match(a, b, x + 1, y + 1)
    ensures Cost(Rev(a), Rev(b), |a| - x, |b| - y) == Cost(Rev(a), Rev(b), |a| - x - 1, |b| - y - 1)
  {
    RevMatch(a, b, x, y);
  }

  /** One unit back along a cheapest path, the backward cost has grown by exactly one. */
  lemma StepBackIsTight<T>(a: seq<T>, b: seq<T>, x: nat, y: nat, x': nat, y': nat)
    requires x <= |a| && y <= |b|
    requires (x' == x - 1 && y' == y) || (x' == x && y' == y - 1)
    requires Cost(a, b, x, y) == 1 + Cost(a, b, x', y')
    requires Cost(a, b, x, y) + Cost(Rev(a), Rev(b), |a| - x, |b| - y) == Dist(a, b)
    ensures Cost(a, b, x', y') + Cost(Rev(a), Rev(b), |a| - x', |b| - y') == Dist(a, b)
  {
    Through(a, b, x', y');
    UnitMoves(Rev(a), Rev(b), |a| - x, |b| - y);
  }

  // ---- Prefixes and suffixes ----

  /** The cost of a point depends only on the lines before it. */
  lemma {:induction false} CostOfPrefix<T>(a: seq<T>, b: seq<T>, p: nat, q: nat, x: nat, y: nat)
    requires x <= p <= |a| && y <= q <= |b|
    ensures Cost(a[..p], b[..q], x, y) == Cost(a, b, x, y)
    decreases x + y
  {
    if x > 0 && y > 0 {
      CostOfPrefix(a, b, p, q, x - 1, y - 1);
      CostOfPrefix(a, b, p, q, x - 1, y);
      CostOfPrefix(a, b, p, q, x, y - 1);
    }
  }

  lemma DistOfPrefix<T>(a: seq<T>, b: seq<T>, x: nat, y: nat)
    requires x <= |a| && y <= |b|
    ensures Dist(a[..x], b[..y]) == Cost(a, b, x, y)
  {
    CostOfPrefix(a, b, x, y, x, y);
  }

  lemma DistOfSuffix<T>(a: seq<T>, b: seq<T>, x: nat, y: nat)
    requires x <= |a| && y <= |b|
    ensures Dist(a[x..], b[y..]) == Cost(Rev(a), Rev(b), |a| - x, |b| - y)
  {
    DistRev(a[x..], b[y..]);
    RevSuffix(a, x);
    RevSuffix(b, y);
    DistOfPrefix(Rev(a), Rev(b), |a| - x, |b| - y);
  }

  lemma DropEqualFirst<T>(a: seq<T>, b: seq<T>)
    requires |a| > 0 && |b| > 0 && a[0] == b[0]
    ensures Dist(a, b) == Dist(a[1..], b[1..])
  {
    DistOfSuffix(a, b, 1, 1);
    DistRev(a, b);
    RevMatch(a, b, 0, 0);
  }

  lemma DropEqualLast<T>(a: seq<T>, b: seq<T>)
    requires |a| > 0 && |b| > 0 && a[|a|-1] == b[|b|-1]
    ensures Dist(a, b) == Dist(a[..|a|-1], b[..|b|-1])
  {
    DistOfPrefix(a, b, |a| - 1, |b| - 1);
  }

  lemma {:induction false} DistZero<T>(a: seq<T>, b: seq<T>)
    requires Dist(a, b) == 0
    ensures a == b
    decreases |a|
  {
    if |a| > 0 && |b| > 0 {
      DropEqualLast(a, b);
      DistZero(a[..|a|-1], b[..|b|-1]);
      assert a == a[..|a|-1] + [a[|a|-1]];
    }
  }

  /** Two non-empty sequences that share neither a first nor a last line are at least two edits apart. */
  lemma TrimmedDist<T>(a: seq<T>, b: seq<T>)
    requires |a| > 0 && |b| > 0 && a[0] != b[0] && a[|a|-1] != b[|b|-1]
    ensures 2 <= Dist(a, b)
  {
    var n, m := |a|, |b|;
    if Cost(a, b, n - 1, m) == 0 {
      DistOfPrefix(a, b, n - 1, m);
      DistZero(a[..n-1], b[..m]);
    }
    if Cost(a, b, n, m - 1) == 0 {
      DistOfPrefix(a, b, n, m - 1);
      DistZero(a[..n], b[..m-1]);
    }
  }

  // ---- What the distance means ----

  /** The classical longest-common-subsequence recurrence. */
  ghost function Lcs<T>(a: seq<T>, b: seq<T>): nat
    decreases |a| + |b|
  {
    if a == [] || b == [] then 0
    else if a[|a|-1] == b[|b|-1] then 1 + Lcs(a[..|a|-1], b[..|b|-1])
    else Max(Lcs(a[..|a|-1], b), Lcs(a, b[..|b|-1]))
  }

  lemma LastMove<T>(a: seq<T>, b: seq<T>)
    requires a != [] && b != []
    ensures Dist(a, b) == if a[|a|-1] == b[|b|-1] then Dist(a[..|a|-1], b[..|b|-1])
                          else 1 + Min(Dist(a[..|a|-1], b), Dist(a, b[..|b|-1]))
  {
    var n, m := |a|, |b|;
    DistOfPrefix(a, b, n - 1, m - 1);
    DistOfPrefix(a, b, n - 1, m);
    DistOfPrefix(a, b, n, m - 1);
    assert b[..m] == b && a[..n] == a;
  }

  lemma {:induction false} DistIsLcs<T>(a: seq<T>, b: seq<T>)
    ensures Dist(a, b) == |a| + |b| - 2 * Lcs(a, b)
    decreases |a| + |b|
  {
    if a != [] && b != [] {
      LastMove(a, b);
      DistIsLcs(a[..|a|-1], b[..|b|-1]);
      DistIsLcs(a[..|a|-1], b);
      DistIsLcs(a, b[..|b|-1]);
    }
  }

  /** One line of an edit script. */
  datatype Edit<T> = Keep | Delete | Insert(line: T)

  /** The script rewrites all of a into exactly b, line by line from the start. */
  ghost predicate Rewrites<T>(script: seq<Edit<T>>, a: seq<T>, b: seq<T>)
  {
    if script == [] then a == [] && b == []
    else match script[0]
      case Keep => a != [] && b != [] && a[0] == b[0] && Rewrites(script[1..], a[1..], b[1..])
      case Delete => a != [] && Rewrites(script[1..], a[1..], b)
      case Insert(line) => b != [] && line == b[0] && Rewrites(script[1..], a, b[1..])
  }

  ghost function Insertions<T>(script: seq<Edit<T>>): nat
  {
    if script == [] then 0 else (if script[0].Insert? then 1 else 0) + Insertions(script[1..])
  }

  ghost function Deletions<T>(script: seq<Edit<T>>): nat
  {
    if script == [] then 0 else (if script[0].Delete? then 1 else 0) + Deletions(script[1..])
  }

  /** Dropping one line of one side costs at most one edit. */
  lemma DropFirst<T>(a: seq<T>, b: seq<T>)
    ensures a != [] ==> Dist(a, b) <= 1 + Dist(a[1..], b)
    ensures b != [] ==> Dist(a, b) <= 1 + Dist(a, b[1..])
  {
    DistOfSuffix(a, b, 0, 0);
    assert a[0..] == a && b[0..] == b;
    if a != [] {
      DistOfSuffix(a, b, 1, 0);
      UnitMoves(Rev(a), Rev(b), |a| - 1, |b|);
    }
    if b != [] {
      DistOfSuffix(a, b, 0, 1);
      UnitMoves(Rev(a), Rev(b), |a|, |b| - 1);
    }
  }

  /** Every script that rewrites a into b makes at least Dist(a, b) edits, and its insertions and
      deletions balance the two lengths. */
  lemma {:induction false} ScriptLowerBound<T>(script: seq<Edit<T>>, a: seq<T>, b: seq<T>)
    requires Rewrites(script, a, b)
    ensures Dist(a, b) <= Insertions(script) + Deletions(script)
    ensures Insertions(script) - Deletions(script) == |b| - |a|
    decreases |script|
  {
    if script != [] {
      match script[0] {
        case Keep =>
          DropEqualFirst(a, b);
          ScriptLowerBound(script[1..], a[1..], b[1..]);
        case Delete =>
          DropFirst(a, b);
          ScriptLowerBound(script[1..], a[1..], b);
        case Insert(_) =>
          DropFirst(a, b);
          ScriptLowerBound(script[1..], a, b[1..]);
      }
    }
  }

  lemma FirstMove<T>(a: seq<T>, b: seq<T>)
    requires a != [] && b != [] && a[0] != b[0]
    ensures Dist(a, b) == 1 + Min(Dist(a[1..], b), Dist(a, b[1..]))
  {
    DistOfSuffix(a, b, 0, 0);
    DistOfSuffix(a, b, 1, 0);
    DistOfSuffix(a, b, 0, 1);
    assert a[0..] == a && b[0..] == b;
    RevMatch(a, b, 0, 0);
  }

  /** The distance is attained. */
  lemma {:induction false} CheapestScript<T>(a: seq<T>, b: seq<T>) returns (script: seq<Edit<T>>)
    ensures Rewrites(script, a, b)
    ensures Insertions(script) + Deletions(script) == Dist(a, b)
    decreases |a| + |b|
  {
    if a == [] && b == [] {
      script := [];
    } else if a != [] && b != [] && a[0] == b[0] {
      var rest := CheapestScript(a[1..], b[1..]);
      script := [Keep] + rest;
      DropEqualFirst(a, b);
    } else if a != [] && (b == [] || Dist(a, b) == 1 + Dist(a[1..], b)) {
      var rest := CheapestScript(a[1..], b);
      script := [Delete] + rest;
    } else {
      var rest := CheapestScript(a, b[1..]);
      script := [Insert(b[0])] + rest;
      if a != [] { FirstMove(a, b); }
    }
  }

  /** The counts of a shortest edit script: some script makes exactly these insertions and
      deletions, and no script makes fewer edits in total. */
  ghost predicate ShortestCounts<T(!new)>(a: seq<T>, b: seq<T>, insertions: nat, deletions: nat)
  {
    && (exists s :: Rewrites(s, a, b) && Insertions(s) == insertions && Deletions(s) == deletions)
    && (forall s :: Rewrites(s, a, b) ==> insertions + deletions <= Insertions(s) + Deletions(s))
  }

  /** The counts are those of a shortest script exactly when they are what the longest common
      subsequence leaves over on each side. */
  lemma ShortestCountsAreLcs<T(!new)>(a: seq<T>, b: seq<T>, insertions: nat, deletions: nat)
    ensures ShortestCounts(a, b, insertions, deletions) <==>
            insertions == |b| - Lcs(a, b) && deletions == |a| - Lcs(a, b)
  {
    DistIsLcs(a, b);
    var script := CheapestScript(a, b);
    forall s | Rewrites(s, a, b)
      ensures Dist(a, b) <= Insertions(s) + Deletions(s)
      ensures Insertions(s) - Deletions(s) == |b| - |a|
    {
      ScriptLowerBound(s, a, b);
    }
  }
}
