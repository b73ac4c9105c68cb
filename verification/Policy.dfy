/** Two entry sets that compose by longest match (internal/git/readonly.go, internal/git/policy.go):
    the collapse of covered entries, policy construction and the protection decision. */
module Policy {
  import opened Ordering

  // ---- Coverage ----

  /** Proper descent on a segment boundary. */
  predicate IsAncestor(a: string, p: string) { |p| > |a| && a <= p && p[|a|] == '/' }

  predicate Covers(e: string, p: string) { p == e || IsAncestor(e, p) }

  /** A path lies below exactly the paths that a slash separates from its rest. */
  lemma AncestorIsDirectory(a: string, p: string)
    ensures IsAncestor(a, p) <==> exists rest :: p == a + "/" + rest
  {
    if IsAncestor(a, p) {
      assert p == a + "/" + p[|a| + 1..];
    }
    if rest :| p == a + "/" + rest { assert p[..|a|] == a; }
  }

  lemma AncestorTransitive(a: string, b: string, c: string)
    requires IsAncestor(a, b) && IsAncestor(b, c)
    ensures IsAncestor(a, c)
  {
    assert a == b[..|a|] == c[..|a|];
  }

  /** Entries that cover one path form a chain ordered by length. */
  lemma CoveringChain(e: string, f: string, p: string)
    requires Covers(e, p) && Covers(f, p)
    ensures |e| < |f| ==> IsAncestor(e, f)
    ensures |e| == |f| ==> e == f
  {
    assert e == p[..|e|] && f == p[..|f|];
  }

  lemma AncestorCovers(a: string, e: string, p: string)
    requires IsAncestor(a, e) && Covers(e, p)
    ensures Covers(a, p)
  {
    if p != e { AncestorTransitive(a, e, p); }
  }

  // ---- Longest match over two sets ----

  predicate Covered(s: set<string>, p: string) { exists e :: e in s && Covers(e, p) }

  /** Entry e is longer than every entry of s that covers p. */
  predicate Beats(e: string, s: set<string>, p: string) { forall f :: f in s && Covers(f, p) ==> |f| < |e| }

  predicate Winner(s: set<string>, other: set<string>, p: string)
  {
    exists e :: e in s && Covers(e, p) && Beats(e, other, p)
  }

  /** The longest entry across both sets decides; with no match the path is protected once a
      writable set exists. */
  predicate LongestMatch(ro: set<string>, wr: set<string>, p: string)
  {
    if Covered(ro, p) || Covered(wr, p) then Winner(ro, wr, p) else wr != {}
  }

  /** The decision, spelled out: of the entries that name the path or a directory above it the longest one
      decides by the set it is in; where there is none, a path is protected once something is writable. */
  lemma LongestDecides(ro: set<string>, wr: set<string>, p: string, e: string)
    requires ro !! wr
    ensures e in ro + wr && (p == e || exists rest :: p == e + "/" + rest) &&
            (forall f :: f in ro + wr && (p == f || exists rest :: p == f + "/" + rest) ==> |f| <= |e|)
            ==> LongestMatch(ro, wr, p) == (e in ro)
    ensures (forall f :: f in ro + wr ==> !(p == f || exists rest :: p == f + "/" + rest)) ==>
              LongestMatch(ro, wr, p) == (wr != {})
  {
    forall f ensures IsAncestor(f, p) <==> exists rest :: p == f + "/" + rest { AncestorIsDirectory(f, p); }
    if e in ro + wr && Covers(e, p) && forall f :: f in ro + wr && Covers(f, p) ==> |f| <= |e| {
      forall f | f in ro + wr && Covers(f, p) && f != e ensures |f| < |e| { CoveringChain(f, e, p); }
      assert e in ro ==> Beats(e, wr, p);
    }
  }

  // ---- Collapse ----

  predicate Between(a: string, e: string, other: set<string>)
  {
    exists o :: o in other && IsAncestor(a, o) && IsAncestor(o, e)
  }

  /** An own-set ancestor decides everything e decides. */
  predicate Redundant(s: set<string>, other: set<string>, e: string)
  {
    exists a :: a in s && IsAncestor(a, e) && !Between(a, e, other)
  }

  function Collapse(s: set<string>, other: set<string>): set<string>
  {
    set e | e in s && !Redundant(s, other, e)
  }

  /** A winner stays, or an ancestor that wins as well does. */
  lemma {:induction false} WinnerSurvives(s: set<string>, other: set<string>, p: string, e: string)
    requires s !! other && e in s && Covers(e, p) && Beats(e, other, p)
    ensures Winner(Collapse(s, other), other, p)
    decreases |e|
  {
    if Redundant(s, other, e) {
      var a :| a in s && IsAncestor(a, e) && !Between(a, e, other);
      AncestorCovers(a, e, p);
      forall o | o in other && Covers(o, p) ensures |o| < |a| {
        CoveringChain(o, e, p);
        CoveringChain(a, o, p);
      }
      WinnerSurvives(s, other, p, a);
    }
  }

  lemma {:induction false} SomethingSurvives(s: set<string>, other: set<string>, e: string)
    requires e in s
    ensures Collapse(s, other) != {}
    decreases |e|
  {
    if Redundant(s, other, e) {
      var a :| a in s && IsAncestor(a, e) && !Between(a, e, other);
      SomethingSurvives(s, other, a);
    } else {
      assert e in Collapse(s, other);
    }
  }

  /** The longest entry of a set that covers a path. */
  lemma {:induction false} LongestCovering(s: set<string>, p: string) returns (w: string)
    requires Covered(s, p)
    ensures w in s && Covers(w, p) && forall f :: f in s && Covers(f, p) ==> |f| <= |w|
    decreases s
  {
    w :| w in s && Covers(w, p);
    if exists f :: f in s && Covers(f, p) && |w| < |f| {
      var rest := set f | f in s && |w| < |f|;
      var f :| f in s && Covers(f, p) && |w| < |f|;
      assert f in rest && w !in rest && rest <= s;
      w := LongestCovering(rest, p);
    }
  }

  lemma UnopposedWins(ro: set<string>, wr: set<string>, p: string)
    requires Covered(ro, p) && !Covered(wr, p)
    ensures Winner(ro, wr, p)
  {
    var r :| r in ro && Covers(r, p);
    assert Beats(r, wr, p);
  }

  /** When the first set has no winner on a covered path, the second set has one. */
  lemma OtherWins(ro: set<string>, wr: set<string>, p: string) returns (w: string)
    requires ro !! wr && (Covered(ro, p) || Covered(wr, p)) && !Winner(ro, wr, p)
    ensures w in wr && Covers(w, p) && Beats(w, ro, p)
  {
    if !Covered(wr, p) { UnopposedWins(ro, wr, p); }
    w := LongestCovering(wr, p);
    forall r | r in ro && Covers(r, p) ensures |r| < |w| {
      assert !Beats(r, wr, p);
      var f :| f in wr && Covers(f, p) && |f| >= |r|;
      CoveringChain(r, f, p);
    }
  }

  lemma SubsetBeats(e: string, s: set<string>, t: set<string>, p: string)
    requires s <= t && Beats(e, t, p)
    ensures Beats(e, s, p)
  {
  }

  /** Collapsing the two sets against each other changes no answer, the unmatched default included. */
  lemma CollapseKeepsAnswers(ro: set<string>, wr: set<string>, p: string)
    requires ro !! wr
    ensures LongestMatch(Collapse(ro, wr), Collapse(wr, ro), p) == LongestMatch(ro, wr, p)
  {
    var cr, cw := Collapse(ro, wr), Collapse(wr, ro);
    if Covered(ro, p) || Covered(wr, p) {
      if Winner(ro, wr, p) {
        var e :| e in ro && Covers(e, p) && Beats(e, wr, p);
        WinnerSurvives(ro, wr, p, e);
        var g :| g in cr && Covers(g, p) && Beats(g, wr, p);
        SubsetBeats(g, cw, wr, p);
        assert Winner(cr, cw, p);
      } else {
        var w := OtherWins(ro, wr, p);
        WinnerSurvives(wr, ro, p, w);
        var g :| g in cw && Covers(g, p) && Beats(g, ro, p);
        forall r | r in cr && Covers(r, p) ensures !Beats(r, cw, p) {
          assert |r| < |g|;
        }
      }
    } else {
      assert !Covered(cr, p) && !Covered(cw, p);
      if wr != {} {
        var w :| w in wr;
        SomethingSurvives(wr, ro, w);
      }
    }
  }

  /** An entry of the other set that splits two entries leaves a surviving one that does. */
  lemma {:induction false} SplitterSurvives(s: set<string>, other: set<string>, a: string, e: string, o: string)
    requires s !! other && a in s && o in other && IsAncestor(a, o) && IsAncestor(o, e)
    ensures Between(a, e, Collapse(other, s))
    decreases |o|
  {
    if Redundant(other, s, o) {
      var o' :| o' in other && IsAncestor(o', o) && !Between(o', o, s);
      CoveringChain(a, o', o);
      CoveringChain(o', a, o);
      AncestorTransitive(o', o, e);
      SplitterSurvives(s, other, a, e, o');
    } else {
      assert o in Collapse(other, s);
    }
  }

  /** Collapsing collapsed sets changes nothing. */
  lemma CollapseIdempotent(ro: set<string>, wr: set<string>)
    requires ro !! wr
    ensures Collapse(Collapse(ro, wr), Collapse(wr, ro)) == Collapse(ro, wr)
  {
    var cr, cw := Collapse(ro, wr), Collapse(wr, ro);
    forall e | e in cr ensures !Redundant(cr, cw, e) {
      forall a | a in cr && IsAncestor(a, e) ensures Between(a, e, cw) {
        assert Between(a, e, wr);
        var o :| o in wr && IsAncestor(a, o) && IsAncestor(o, e);
        SplitterSurvives(ro, wr, a, e, o);
      }
    }
  }

  // ---- What the collapse drops ----

  /** The collapse keeps exactly the entries that no entry of their own set covers directly: between a kept
      entry and any own-set ancestor stands an entry of the other set. */
  lemma KeptExactlyWhenSplit(s: set<string>, other: set<string>, e: string)
    ensures e in Collapse(s, other) <==>
            e in s && forall a :: a in s && IsAncestor(a, e) ==>
                        exists o :: o in other && IsAncestor(a, o) && IsAncestor(o, e)
  {
  }

  /** Removing a read-only entry from collapsed sets changes some answer. */
  ghost predicate ReadOnlyNeeded(ro: set<string>, wr: set<string>, e: string)
  {
    exists p :: LongestMatch(ro - {e}, wr, p) != LongestMatch(ro, wr, p)
  }

  ghost predicate WritableNeeded(ro: set<string>, wr: set<string>, e: string)
  {
    exists p :: LongestMatch(ro, wr - {e}, p) != LongestMatch(ro, wr, p)
  }

  /** The nearest ancestor of a kept entry belongs to the other set. */
  lemma NearestIsOther(s: set<string>, other: set<string>, e: string) returns (o: string)
    requires s !! other && Collapse(s, other) == s && e in s && exists a :: a in s + other && IsAncestor(a, e)
    ensures o in other && IsAncestor(o, e) && forall a :: a in s && IsAncestor(a, e) ==> |a| < |o|
  {
    var above := set a | a in s + other && IsAncestor(a, e);
    var a0 :| a0 in s + other && IsAncestor(a0, e);
    assert a0 in above;
    o := LongestCovering(above, e);
    forall b | b in other && IsAncestor(b, e) ensures !IsAncestor(o, b) { assert b in above; }
    KeptExactlyWhenSplit(s, other, e);
    forall a | a in s && IsAncestor(a, e) ensures |a| < |o| {
      assert a in above;
      CoveringChain(a, o, e);
    }
  }

  lemma SelfWins(s: set<string>, other: set<string>, e: string)
    requires s !! other && e in s
    ensures Winner(s, other, e) && !Winner(other, s, e) && !Winner(other - {e}, s, e)
  {
    assert Covers(e, e);
    forall f | f in other && Covers(f, e) ensures |f| < |e| { CoveringChain(f, e, e); }
    assert Beats(e, other, e);
  }

  /** No collapsed read-only entry can be spared, except one that repeats the default for what no entry
      covers. */
  lemma ReadOnlyEntriesAreNeeded(ro: set<string>, wr: set<string>, e: string)
    requires ro !! wr && Collapse(ro, wr) == ro && e in ro
    ensures ReadOnlyNeeded(ro, wr, e) <==> wr == {} || exists a :: a in ro + wr && IsAncestor(a, e)
  {
    var less := ro - {e};
    SelfWins(ro, wr, e);
    assert LongestMatch(ro, wr, e);
    if exists a :: a in ro + wr && IsAncestor(a, e) {
      var o := NearestIsOther(ro, wr, e);
      forall r | r in less && Covers(r, e) ensures !Beats(r, wr, e) { assert |r| < |o| && Covers(o, e); }
      assert Covered(wr, e) && !LongestMatch(less, wr, e);
    } else if wr == {} {
      assert !Covered(less, e) && !LongestMatch(less, wr, e);
    } else {
      forall p ensures LongestMatch(less, wr, p) == LongestMatch(ro, wr, p) { SpareEntry(ro, wr, e, p); }
    }
  }

  /** Where nothing covers e and a writable entry exists, e answers what the default answers. */
  lemma SpareEntry(ro: set<string>, wr: set<string>, e: string, p: string)
    requires ro !! wr && e in ro && wr != {} && forall a :: a in ro + wr ==> !IsAncestor(a, e)
    ensures LongestMatch(ro - {e}, wr, p) == LongestMatch(ro, wr, p)
  {
    var less := ro - {e};
    if Covers(e, p) {
      forall f | f in less + wr && Covers(f, p) ensures |f| > |e| { CoveringChain(f, e, p); }
      if Covered(less, p) || Covered(wr, p) {
        if Winner(ro, wr, p) && Beats(e, wr, p) { SpareWinner(less, wr, e, p); }
        assert Winner(less, wr, p) <==> Winner(ro, wr, p);
      } else {
        assert Beats(e, wr, p) && Winner(ro, wr, p);
      }
    } else {
      assert Winner(less, wr, p) <==> Winner(ro, wr, p);
      assert Covered(less, p) <==> Covered(ro, p);
    }
  }

  lemma SpareWinner(less: set<string>, wr: set<string>, e: string, p: string)
    requires Beats(e, wr, p) && Covers(e, p) && (forall f :: f in less + wr && Covers(f, p) ==> |f| > |e|)
    requires Covered(less, p) || Covered(wr, p)
    ensures Winner(less, wr, p)
  {
    forall w | w in wr ensures !Covers(w, p) { assert w in less + wr; }
    UnopposedWins(less, wr, p);
  }

  /** A path that no entry covers. */
  lemma UncoveredPath(s: set<string>) returns (p: string)
    ensures !Covered(s, p) && p != ""
  {
    var n := LongestOf(s);
    p := seq(n + 1, i => 'x');
    forall e | e in s ensures !Covers(e, p) { }
  }

  lemma {:induction false} LongestOf(s: set<string>) returns (n: nat)
    ensures forall e :: e in s ==> |e| <= n
    decreases s
  {
    n := 0;
    if s != {} {
      var e :| e in s;
      n := LongestOf(s - {e});
      if |e| > n { n := |e|; }
      assert s == s - {e} + {e};
    }
  }

  /** No collapsed writable entry can be spared. */
  lemma WritableEntriesAreNeeded(ro: set<string>, wr: set<string>, e: string)
    requires ro !! wr && Collapse(wr, ro) == wr && e in wr
    ensures WritableNeeded(ro, wr, e)
  {
    var less := wr - {e};
    SelfWins(wr, ro, e);
    assert Covers(e, e) && !LongestMatch(ro, wr, e);
    if exists a :: a in wr + ro && IsAncestor(a, e) {
      var o := NearestIsOther(wr, ro, e);
      assert Covers(o, e);
      forall f | f in less && Covers(f, e) ensures |f| < |o| { }
      assert Beats(o, less, e) && LongestMatch(ro, less, e);
    } else if less != {} {
      assert !Covered(ro, e) && !Covered(less, e) && LongestMatch(ro, less, e);
    } else {
      var p := UncoveredPath(ro + wr);
      assert !Covered(ro, p) && !Covered(wr, p) && !Covered(less, p);
      assert LongestMatch(ro, wr, p) && !LongestMatch(ro, less, p);
    }
  }

  // ---- Entries as written ----

  /** One written entry beside the folded form every comparison uses. */
  datatype EntryItem = EntryItem(raw: string, folded: string)

  datatype EntrySet = EntrySet(entries: seq<string>, folded: seq<string>)

  function FoldedOf(items: seq<EntryItem>): set<string> { set i | 0 <= i < |items| :: items[i].folded }

  function Elements(s: seq<string>): set<string> { set i | 0 <= i < |s| :: s[i] }

  method EntryBetween(a: string, e: string, other: seq<EntryItem>) returns (found: bool)
    ensures found == Between(a, e, FoldedOf(other))
  {
    for i := 0 to |other|
      invariant forall j :: 0 <= j < i ==> !(IsAncestor(a, other[j].folded) && IsAncestor(other[j].folded, e))
    {
      if IsAncestor(a, other[i].folded) && IsAncestor(other[i].folded, e) {
        assert other[i].folded in FoldedOf(other);
        return true;
      }
    }
    return false;
  }

  method IsCovered(items: seq<EntryItem>, other: seq<EntryItem>, it: EntryItem) returns (covered: bool)
    ensures covered == Redundant(FoldedOf(items), FoldedOf(other), it.folded)
  {
    for i := 0 to |items|
      invariant forall j :: 0 <= j < i ==>
        !IsAncestor(items[j].folded, it.folded) || Between(items[j].folded, it.folded, FoldedOf(other))
    {
      var anc := items[i];
      if anc.folded == it.folded {
        continue;
      }
      if IsAncestor(anc.folded, it.folded) {
        var split := EntryBetween(anc.folded, it.folded, other);
        if !split {
          assert anc.folded in FoldedOf(items);
          return true;
        }
      }
    }
    return false;
  }

  /** The entries kept among the first n: not redundant, and the first of their folded form. */
  function Kept(items: seq<EntryItem>, other: seq<EntryItem>, n: nat): seq<EntryItem>
    requires n <= |items|
  {
    if n == 0 then []
    else
      var k, it := Kept(items, other, n - 1), items[n - 1];
      if Redundant(FoldedOf(items), FoldedOf(other), it.folded) || it.folded in FoldedOf(k) then k else k + [it]
  }

  ghost predicate DistinctFolded(items: seq<EntryItem>)
  {
    forall i, j :: 0 <= i < j < |items| ==> items[i].folded != items[j].folded
  }

  lemma {:induction false} KeptFolded(items: seq<EntryItem>, other: seq<EntryItem>, n: nat)
    requires n <= |items|
    ensures FoldedOf(Kept(items, other, n)) ==
            set e | e in FoldedOf(items[..n]) && !Redundant(FoldedOf(items), FoldedOf(other), e)
    ensures DistinctFolded(Kept(items, other, n))
    ensures forall k :: k in Kept(items, other, n) ==> k in items
    decreases n
  {
    if n > 0 {
      KeptFolded(items, other, n - 1);
      var it := items[n - 1];
      assert FoldedOf(items[..n]) == FoldedOf(items[..n - 1]) + {it.folded} by {
        assert items[..n] == items[..n - 1] + [it];
        AppendFolded(items[..n - 1], it);
      }
      AppendFolded(Kept(items, other, n - 1), it);
    }
  }

  /** Of the entries with one folded form the first one written is kept. */
  lemma {:induction false} KeptIsFirstWritten(items: seq<EntryItem>, other: seq<EntryItem>, n: nat, k: nat)
    requires k < n <= |items| && items[k].folded in Collapse(FoldedOf(items), FoldedOf(other))
    requires forall j :: 0 <= j < k ==> items[j].folded != items[k].folded
    ensures items[k] in Kept(items, other, n)
  {
    if k < n - 1 {
      KeptIsFirstWritten(items, other, n - 1, k);
    } else {
      KeptFolded(items, other, k);
      assert items[k].folded !in FoldedOf(items[..k]);
    }
  }

  lemma AppendFolded(items: seq<EntryItem>, it: EntryItem)
    ensures FoldedOf(items + [it]) == FoldedOf(items) + {it.folded}
  {
    var all := items + [it];
    assert all[|items|] == it;
    forall i | 0 <= i < |items| ensures all[i] == items[i] { }
  }

  function Raw(it: EntryItem): string { it.raw }

  function SetOf(items: seq<EntryItem>): EntrySet
  {
    EntrySet(seq(|items|, i requires 0 <= i < |items| => items[i].raw),
             seq(|items|, i requires 0 <= i < |items| => items[i].folded))
  }

  function Collapsed(items: seq<EntryItem>, other: seq<EntryItem>): EntrySet
  {
    SetOf(Sort(Kept(items, other, |items|), Raw))
  }

  /** The collapse of internal/git/readonly.go. */
  method CollapseEntries(items: seq<EntryItem>, other: seq<EntryItem>) returns (es: EntrySet)
    ensures es == Collapsed(items, other)
  {
    var kept: seq<EntryItem> := [];
    for n := 0 to |items|
      invariant kept == Kept(items, other, n)
    {
      var it := items[n];
      var covered := IsCovered(items, other, it);
      if covered {
        continue;
      }
      var exists_ := false;
      for i := 0 to |kept|
        invariant exists_ == (it.folded in FoldedOf(kept[..i]))
      {
        AppendFolded(kept[..i], kept[i]);
        assert kept[..i + 1] == kept[..i] + [kept[i]];
        if kept[i].folded == it.folded {
          exists_ := true;
        }
      }
      assert kept[..|kept|] == kept;
      if !exists_ {
        kept := kept + [it];
      }
    }
    es := SetOf(Sort(kept, Raw));
  }

  lemma SortFolded(items: seq<EntryItem>)
    ensures FoldedOf(Sort(items, Raw)) == FoldedOf(items)
  {
    forall f ensures f in FoldedOf(Sort(items, Raw)) <==> f in FoldedOf(items) {
      if f in FoldedOf(items) {
        var i :| 0 <= i < |items| && items[i].folded == f;
        SortMembers(items, Raw, items[i]);
        var j :| 0 <= j < |Sort(items, Raw)| && Sort(items, Raw)[j] == items[i];
      }
      if f in FoldedOf(Sort(items, Raw)) {
        var j :| 0 <= j < |Sort(items, Raw)| && Sort(items, Raw)[j].folded == f;
        SortMembers(items, Raw, Sort(items, Raw)[j]);
        var i :| 0 <= i < |items| && items[i] == Sort(items, Raw)[j];
      }
    }
  }

  /** What the collapsed entry set holds, as a set of folded entries. */
  lemma CollapsedFolded(items: seq<EntryItem>, other: seq<EntryItem>)
    ensures Elements(Collapsed(items, other).folded) == Collapse(FoldedOf(items), FoldedOf(other))
  {
    var kept := Kept(items, other, |items|);
    KeptFolded(items, other, |items|);
    assert items[..|items|] == items;
    SortFolded(kept);
    SetFolded(Sort(kept, Raw));
  }

  lemma SetFolded(items: seq<EntryItem>)
    ensures Elements(SetOf(items).folded) == FoldedOf(items)
  {
    var folded := SetOf(items).folded;
    forall i | 0 <= i < |items|
      ensures folded[i] == items[i].folded && folded[i] in Elements(folded) && folded[i] in FoldedOf(items) { }
  }

  // ---- Policies ----

  datatype PathPolicy = PathPolicy(readOnly: EntrySet, writable: EntrySet)
  {
    predicate Configured() { |readOnly.entries| > 0 || |writable.entries| > 0 }
  }

  datatype PolicyError = InvalidEntry(raw: string) | Overlap(readOnly: string, writable: string)

  datatype Result<+T, +E> = Ok(value: T) | Err(error: E)

  predicate NulFree(s: string) { forall k :: 0 <= k < |s| ==> s[k] != '\0' }

  /** TrimSuffix(raw, "/"). */
  function TrimSlash(raw: string): string
  {
    if |raw| > 0 && raw[|raw| - 1] == '/' then raw[..|raw| - 1] else raw
  }

  /** The path validation of the host and its case folding are parameters; the only facts used about
      them are that a valid path has no trailing slash and no NUL. */
  datatype Host = Host(valid: string -> bool, fold: string -> string)
  {
    ghost predicate Sane() { forall p :: valid(p) ==> TrimSlash(p) == p && NulFree(p) }
  }

  function ItemsOf(host: Host, entries: seq<string>): Result<seq<EntryItem>, PolicyError>
  {
    if entries == [] then Ok([])
    else
      var trimmed := TrimSlash(entries[0]);
      if !host.valid(trimmed) then Err(InvalidEntry(entries[0]))
      else match ItemsOf(host, entries[1..])
        case Ok(rest) => Ok([EntryItem(trimmed, host.fold(trimmed))] + rest)
        case Err(e) => Err(e)
  }

  function Prepend(items: seq<EntryItem>, r: Result<seq<EntryItem>, PolicyError>): Result<seq<EntryItem>, PolicyError>
  {
    match r case Ok(rest) => Ok(items + rest) case Err(e) => Err(e)
  }

  lemma {:induction false} ItemsOfPrefix(host: Host, done: seq<string>, rest: seq<string>)
    requires ItemsOf(host, done).Ok?
    ensures ItemsOf(host, done + rest) == Prepend(ItemsOf(host, done).value, ItemsOf(host, rest))
    decreases done
  {
    if done == [] {
      assert done + rest == rest;
      assert ItemsOf(host, rest).Ok? ==> [] + ItemsOf(host, rest).value == ItemsOf(host, rest).value;
    } else {
      assert (done + rest)[1..] == done[1..] + rest && (done + rest)[0] == done[0];
      ItemsOfPrefix(host, done[1..], rest);
      var trimmed := TrimSlash(done[0]);
      var first := [EntryItem(trimmed, host.fold(trimmed))];
      var tail := ItemsOf(host, done[1..]).value;
      if ItemsOf(host, rest).Ok? {
        var r := ItemsOf(host, rest).value;
        assert first + (tail + r) == (first + tail) + r;
      }
    }
  }

  method ValidateEntries(host: Host, entries: seq<string>) returns (r: Result<seq<EntryItem>, PolicyError>)
    ensures r == ItemsOf(host, entries)
  {
    var items: seq<EntryItem> := [];
    for i := 0 to |entries|
      invariant ItemsOf(host, entries[..i]) == Ok(items)
    {
      ItemsOfPrefix(host, entries[..i], entries[i..]);
      assert entries == entries[..i] + entries[i..];
      var trimmed := TrimSlash(entries[i]);
      if !host.valid(trimmed) {
        return Err(InvalidEntry(entries[i]));
      }
      ItemsOfPrefix(host, entries[..i], [entries[i]]);
      assert entries[..i + 1] == entries[..i] + [entries[i]];
      assert ItemsOf(host, [entries[i]]) == Ok([EntryItem(trimmed, host.fold(trimmed))]) by {
        var one := EntryItem(trimmed, host.fold(trimmed));
        assert [entries[i]][1..] == [] && [one] + [] == [one];
      }
      items := items + [EntryItem(trimmed, host.fold(trimmed))];
    }
    assert entries[..|entries|] == entries;
    return Ok(items);
  }

  /** The first pair, in reading order, that names one path in both sets. */
  predicate Clash(ro: seq<EntryItem>, wr: seq<EntryItem>, i: nat, j: nat)
  {
    i < |ro| && j < |wr| && ro[i].folded == wr[j].folded
  }

  ghost predicate FirstClash(ro: seq<EntryItem>, wr: seq<EntryItem>, i: nat, j: nat)
  {
    && Clash(ro, wr, i, j)
    && (forall i', j' :: 0 <= i' < i && 0 <= j' ==> !Clash(ro, wr, i', j'))
    && (forall j' :: 0 <= j' < j ==> !Clash(ro, wr, i, j'))
  }

  /** NewPolicy: validates both sets, refuses a path named by both, and collapses each set against
      the other. */
  method NewPolicy(host: Host, readOnly: seq<string>, writable: seq<string>)
    returns (r: Result<PathPolicy, PolicyError>)
    ensures ItemsOf(host, readOnly).Err? ==> r == Err(ItemsOf(host, readOnly).error)
    ensures ItemsOf(host, readOnly).Ok? && ItemsOf(host, writable).Err? ==> r == Err(ItemsOf(host, writable).error)
    ensures ItemsOf(host, readOnly).Ok? && ItemsOf(host, writable).Ok? ==>
              var ro, wr := ItemsOf(host, readOnly).value, ItemsOf(host, writable).value;
              if FoldedOf(ro) !! FoldedOf(wr) then r == Ok(PathPolicy(Collapsed(ro, wr), Collapsed(wr, ro)))
              else exists i: nat, j: nat :: FirstClash(ro, wr, i, j) && r == Err(Overlap(ro[i].raw, wr[j].raw))
  {
    var ro := ValidateEntries(host, readOnly);
    if ro.Err? {
      return Err(ro.error);
    }
    var wr := ValidateEntries(host, writable);
    if wr.Err? {
      return Err(wr.error);
    }
    for i := 0 to |ro.value|
      invariant forall i', j :: 0 <= i' < i && 0 <= j ==> !Clash(ro.value, wr.value, i', j)
    {
      for j := 0 to |wr.value|
        invariant forall j' :: 0 <= j' < j ==> !Clash(ro.value, wr.value, i, j')
      {
        if ro.value[i].folded == wr.value[j].folded {
          assert FirstClash(ro.value, wr.value, i, j);
          assert ro.value[i].folded in FoldedOf(ro.value) && wr.value[j].folded in FoldedOf(wr.value);
          return Err(Overlap(ro.value[i].raw, wr.value[j].raw));
        }
      }
    }
    NoClash(ro.value, wr.value);
    var readOnlySet := CollapseEntries(ro.value, wr.value);
    var writableSet := CollapseEntries(wr.value, ro.value);
    return Ok(PathPolicy(readOnlySet, writableSet));
  }

  lemma NoClash(ro: seq<EntryItem>, wr: seq<EntryItem>)
    requires forall i, j :: 0 <= i < |ro| && 0 <= j ==> !Clash(ro, wr, i, j)
    ensures FoldedOf(ro) !! FoldedOf(wr)
  {
    forall f | f in FoldedOf(ro) ensures f !in FoldedOf(wr) {
      var i :| 0 <= i < |ro| && ro[i].folded == f;
      forall j | 0 <= j < |wr| ensures wr[j].folded != f {
        assert !Clash(ro, wr, i, j);
      }
    }
  }

  // ---- Protection ----

  /** The longest entry of the set covering a folded path. */
  method Covering(es: EntrySet, foldedPath: string) returns (folded: string, ok: bool)
    ensures ok == Covered(Elements(es.folded), foldedPath)
    ensures ok ==> folded in Elements(es.folded) && Covers(folded, foldedPath)
    ensures ok ==> forall f :: f in Elements(es.folded) && Covers(f, foldedPath) ==> |f| <= |folded|
  {
    folded, ok := "", false;
    for i := 0 to |es.folded|
      invariant !ok ==> forall j :: 0 <= j < i ==> !Covers(es.folded[j], foldedPath)
      invariant ok ==> folded in Elements(es.folded) && Covers(folded, foldedPath)
      invariant ok ==> forall j :: 0 <= j < i && Covers(es.folded[j], foldedPath) ==> |es.folded[j]| <= |folded|
    {
      var e := es.folded[i];
      if foldedPath != e && !IsAncestor(e, foldedPath) {
        continue;
      }
      if !ok || |e| > |folded| {
        assert e in Elements(es.folded);
        folded, ok := e, true;
      }
    }
  }

  ghost predicate WellFormed(p: PathPolicy)
  {
    && |p.readOnly.entries| == |p.readOnly.folded| && |p.writable.entries| == |p.writable.folded|
    && Elements(p.readOnly.folded) !! Elements(p.writable.folded)
  }

  /** The decision a policy stands for: longest match of the folded path over its two sets. */
  predicate Protected(host: Host, p: PathPolicy, path: string)
  {
    LongestMatch(Elements(p.readOnly.folded), Elements(p.writable.folded), host.fold(path))
  }

  /** The protection decision: longest match over the policy's own entries. */
  method Protects(host: Host, p: PathPolicy, path: string) returns (b: bool)
    requires WellFormed(p)
    ensures b == Protected(host, p, path)
  {
    var foldedPath := host.fold(path);
    ghost var ro, wr := Elements(p.readOnly.folded), Elements(p.writable.folded);
    if !p.Configured() {
      return false;
    }
    var roFolded, roOk := Covering(p.readOnly, foldedPath);
    var wrFolded, wrOk := Covering(p.writable, foldedPath);
    if roOk && wrOk {
      b := |roFolded| > |wrFolded|;
      BothCover(ro, wr, foldedPath, roFolded, wrFolded);
    } else if roOk {
      b := true;
      UnopposedWins(ro, wr, foldedPath);
    } else if wrOk {
      b := false;
    } else {
      b := |p.writable.entries| > 0;
      if b { assert p.writable.folded[0] in wr; }
    }
  }

  lemma BothCover(ro: set<string>, wr: set<string>, p: string, r: string, w: string)
    requires r in ro && Covers(r, p) && forall f :: f in ro && Covers(f, p) ==> |f| <= |r|
    requires w in wr && Covers(w, p) && forall f :: f in wr && Covers(f, p) ==> |f| <= |w|
    ensures Winner(ro, wr, p) <==> |r| > |w|
  {
    if |r| > |w| { assert Beats(r, wr, p); }
  }

  /** A policy answers for every path what longest match over the entries as written answers. */
  lemma PolicyResolvesAsWritten(ro: seq<EntryItem>, wr: seq<EntryItem>, p: PathPolicy, path: string)
    requires FoldedOf(ro) !! FoldedOf(wr) && p == PathPolicy(Collapsed(ro, wr), Collapsed(wr, ro))
    ensures WellFormed(p)
    ensures LongestMatch(Elements(p.readOnly.folded), Elements(p.writable.folded), path) ==
      LongestMatch(FoldedOf(ro), FoldedOf(wr), path)
  {
    CollapsedFolded(ro, wr);
    CollapsedFolded(wr, ro);
    CollapseKeepsAnswers(FoldedOf(ro), FoldedOf(wr), path);
  }

  /** What an entry becomes: one trailing slash goes and nothing else, and the result is a valid path; the
      list is refused for its first entry whose result is not. */
  lemma {:induction false} ItemsAreTrimmed(host: Host, entries: seq<string>)
    ensures match ItemsOf(host, entries)
            case Ok(items) =>
              && |items| == |entries|
              && forall i :: 0 <= i < |items| ==>
                   && host.valid(items[i].raw) && items[i].folded == host.fold(items[i].raw)
                   && (entries[i] == items[i].raw + "/" ||
                       (entries[i] == items[i].raw && (entries[i] == "" || entries[i][|entries[i]| - 1] != '/')))
            case Err(e) =>
              exists i :: 0 <= i < |entries| && e == InvalidEntry(entries[i]) && !host.valid(TrimSlash(entries[i])) &&
                          forall j :: 0 <= j < i ==> host.valid(TrimSlash(entries[j]))
  {
    if entries != [] {
      var rest := ItemsOf(host, entries[1..]);
      ItemsAreTrimmed(host, entries[1..]);
      assert entries[0] != "" && entries[0][|entries[0]| - 1] == '/' ==> entries[0] == TrimSlash(entries[0]) + "/";
      if host.valid(TrimSlash(entries[0])) && rest.Err? {
        var i :| 0 <= i < |entries[1..]| && rest.error == InvalidEntry(entries[1..][i]) &&
                 !host.valid(TrimSlash(entries[1..][i])) &&
                 forall j :: 0 <= j < i ==> host.valid(TrimSlash(entries[1..][j]));
        assert entries[i + 1] == entries[1..][i];
        forall j | 0 <= j < i + 1 ensures host.valid(TrimSlash(entries[j])) {
          if j > 0 { assert entries[j] == entries[1..][j - 1]; }
        }
      }
    }
  }

  // ---- Rebuilding ----

  /** p is the policy NewPolicy builds from the two lists. */
  ghost predicate PolicyOf(host: Host, readOnly: seq<string>, writable: seq<string>, p: PathPolicy)
  {
    && ItemsOf(host, readOnly).Ok? && ItemsOf(host, writable).Ok?
    && var ro, wr := ItemsOf(host, readOnly).value, ItemsOf(host, writable).value;
       FoldedOf(ro) !! FoldedOf(wr) && p == PathPolicy(Collapsed(ro, wr), Collapsed(wr, ro))
  }

  ghost predicate Checked(host: Host, items: seq<EntryItem>)
  {
    forall it :: it in items ==> host.valid(it.raw) && it.folded == host.fold(it.raw)
  }

  lemma {:induction false} ItemsAreChecked(host: Host, entries: seq<string>)
    requires ItemsOf(host, entries).Ok?
    ensures Checked(host, ItemsOf(host, entries).value)
  {
    if entries != [] { ItemsAreChecked(host, entries[1..]); }
  }

  lemma {:induction false} ItemsOfRaws(host: Host, items: seq<EntryItem>)
    requires host.Sane() && Checked(host, items)
    ensures ItemsOf(host, SetOf(items).entries) == Ok(items)
  {
    if items != [] {
      assert SetOf(items).entries[1..] == SetOf(items[1..]).entries;
      assert items[0] in items;
      ItemsOfRaws(host, items[1..]);
      assert items == [items[0]] + items[1..];
    }
  }

  /** The items a collapse keeps, in advertised order. */
  function Survivors(items: seq<EntryItem>, other: seq<EntryItem>): seq<EntryItem>
  {
    Sort(Kept(items, other, |items|), Raw)
  }

  lemma OneOfEachFolded(items: seq<EntryItem>, x: EntryItem, y: EntryItem)
    requires DistinctFolded(items) && x in items && y in items && x.folded == y.folded
    ensures x == y
  {
  }

  lemma SurvivorsAscend(host: Host, items: seq<EntryItem>, other: seq<EntryItem>)
    requires Checked(host, items)
    ensures Ascending(Survivors(items, other), Raw)
  {
    var kept := Kept(items, other, |items|);
    KeptFolded(items, other, |items|);
    forall i, j | 0 <= i < j < |kept| ensures Raw(kept[i]) != Raw(kept[j]) {
      assert kept[i] in items && kept[j] in items;
    }
    SortAscending(kept, Raw);
  }

  lemma SurvivorsMembers(host: Host, items: seq<EntryItem>, other: seq<EntryItem>)
    requires Checked(host, items)
    ensures Checked(host, Survivors(items, other))
    ensures DistinctFolded(Survivors(items, other))
  {
    var kept, out := Kept(items, other, |items|), Survivors(items, other);
    KeptFolded(items, other, |items|);
    forall it | it in out ensures it in kept && it in items { SortMembers(kept, Raw, it); }
    SurvivorsAscend(host, items, other);
    forall i, j | 0 <= i < j < |out| ensures out[i].folded != out[j].folded {
      LessIrreflexive(out[i].raw);
      if out[i].folded == out[j].folded { OneOfEachFolded(kept, out[i], out[j]); }
    }
  }

  lemma SurvivorsFolded(items: seq<EntryItem>, other: seq<EntryItem>)
    ensures FoldedOf(Survivors(items, other)) == Collapse(FoldedOf(items), FoldedOf(other))
  {
    KeptFolded(items, other, |items|);
    assert items[..|items|] == items;
    SortFolded(Kept(items, other, |items|));
  }

  lemma {:induction false} NothingDropped(items: seq<EntryItem>, other: seq<EntryItem>, n: nat)
    requires n <= |items| && DistinctFolded(items)
    requires Collapse(FoldedOf(items), FoldedOf(other)) == FoldedOf(items)
    ensures Kept(items, other, n) == items[..n]
    decreases n
  {
    if n > 0 {
      NothingDropped(items, other, n - 1);
      var it := items[n - 1];
      assert it.folded in FoldedOf(items);
      assert it.folded !in FoldedOf(items[..n - 1]);
      assert items[..n] == items[..n - 1] + [it];
    }
  }

  lemma CollapseOfSurvivors(host: Host, ro: seq<EntryItem>, wr: seq<EntryItem>)
    requires FoldedOf(ro) !! FoldedOf(wr) && Checked(host, ro)
    ensures Collapsed(Survivors(ro, wr), Survivors(wr, ro)) == SetOf(Survivors(ro, wr))
  {
    var out := Survivors(ro, wr);
    SurvivorsFolded(ro, wr);
    SurvivorsFolded(wr, ro);
    CollapseIdempotent(FoldedOf(ro), FoldedOf(wr));
    SurvivorsMembers(host, ro, wr);
    SurvivorsAscend(host, ro, wr);
    NothingDropped(out, Survivors(wr, ro), |out|);
    assert out[..|out|] == out;
    SortOfAscending(out, Raw);
  }

  /** The advertised entries cannot be fewer: each is needed for some answer, except a read-only entry that
      repeats the default for what no entry covers. */
  lemma PolicyIsMinimal(host: Host, readOnly: seq<string>, writable: seq<string>, p: PathPolicy, e: string)
    requires PolicyOf(host, readOnly, writable, p)
    ensures var ro, wr := Elements(p.readOnly.folded), Elements(p.writable.folded);
            && (e in ro ==>
                  (ReadOnlyNeeded(ro, wr, e) <==> wr == {} || exists a :: a in ro + wr && IsAncestor(a, e)))
            && (e in wr ==> WritableNeeded(ro, wr, e))
  {
    var r, w := ItemsOf(host, readOnly).value, ItemsOf(host, writable).value;
    CollapsedFolded(r, w);
    CollapsedFolded(w, r);
    CollapseIdempotent(FoldedOf(r), FoldedOf(w));
    CollapseIdempotent(FoldedOf(w), FoldedOf(r));
    var ro, wr := Elements(p.readOnly.folded), Elements(p.writable.folded);
    if e in ro { ReadOnlyEntriesAreNeeded(ro, wr, e); }
    if e in wr { WritableEntriesAreNeeded(ro, wr, e); }
  }

  /** The advertised entries are a lossless input: the policy rebuilt from them is the same policy. */
  lemma RebuildIsIdentity(host: Host, readOnly: seq<string>, writable: seq<string>, p: PathPolicy)
    requires host.Sane() && PolicyOf(host, readOnly, writable, p)
    ensures PolicyOf(host, p.readOnly.entries, p.writable.entries, p)
  {
    var ro, wr := ItemsOf(host, readOnly).value, ItemsOf(host, writable).value;
    ItemsAreChecked(host, readOnly);
    ItemsAreChecked(host, writable);
    SurvivorsMembers(host, ro, wr);
    SurvivorsMembers(host, wr, ro);
    ItemsOfRaws(host, Survivors(ro, wr));
    ItemsOfRaws(host, Survivors(wr, ro));
    SurvivorsFolded(ro, wr);
    SurvivorsFolded(wr, ro);
    CollapseOfSurvivors(host, ro, wr);
    CollapseOfSurvivors(host, wr, ro);
  }
}
