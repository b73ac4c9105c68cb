/** Conflict-marker blocks (internal/git/merge.go): the scanner, the rendered delete conflict, and why an
    unedited conflict is always found again. */
module Conflicts {
  import opened TextLines

  const MarkerOpen: string := "<<<<<<< local"
  const MarkerSep: string := "======="
  const MarkerClose: string := ">>>>>>> remote"

  /** One-based, inclusive rows. */
  datatype Range = Range(start: nat, end: nat)

  /** What a line is to the scanner; the labels are exact. */
  datatype Kind = Open | Sep | Close | Text

  function KindOf(line: string): Kind
  {
    if line == MarkerOpen then Open else if line == MarkerSep then Sep else if line == MarkerClose then Close else Text
  }

  function Kinds(lines: seq<string>): seq<Kind> { seq(|lines|, i requires 0 <= i < |lines| => KindOf(lines[i])) }

  // ---- Reference definition ----

  /** The first line from a position on of this kind, or the number of lines. */
  function FirstIndex(ks: seq<Kind>, from: nat, kind: Kind): (i: nat)
    ensures i <= |ks| && (from <= |ks| ==> from <= i)
    ensures i < |ks| ==> from <= i && ks[i] == kind
    decreases |ks| - from
  {
    if from >= |ks| then |ks| else if ks[from] == kind then from else FirstIndex(ks, from + 1, kind)
  }

  lemma {:induction false} FirstIndexIsFirst(ks: seq<Kind>, from: nat, kind: Kind, k: nat)
    requires from <= k < |ks| && ks[k] == kind
    ensures FirstIndex(ks, from, kind) <= k
    decreases |ks| - from
  {
    if ks[from] != kind { FirstIndexIsFirst(ks, from + 1, kind, k); }
  }

  /** The blocks from a line on: the first opener, the first separator after it, the first closer after
      that, and then the blocks behind the closer. */
  function Blocks(ks: seq<Kind>, from: nat): seq<Range>
    decreases |ks| - from, 2
  {
    var i := FirstIndex(ks, from, Open);
    if i >= |ks| then [] else AfterOpen(ks, i, i + 1)
  }

  function AfterOpen(ks: seq<Kind>, opener: nat, from: nat): seq<Range>
    decreases |ks| - from, 1
  {
    var j := FirstIndex(ks, from, Sep);
    if j >= |ks| then [] else AfterSep(ks, opener, j + 1)
  }

  function AfterSep(ks: seq<Kind>, opener: nat, from: nat): seq<Range>
    decreases |ks| - from, 0
  {
    var k := FirstIndex(ks, from, Close);
    if k >= |ks| then [] else [Range(opener + 1, k + 1)] + Blocks(ks, k + 1)
  }

  /** The blocks of a document. */
  function BlocksOf(data: string): seq<Range> { Blocks(Kinds(Lines(data)), 0) }

  // ---- Lines of joined text ----

  predicate Terminated(data: string) { data == [] || data[|data| - 1] == LF }

  lemma {:induction false} LinesFromJoin(open: string, a: string, b: string)
    requires a != [] && a[|a| - 1] == LF
    ensures LinesFrom(open, a + b) == LinesFrom(open, a) + Lines(b)
    decreases a
  {
    assert (a + b)[1..] == a[1..] + b;
    if a[0] == LF {
      if a[1..] != [] {
        LinesFromJoin([], a[1..], b);
      } else {
        assert a[1..] + b == b;
      }
      LineThen(StripCR(open), LinesFrom([], a[1..]), Lines(b));
    } else {
      LinesFromJoin(open + [a[0]], a[1..], b);
    }
  }

  lemma LineThen(line: string, rest: seq<string>, more: seq<string>)
    ensures [line] + (rest + more) == [line] + rest + more
  {
  }

  /** Terminated text contributes its own lines, whatever follows. */
  lemma LinesJoin(a: string, b: string)
    requires Terminated(a)
    ensures Lines(a + b) == Lines(a) + Lines(b)
  {
    if a == [] { assert a + b == b; } else { LinesFromJoin([], a, b); }
  }

  // ---- The scanner ----

  /** Splits at the first line feed. */
  method Cut(data: string) returns (line: string, rest: string)
    requires data != []
    ensures |rest| < |data| && Lines(data) == [StripCR(line)] + Lines(rest)
  {
    var n := 0;
    while n < |data| && data[n] != LF
      invariant n <= |data| && LF !in data[..n]
      decreases |data| - n
    {
      n := n + 1;
    }
    line := data[..n];
    LinesCut(line, if n < |data| then data[n + 1..] else []);
    if n < |data| {
      rest := data[n + 1..];
      assert data == line + [LF] + rest;
    } else {
      rest := [];
      assert data == line;
    }
  }

  /** What the scanner still has to find, by its state. */
  function Pending(ks: seq<Kind>, state: nat, opener: nat, from: nat): seq<Range>
  {
    if state == 0 then Blocks(ks, from) else if state == 1 then AfterOpen(ks, opener, from)
      else AfterSep(ks, opener, from)
  }

  lemma ScanStep(ks: seq<Kind>, state: nat, opener: nat, from: nat)
    requires from < |ks| && state <= 2
    ensures Pending(ks, state, opener, from) ==
            if state == 0 && ks[from] == Open then Pending(ks, 1, from, from + 1)
            else if state == 1 && ks[from] == Sep then Pending(ks, 2, opener, from + 1)
            else if state == 2 && ks[from] == Close
              then [Range(opener + 1, from + 1)] + Pending(ks, 0, opener, from + 1)
            else Pending(ks, state, opener, from + 1)
  {
  }

  /** What was found before a row and what is pending there are all the blocks. */
  ghost predicate Scanned(ks: seq<Kind>, ranges: seq<Range>, state: nat, start: nat, row: nat)
  {
    state <= 2 && start >= 1 && row >= 1 && ranges + Pending(ks, state, start - 1, row - 1) == Blocks(ks, 0)
  }

  lemma ScanRow(ks: seq<Kind>, ranges: seq<Range>, state: nat, start: nat, row: nat)
    requires Scanned(ks, ranges, state, start, row) && row <= |ks|
    ensures if state == 0 && ks[row - 1] == Open then Scanned(ks, ranges, 1, row, row + 1)
            else if state == 1 && ks[row - 1] == Sep then Scanned(ks, ranges, 2, start, row + 1)
            else if state == 2 && ks[row - 1] == Close
              then Scanned(ks, ranges + [Range(start, row)], 0, start, row + 1)
            else Scanned(ks, ranges, state, start, row + 1)
  {
    ScanStep(ks, state, start - 1, row - 1);
    var found := [Range(start, row)];
    assert ranges + (found + Pending(ks, 0, start - 1, row)) == ranges + found + Pending(ks, 0, start - 1, row);
  }

  lemma ScanEnd(ks: seq<Kind>, ranges: seq<Range>, state: nat, start: nat, row: nat)
    requires Scanned(ks, ranges, state, start, row) && row > |ks|
    ensures ranges == Blocks(ks, 0)
  {
    assert Pending(ks, state, start - 1, row - 1) == [];
  }

  /** The data still to read are the lines from a row on. */
  ghost predicate Reading(lines: seq<string>, data: string, row: nat)
  {
    1 <= row <= |lines| + 1 && Lines(data) == lines[row - 1..]
  }

  lemma ReadLine(lines: seq<string>, data: string, row: nat, line: string, rest: string)
    requires Reading(lines, data, row) && Lines(data) == [line] + Lines(rest)
    ensures row <= |lines| && lines[row - 1] == line && Reading(lines, rest, row + 1)
  {
    var left := lines[row - 1..];
    assert left[0] == line && left[1..] == lines[row..];
    assert ([line] + Lines(rest))[1..] == Lines(rest);
  }

  /** FindConflictBlocks computes the reference definition on the comparison lines. */
  method FindConflictBlocks(data0: string) returns (ranges: seq<Range>)
    ensures ranges == BlocksOf(data0) && AllBlocks(Lines(data0), 0, ranges)
  {
    var data, start, state, row := data0, 1, 0, 1;
    ghost var lines := Lines(data0);
    ghost var ks := Kinds(lines);
    ranges := [];
    while |data| > 0
      invariant Reading(lines, data, row) && Scanned(ks, ranges, state, start, row)
      decreases |data|
    {
      var line, rest := Cut(data);
      line := StripCR(line);
      ReadLine(lines, data, row, line, rest);
      data := rest;
      ScanRow(ks, ranges, state, start, row);
      var kind := KindOf(line);
      assert ks[row - 1] == kind;
      if kind == Open {
        if state == 0 {
          start, state := row, 1;
        }
      } else if kind == Sep {
        if state == 1 {
          state := 2;
        }
      } else if kind == Close {
        if state == 2 {
          ranges := ranges + [Range(start, row)];
          state := 0;
        }
      }
      row := row + 1;
    }
    ScanEnd(ks, ranges, state, start, row);
    BlocksAreAll(lines, 0);
  }

  // ---- What the ranges are ----

  /** From an opener over a separator to a closer. */
  ghost predicate IsBlock(ks: seq<Kind>, r: Range)
  {
    && 1 <= r.start < r.end <= |ks| && ks[r.start - 1] == Open && ks[r.end - 1] == Close
    && exists j :: r.start - 1 < j < r.end - 1 && ks[j] == Sep
  }

  /** Ordered, disjoint blocks. */
  ghost predicate AreBlocks(ks: seq<Kind>, from: nat, ranges: seq<Range>)
  {
    && (forall a :: 0 <= a < |ranges| ==> IsBlock(ks, ranges[a]) && from < ranges[a].start)
    && forall a, b :: 0 <= a < b < |ranges| ==> ranges[a].end < ranges[b].start
  }

  lemma OneMoreBlock(ks: seq<Kind>, from: nat, r: Range, rest: seq<Range>)
    requires IsBlock(ks, r) && from < r.start && AreBlocks(ks, r.end, rest)
    ensures AreBlocks(ks, from, [r] + rest)
  {
    var all := [r] + rest;
    forall a | 0 <= a < |all| ensures IsBlock(ks, all[a]) && from < all[a].start {
      assert a > 0 ==> all[a] == rest[a - 1];
    }
  }

  /** The first block, from the positions of its three markers. */
  lemma FirstBlock(ks: seq<Kind>, from: nat)
    ensures var i := FirstIndex(ks, from, Open); var j := FirstIndex(ks, i + 1, Sep);
      var k := FirstIndex(ks, j + 1, Close);
            Blocks(ks, from) == if k < |ks| then [Range(i + 1, k + 1)] + Blocks(ks, k + 1) else []
  {
    var i := FirstIndex(ks, from, Open);
    if i < |ks| {
      assert Blocks(ks, from) == AfterOpen(ks, i, i + 1);
      var j := FirstIndex(ks, i + 1, Sep);
      if j < |ks| { assert AfterOpen(ks, i, i + 1) == AfterSep(ks, i, j + 1); }
    }
  }

  lemma {:induction false} BlocksAreBlocks(ks: seq<Kind>, from: nat)
    ensures AreBlocks(ks, from, Blocks(ks, from))
    decreases |ks| - from
  {
    var i := FirstIndex(ks, from, Open);
    var j := FirstIndex(ks, i + 1, Sep);
    var k := FirstIndex(ks, j + 1, Close);
    FirstBlock(ks, from);
    if k < |ks| {
      BlocksAreBlocks(ks, k + 1);
      assert ks[j] == Sep && IsBlock(ks, Range(i + 1, k + 1));
      OneMoreBlock(ks, from, Range(i + 1, k + 1), Blocks(ks, k + 1));
    }
  }

  predicate Reads(lines: seq<string>, r: nat, text: string) { 1 <= r <= |lines| && lines[r - 1] == text }

  /** Row r is the first one after a row that reads like this. */
  ghost predicate FirstAfter(lines: seq<string>, from: nat, r: nat, text: string)
  {
    from < r && Reads(lines, r, text) && forall q :: from < q < r ==> !Reads(lines, q, text)
  }

  /** The rule for the blocks after a row, on the lines themselves: the first opener, the first separator
      after it and the first closer after that make a block, and so on from its last row; no complete
      block is left behind the last one. */
  ghost predicate AllBlocks(lines: seq<string>, from: nat, blocks: seq<Range>)
    decreases |blocks|
  {
    if blocks == [] then
      !exists i, j, k :: from < i < j < k && Reads(lines, i, "<<<<<<< local") && Reads(lines, j, "=======") &&
                         Reads(lines, k, ">>>>>>> remote")
    else
      && FirstAfter(lines, from, blocks[0].start, "<<<<<<< local")
      && (exists sep :: FirstAfter(lines, blocks[0].start, sep, "=======") &&
                        FirstAfter(lines, sep, blocks[0].end, ">>>>>>> remote"))
      && AllBlocks(lines, blocks[0].end, blocks[1..])
  }

  lemma FirstIndexIsFirstAfter(lines: seq<string>, from: nat, kind: Kind, text: string)
    requires from <= |lines| && forall line :: KindOf(line) == kind <==> line == text
    ensures var i := FirstIndex(Kinds(lines), from, kind);
            if i < |lines| then FirstAfter(lines, from, i + 1, text)
            else forall q :: from < q ==> !Reads(lines, q, text)
  {
    var ks := Kinds(lines);
    var i := FirstIndex(ks, from, kind);
    forall q | from < q <= i ensures !Reads(lines, q, text) {
      if Reads(lines, q, text) { FirstIndexIsFirst(ks, from, kind, q - 1); }
    }
  }

  /** The first block is the one the rule names. */
  lemma FirstBlockIsFirst(lines: seq<string>, from: nat)
    requires from <= |lines| && Blocks(Kinds(lines), from) != []
    ensures var blocks := Blocks(Kinds(lines), from);
            && from < blocks[0].end <= |lines| && blocks[1..] == Blocks(Kinds(lines), blocks[0].end)
            && FirstAfter(lines, from, blocks[0].start, "<<<<<<< local")
            && exists sep :: FirstAfter(lines, blocks[0].start, sep, "=======") &&
                             FirstAfter(lines, sep, blocks[0].end, ">>>>>>> remote")
  {
    var i, j, k := FirstMarkers(Kinds(lines), from);
    FirstIndexIsFirstAfter(lines, from, Open, "<<<<<<< local");
    FirstIndexIsFirstAfter(lines, i + 1, Sep, "=======");
    FirstIndexIsFirstAfter(lines, j + 1, Close, ">>>>>>> remote");
    assert FirstAfter(lines, i + 1, j + 1, "=======");
  }

  lemma FirstMarkers(ks: seq<Kind>, from: nat) returns (i: nat, j: nat, k: nat)
    requires from <= |ks| && Blocks(ks, from) != []
    ensures i == FirstIndex(ks, from, Open) && j == FirstIndex(ks, i + 1, Sep) && k == FirstIndex(ks, j + 1, Close)
    ensures from <= i < j < k < |ks|
    ensures Blocks(ks, from)[0] == Range(i + 1, k + 1) && Blocks(ks, from)[1..] == Blocks(ks, k + 1)
  {
    FirstBlock(ks, from);
    i := FirstIndex(ks, from, Open);
    j := FirstIndex(ks, i + 1, Sep);
    k := FirstIndex(ks, j + 1, Close);
  }

  lemma NoneLeft(lines: seq<string>, from: nat)
    requires from <= |lines| && Blocks(Kinds(lines), from) == []
    ensures AllBlocks(lines, from, [])
  {
    var ks := Kinds(lines);
    BlockExactlyWhenInOrder(ks, from);
    forall i, j, k | from < i < j < k
      ensures !(Reads(lines, i, "<<<<<<< local") && Reads(lines, j, "=======") && Reads(lines, k, ">>>>>>> remote"))
    {
      assert !InOrder(ks, from, i - 1, j - 1, k - 1);
    }
  }

  /** Every complete block is found, and nothing else. */
  lemma {:induction false} BlocksAreAll(lines: seq<string>, from: nat)
    requires from <= |lines|
    ensures AllBlocks(lines, from, Blocks(Kinds(lines), from))
    decreases |lines| - from
  {
    var blocks := Blocks(Kinds(lines), from);
    if blocks == [] {
      NoneLeft(lines, from);
    } else {
      FirstBlockIsFirst(lines, from);
      BlocksAreAll(lines, blocks[0].end);
    }
  }

  /** The rule leaves one answer. */
  lemma {:induction false} AllBlocksUnique(lines: seq<string>, from: nat, a: seq<Range>, b: seq<Range>)
    requires AllBlocks(lines, from, a) && AllBlocks(lines, from, b)
    ensures a == b
    decreases |a|
  {
    if a != [] && b != [] {
      var m :| FirstAfter(lines, a[0].start, m, "=======") && FirstAfter(lines, m, a[0].end, ">>>>>>> remote");
      var n :| FirstAfter(lines, b[0].start, n, "=======") && FirstAfter(lines, n, b[0].end, ">>>>>>> remote");
      assert a[0].start == b[0].start && m == n && a[0] == b[0];
      AllBlocksUnique(lines, a[0].end, a[1..], b[1..]);
      assert a == [a[0]] + a[1..] && b == [b[0]] + b[1..];
    }
  }

  ghost predicate InOrder(ks: seq<Kind>, from: nat, i: nat, j: nat, k: nat)
  {
    from <= i < j < k < |ks| && ks[i] == Open && ks[j] == Sep && ks[k] == Close
  }

  /** There is a block exactly when the three markers occur in order. */
  lemma BlockExactlyWhenInOrder(ks: seq<Kind>, from: nat)
    ensures Blocks(ks, from) != [] <==> exists i, j, k :: InOrder(ks, from, i, j, k)
  {
    var i0 := FirstIndex(ks, from, Open);
    var j0 := FirstIndex(ks, i0 + 1, Sep);
    var k0 := FirstIndex(ks, j0 + 1, Close);
    FirstBlock(ks, from);
    if Blocks(ks, from) != [] {
      assert InOrder(ks, from, i0, j0, k0);
    }
    if exists i, j, k :: InOrder(ks, from, i, j, k) {
      var i, j, k :| InOrder(ks, from, i, j, k);
      FirstIndexIsFirst(ks, from, Open, i);
      FirstIndexIsFirst(ks, i0 + 1, Sep, j);
      FirstIndexIsFirst(ks, j0 + 1, Close, k);
    }
  }

  /** Rewriting CR-free text from LF to CRLF changes no answer. */
  lemma CrlfSameBlocks(data: string)
    requires CR !in data
    ensures BlocksOf(ToCrlf(data)) == BlocksOf(data)
  {
    CrlfSameLines(data);
  }

  // ---- Delete conflicts ----

  function Closed(data: string): string { if |data| == 0 || data[|data| - 1] != LF then data + [LF] else data }

  function FormatDeleteConflict(local: string, remote: string): string
  {
    MarkerOpen + [LF] + Closed(local) + (MarkerSep + [LF]) + Closed(remote) + (MarkerClose + [LF])
  }

  /** The surviving side's lines; the deleted side shows one empty line. */
  function ShownLines(side: string): seq<string> { if side == "" then [""] else Lines(side) }

  /** Closing the last line changes no line. */
  lemma ClosedLines(side: string)
    ensures Lines(Closed(side)) == ShownLines(side)
  {
    var n := LastLine(side);
    var head, last := side[..n], side[n..];
    assert side == head + last;
    if last != "" {
      LinesJoin(head, last);
      LinesJoin(head, last + [LF]);
      LinesCut(last, []);
      assert last + [LF] + [] == last + [LF] && head + (last + [LF]) == side + [LF];
    } else if side == "" {
      LinesCut("", []);
      assert Closed(side) == "" + [LF] + [];
    }
  }

  /** Where the unterminated last line begins. */
  lemma LastLine(side: string) returns (n: nat)
    ensures n <= |side| && Terminated(side[..n]) && LF !in side[n..]
  {
    n := |side|;
    while n > 0 && side[n - 1] != LF
      invariant n <= |side| && LF !in side[n..]
    {
      assert side[n - 1..] == [side[n - 1]] + side[n..];
      n := n - 1;
    }
  }

  lemma MarkerLine(marker: string)
    requires marker in {MarkerOpen, MarkerSep, MarkerClose}
    ensures Lines(marker + [LF]) == [marker] && Terminated(marker + [LF])
  {
    LinesCut(marker, []);
    assert marker + [LF] + [] == marker + [LF];
    assert Lines([]) == [] && StripCR(marker) == marker;
  }

  lemma DeleteConflictLines(local: string, remote: string)
    ensures Lines(FormatDeleteConflict(local, remote)) ==
            ["<<<<<<< local"] + ShownLines(local) + ["======="] + ShownLines(remote) + [">>>>>>> remote"]
  {
    ClosedLines(local);
    ClosedLines(remote);
    MarkerLine(MarkerOpen);
    MarkerLine(MarkerSep);
    MarkerLine(MarkerClose);
    var a := MarkerOpen + [LF];
    LinesJoin(a, Closed(local));
    LinesJoin(a + Closed(local), MarkerSep + [LF]);
    LinesJoin(a + Closed(local) + (MarkerSep + [LF]), Closed(remote));
    LinesJoin(a + Closed(local) + (MarkerSep + [LF]) + Closed(remote), MarkerClose + [LF]);
  }

  /** Whatever the surviving content is, a rendered delete conflict holds a block that starts on its
      first row, so an unedited one is refused by the next commit. */
  lemma DeleteConflictIsFound(local: string, remote: string)
    ensures var ranges := BlocksOf(FormatDeleteConflict(local, remote)); ranges != [] && ranges[0].start == 1
  {
    DeleteConflictLines(local, remote);
    var lines := Lines(FormatDeleteConflict(local, remote));
    var ks, n := Kinds(lines), |ShownLines(local)|;
    assert lines[0] == MarkerOpen && lines[1 + n] == MarkerSep && lines[|lines| - 1] == MarkerClose;
    assert ks[0] == Open && ks[1 + n] == Sep && ks[|lines| - 1] == Close;
    assert InOrder(ks, 0, 0, 1 + n, |lines| - 1);
    BlockExactlyWhenInOrder(ks, 0);
    FirstBlock(ks, 0);
  }
}
