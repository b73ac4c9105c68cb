/** The notebook line rule shared by the line diff and the conflict-marker scan: a line is an
    LF-terminated run with one trailing CR stripped, or the final run without a terminator. */
module TextLines {

  const LF: char := '\n'
  const CR: char := '\r'

  function StripCR(line: string): string
  {
    if |line| > 0 && line[|line| - 1] == CR then line[..|line| - 1] else line
  }

  /** The lines of open + rest when open is the beginning of an unfinished line. */
  function LinesFrom(open: string, rest: string): seq<string>
    decreases rest
  {
    if rest == [] then (if open == [] then [] else [StripCR(open)])
    else if rest[0] == LF then [StripCR(open)] + LinesFrom([], rest[1..])
    else LinesFrom(open + [rest[0]], rest[1..])
  }

  /** The comparison lines of content. */
  function Lines(data: string): seq<string>
  {
    LinesFrom([], data)
  }

  lemma {:induction false} LinesFromRun(open: string, run: string, rest: string)
    requires LF !in run
    ensures LinesFrom(open, run + rest) == LinesFrom(open + run, rest)
    decreases run
  {
    if run == [] {
      assert run + rest == rest && open + run == open;
    } else {
      assert (run + rest)[1..] == run[1..] + rest && open + [run[0]] + run[1..] == open + run;
      LinesFromRun(open + [run[0]], run[1..], rest);
    }
  }

  /** Cutting at the first line feed gives the first line. */
  lemma LinesCut(line: string, rest: string)
    requires LF !in line
    ensures Lines(line + [LF] + rest) == [StripCR(line)] + Lines(rest)
    ensures line != [] ==> Lines(line) == [StripCR(line)]
  {
    LinesFromRun([], line, [LF] + rest);
    LinesFromRun([], line, []);
    assert [] + line == line && line + [] == line;
    assert line + [LF] + rest == line + ([LF] + rest) && ([LF] + rest)[1..] == rest;
  }

  /** The line rule, from the bytes alone: a line ends at a line feed or at the end of the content, one
      carriage return before that end is not part of it, and nothing else is dropped or changed. */
  lemma LineRule(s: string, rest: string)
    requires '\n' !in s
    ensures Lines("") == []
    ensures Lines(s + "\r\n" + rest) == [s] + Lines(rest)
    ensures Lines(s + "\r") == [s]
    ensures s == "" || s[|s| - 1] != '\r' ==> Lines(s + "\n" + rest) == [s] + Lines(rest)
    ensures s != "" && s[|s| - 1] != '\r' ==> Lines(s) == [s]
  {
    var line := s + "\r";
    LinesCut(line, rest);
    LinesCut(s, rest);
    assert s + "\r\n" + rest == line + [LF] + rest && line[..|s|] == s;
    assert s + "\n" + rest == s + [LF] + rest;
  }

  /** The line split of internal/git/diffstat.go. */
  method SplitLines(data: string) returns (lines: seq<string>)
    ensures lines == Lines(data)
  {
    lines := [];
    if |data| == 0 {
      return;
    }
    var start := 0;
    for i := 0 to |data|
      invariant 0 <= start <= i
      invariant lines + LinesFrom(data[start..i], data[i..]) == Lines(data)
    {
      assert data[i..][1..] == data[i + 1..];
      if data[i] == LF {
        ghost var line := [StripCR(data[start..i])];
        assert lines + (line + LinesFrom([], data[i + 1..])) == lines + line + LinesFrom([], data[i + 1..]);
        lines := lines + [StripCR(data[start..i])];
        start := i + 1;
        assert data[start..i + 1] == [];
      } else {
        assert data[start..i] + [data[i]] == data[start..i + 1];
      }
    }
    assert data[|data|..] == [] && data[start..|data|] == data[start..];
    if start < |data| {
      lines := lines + [StripCR(data[start..])];
    }
  }

  function CountLF(data: string): nat
  {
    if data == [] then 0 else (if data[0] == LF then 1 else 0) + CountLF(data[1..])
  }

  function CountLines(data: string): nat
  {
    if |data| == 0 then 0
    else CountLF(data) + if data[|data| - 1] != LF then 1 else 0
  }

  lemma {:induction false} LinesFromLength(open: string, rest: string)
    ensures |LinesFrom(open, rest)| == if rest == [] then (if open == [] then 0 else 1) else CountLines(rest)
    decreases rest
  {
    if rest != [] {
      LinesFromLength([], rest[1..]);
      LinesFromLength(open + [rest[0]], rest[1..]);
      assert rest[1..] != [] ==> rest[1..][|rest| - 2] == rest[|rest| - 1];
      assert |rest| == 1 ==> CountLF(rest[1..]) == 0;
    }
  }

  /** Counting terminators gives the number of comparison lines without materializing them. */
  lemma CountLinesIsLength(data: string)
    ensures CountLines(data) == |Lines(data)|
  {
    LinesFromLength([], data);
  }

  /** Rewriting every LF as CRLF. */
  function ToCrlf(data: string): string
  {
    if data == [] then [] else (if data[0] == LF then [CR, LF] else [data[0]]) + ToCrlf(data[1..])
  }

  lemma {:induction false} CrlfJoin(a: string, b: string)
    ensures ToCrlf(a + b) == ToCrlf(a) + ToCrlf(b)
    decreases a
  {
    if a == "" {
      assert a + b == b;
    } else {
      CrlfJoin(a[1..], b);
      var head, front, back := if a[0] == LF then [CR, LF] else [a[0]], ToCrlf(a[1..]), ToCrlf(b);
      assert (a + b)[1..] == a[1..] + b && (a + b)[0] == a[0];
      assert head + (front + back) == head + front + back;
    }
  }

  lemma {:induction false} CrlfOfRun(s: string)
    requires '\n' !in s
    ensures ToCrlf(s) == s
    decreases s
  {
    if s != "" { CrlfOfRun(s[1..]); }
  }

  /** The rewrite puts one carriage return before every line feed and changes nothing else. */
  lemma CrlfRule(s: string, rest: string)
    requires '\n' !in s
    ensures ToCrlf(s) == s && ToCrlf(s + "\n" + rest) == s + "\r\n" + ToCrlf(rest)
  {
    CrlfOfRun(s);
    CrlfJoin(s, "\n");
    CrlfJoin(s + "\n", rest);
    assert ToCrlf("\n") == "\r\n" by { assert "\n"[1..] == []; }
  }

  lemma {:induction false} CrlfSameLinesFrom(open: string, rest: string)
    requires CR !in open && CR !in rest
    ensures LinesFrom(open, ToCrlf(rest)) == LinesFrom(open, rest)
    decreases rest
  {
    if rest != [] {
      var out := ToCrlf(rest);
      if rest[0] == LF {
        assert out[1..] == [LF] + ToCrlf(rest[1..]) && out[1..][1..] == ToCrlf(rest[1..]);
        CrlfSameLinesFrom([], rest[1..]);
        assert StripCR(open + [CR]) == open == StripCR(open);
      } else {
        assert out[1..] == ToCrlf(rest[1..]);
        CrlfSameLinesFrom(open + [rest[0]], rest[1..]);
      }
    }
  }

  /** A CRLF rewrite of CR-free content has the same comparison lines. */
  lemma CrlfSameLines(data: string)
    requires CR !in data
    ensures Lines(ToCrlf(data)) == Lines(data)
  {
    CrlfSameLinesFrom([], data);
  }
}
