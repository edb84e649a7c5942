/** The samples file: written by LatencyHistogram.dump_csv, read back by the scripts' load_latency_csv. */
module Csv {
  import opened Words
  import opened Statistics

  // ---- decimal numbers ----

  function Digit(d: nat): char
    requires d < 10
  {
    '0' + d as char
  }

  predicate IsDigit(c: char) {
    '0' <= c <= '9'
  }

  function Print(n: nat): string {
    if n < 10 then [Digit(n)] else Print(n / 10) + [Digit(n % 10)]
  }

  predicate Numeral(s: string) {
    s != [] && forall i :: 0 <= i < |s| ==> IsDigit(s[i])
  }

  function Value(s: string): nat
    requires forall i :: 0 <= i < |s| ==> IsDigit(s[i])
  {
    if s == [] then 0
    else
      var c := s[|s| - 1];
      assert IsDigit(c);
      10 * Value(s[..|s| - 1]) + (c - '0') as nat
  }

  /** int(): fails on anything but a run of digits. */
  function Parse(s: string): Option<nat> {
    if Numeral(s) then Some(Value(s)) else None
  }

  lemma {:induction false} ParsePrint(n: nat)
    ensures Parse(Print(n)) == Some(n)
  {
    if n < 10 {
      assert Print(n) == [Digit(n)] && Value([]) == 0;
      assert [Digit(n)][..0] == [];
    } else {
      ParsePrint(n / 10);
      assert Print(n)[..|Print(n)| - 1] == Print(n / 10);
    }
  }

  /** The digits, and the places they stand in. */
  lemma PrintIsDecimal(q: nat, r: nat)
    requires r < 10
    ensures Print(r) == ["0123456789"[r]]
    ensures q > 0 ==> Print(10 * q + r) == Print(q) + ["0123456789"[r]]
  {
    assert Digit(r) == "0123456789"[r];
  }

  /** No leading zero is printed. */
  lemma {:induction false} NoLeadingZero(n: nat)
    ensures Print(n) != [] && (|Print(n)| > 1 ==> Print(n)[0] != '0')
    ensures n > 0 ==> Print(n)[0] != '0'
  {
    if n >= 10 {
      NoLeadingZero(n / 10);
    }
  }

  /** Printing a parsed numeral gives it back, unless it has leading zeros, */
  lemma {:induction false} PrintParse(s: string)
    requires Numeral(s) && (|s| == 1 || s[0] != '0')
    ensures Parse(s) == Some(Value(s)) && Print(Value(s)) == s
  {
    var c, front := s[|s| - 1], s[..|s| - 1];
    assert IsDigit(c);
    assert Digit((c - '0') as nat) == c;
    if front == [] {
      assert Value(front) == 0 && s == [c];
    } else {
      assert front[0] == s[0];
      PrintParse(front);
      PositiveValue(front);
      assert s == front + [c];
    }
  }

  lemma {:induction false} PositiveValue(s: string)
    requires Numeral(s) && s[0] != '0'
    ensures Value(s) > 0
  {
    assert IsDigit(s[|s| - 1]);
    if |s| > 1 {
      PositiveValue(s[..|s| - 1]);
    }
  }

  /** which count for nothing. */
  lemma {:induction false} LeadingZero(s: string)
    requires Numeral(s)
    ensures Parse("0" + s) == Parse(s)
  {
    var z := "0" + s;
    assert z[..|z| - 1] == "0" + s[..|s| - 1] && z[|z| - 1] == s[|s| - 1];
    if |s| > 1 {
      LeadingZero(s[..|s| - 1]);
    } else {
      assert s[..0] == [] && Value([]) == 0;
      assert "0" + [] == ['0'] && ['0'][..0] == [];
      assert Value("0" + []) == 0;
    }
  }

  // ---- splitting text ----

  /** No character of s is the separator. */
  predicate Free(s: string, sep: char) {
    forall i :: 0 <= i < |s| ==> s[i] != sep
  }

  /** The pieces of s between separators. */
  function Split(s: string, sep: char): (r: seq<string>)
    ensures |r| >= 1
  {
    if s == [] then [[]]
    else
      var rest := Split(s[1..], sep);
      if s[0] == sep then [[]] + rest else [[s[0]] + rest[0]] + rest[1..]
  }

  lemma {:induction false} SplitFirst(a: string, sep: char, rest: string)
    requires Free(a, sep)
    ensures Split(a + [sep] + rest, sep) == [a] + Split(rest, sep)
  {
    if a == [] {
      assert (a + [sep] + rest)[1..] == rest;
    } else {
      SplitFirst(a[1..], sep, rest);
      assert (a + [sep] + rest)[1..] == a[1..] + [sep] + rest;
      assert [a[0]] + a[1..] == a;
      assert ([a[1..]] + Split(rest, sep))[1..] == Split(rest, sep);
    }
  }

  lemma {:induction false} SplitLast(a: string, sep: char)
    requires Free(a, sep)
    ensures Split(a, sep) == [a]
  {
    if a != [] {
      SplitLast(a[1..], sep);
      assert [a[0]] + a[1..] == a;
    }
  }

  lemma {:induction false} NumeralIsFree(n: nat)
    ensures Free(Print(n), ',') && Free(Print(n), '\n')
  {
    ParsePrint(n);
    assert Numeral(Print(n));
  }

  // ---- writing ----

  const IDX := "sample_idx"
  const NS := "latency_ns"
  const US := "latency_us"
  const COLUMNS := IDX + "," + NS + "," + US

  /** One row; `us` renders the latency in microseconds. */
  function Row(i: nat, sample: nat, us: nat -> string): string {
    Print(i) + "," + Print(sample) + "," + us(sample)
  }

  function Rows(samples: seq<nat>, i: nat, us: nat -> string): string
    requires i <= |samples|
    decreases |samples| - i
  {
    if i == |samples| then "" else Row(i, samples[i], us) + "\n" + Rows(samples, i + 1, us)
  }

  function FileText(samples: seq<nat>, us: nat -> string): string {
    COLUMNS + "\n" + Rows(samples, 0, us)
  }

  lemma {:induction false} RowsSnoc(samples: seq<nat>, i: nat, n: nat, us: nat -> string)
    requires i <= n < |samples|
    ensures Rows(samples[..n + 1], i, us) == Rows(samples[..n], i, us) + (Row(n, samples[n], us) + "\n")
    decreases n - i
  {
    if i < n {
      RowsSnoc(samples, i + 1, n, us);
    } else {
      assert Rows(samples[..n + 1], n + 1, us) == "";
    }
  }

  lemma FileTextSnoc(samples: seq<nat>, n: nat, us: nat -> string)
    requires n < |samples|
    ensures FileText(samples[..n + 1], us) == FileText(samples[..n], us) + (Row(n, samples[n], us) + "\n")
  {
    RowsSnoc(samples, 0, n, us);
    Regroup(COLUMNS + "\n", Rows(samples[..n], 0, us), Row(n, samples[n], us) + "\n");
  }

  lemma Regroup(a: string, b: string, c: string)
    ensures a + (b + c) == a + b + c
  {
  }

  /** dump_csv: sorts, then writes the header and one row a sample. */
  method DumpCsv(h: LatencyHistogram, us: nat -> string) returns (out: string)
    requires h.Valid()
    modifies h
    ensures h.Valid() && h.Model() == After(old(h.Model()), Dump)
    ensures out == FileText(Sorted(old(h.samples)), us)
  {
    h.EnsureSorted();
    out := WriteRows(h.samples, us);
  }

  method WriteRows(samples: seq<nat>, us: nat -> string) returns (out: string)
    ensures out == FileText(samples, us)
  {
    out := COLUMNS + "\n";
    var i := 0;
    assert out == FileText(samples[..0], us);
    while i < |samples|
      invariant i <= |samples| && out == FileText(samples[..i], us)
    {
      FileTextSnoc(samples, i, us);
      out := out + (Row(i, samples[i], us) + "\n");
      i := i + 1;
    }
    assert samples[..i] == samples;
  }

  // ---- reading ----

  /** The column of that name, the last one if there are several. */
  function IndexOf(names: seq<string>, name: string): (r: Option<nat>)
    ensures r.Some? ==> r.value < |names| && names[r.value] == name && name !in names[r.value + 1..]
    ensures r.None? ==> name !in names
  {
    if names == [] then None
    else if names[|names| - 1] == name then Some(|names| - 1)
    else IndexOf(names[..|names| - 1], name)
  }

  predicate AllBlank(lines: seq<string>) {
    forall i :: 0 <= i < |lines| ==> lines[i] == ""
  }

  /** The number in column k of each non-blank line; fails if a line has no such column or no number in it. */
  function Column(lines: seq<string>, k: nat): Option<seq<nat>> {
    if lines == [] then Some([])
    else
      var last := lines[|lines| - 1];
      match Column(lines[..|lines| - 1], k)
      case None => None
      case Some(xs) =>
        if last == "" then Some(xs)
        else
          var fields := Split(last, ',');
          if k >= |fields| then None
          else match Parse(fields[k])
            case None => None
            case Some(x) => Some(xs + [x])
  }

  /** load_latency_csv: the first line, if there is one, names the columns, every further non-blank line is a row. The
      column is looked up row by row, so a file without rows needs none. */
  function LoadColumn(text: string): Option<seq<nat>> {
    var lines := Split(text, '\n');
    match IndexOf(Split(lines[0], ','), NS)
    case Some(k) => Column(lines[1..], k)
    case None => if AllBlank(lines[1..]) then Some([]) else None
  }

  function NonBlank(lines: seq<string>): seq<string> {
    if lines == [] then []
    else NonBlank(lines[..|lines| - 1]) + (if lines[|lines| - 1] == "" then [] else [lines[|lines| - 1]])
  }

  /** A line that has a number in column k. */
  predicate HasNumber(line: string, k: nat) {
    var fields := Split(line, ','); k < |fields| && Parse(fields[k]).Some?
  }

  predicate AllHaveNumbers(rows: seq<string>, k: nat) {
    forall i :: 0 <= i < |rows| ==> HasNumber(rows[i], k)
  }

  /** A column is read exactly if every non-blank line has a number in it; */
  lemma {:induction false} ColumnIsRead(lines: seq<string>, k: nat)
    ensures Column(lines, k).Some? <==> AllHaveNumbers(NonBlank(lines), k)
  {
    if lines != [] {
      var front, last := lines[..|lines| - 1], lines[|lines| - 1];
      ColumnIsRead(front, k);
      if last == "" {
        assert NonBlank(lines) == NonBlank(front) + [] == NonBlank(front);
      } else {
        OneRow(last, k);
        MoreRows(NonBlank(front), [last], k);
      }
    }
  }

  lemma OneRow(row: string, k: nat)
    ensures AllHaveNumbers([row], k) <==> HasNumber(row, k)
  {
    assert [row][0] == row;
  }

  lemma MoreRows(rows: seq<string>, more: seq<string>, k: nat)
    ensures AllHaveNumbers(rows + more, k) <==> AllHaveNumbers(rows, k) && AllHaveNumbers(more, k)
  {
    if AllHaveNumbers(rows + more, k) {
      assert forall i :: 0 <= i < |rows| ==> rows[i] == (rows + more)[i];
      assert forall i :: 0 <= i < |more| ==> more[i] == (rows + more)[|rows| + i];
    }
  }

  /** then those are the numbers, line by line. */
  lemma {:induction false} ColumnValues(lines: seq<string>, k: nat, xs: seq<nat>)
    requires Column(lines, k) == Some(xs)
    ensures |xs| == |NonBlank(lines)| && AllHaveNumbers(NonBlank(lines), k)
    ensures forall i :: 0 <= i < |xs| ==> Parse(Split(NonBlank(lines)[i], ',')[k]) == Some(xs[i])
  {
    ColumnIsRead(lines, k);
    if lines != [] {
      var front := lines[..|lines| - 1];
      ColumnValues(front, k, Column(front, k).value);
    }
  }

  lemma {:induction false} NothingNonBlank(lines: seq<string>)
    ensures AllBlank(lines) <==> NonBlank(lines) == []
  {
    if lines != [] {
      NothingNonBlank(lines[..|lines| - 1]);
    }
  }

  /** What a file gives: without the column, nothing if it has no row, and otherwise a failure; with it, the column. */
  lemma LoadMeaning(text: string)
    ensures var lines := Split(text, '\n'); var (names, rows) := (Split(lines[0], ','), NonBlank(lines[1..]));
      && ("latency_ns" !in names ==> LoadColumn(text) == if rows == [] then Some([]) else None)
      && (forall k :: 0 <= k < |names| && names[k] == "latency_ns" && "latency_ns" !in names[k + 1..] ==>
            LoadColumn(text) == Column(lines[1..], k))
  {
    var lines := Split(text, '\n');
    var names := Split(lines[0], ',');
    NothingNonBlank(lines[1..]);
    forall k | 0 <= k < |names| && names[k] == NS && NS !in names[k + 1..]
      ensures IndexOf(names, NS) == Some(k)
    {
      LastOne(names, NS, k, IndexOf(names, NS));
    }
  }

  lemma LastOne(names: seq<string>, name: string, k: nat, r: Option<nat>)
    requires k < |names| && names[k] == name && name !in names[k + 1..]
    requires r.Some? ==> r.value < |names| && names[r.value] == name && name !in names[r.value + 1..]
    requires r.None? ==> name !in names
    ensures r == Some(k)
  {
    assert forall i :: k < i < |names| ==> names[i] == names[k + 1..][i - k - 1];
    assert r.Some? ==> forall i :: r.value < i < |names| ==> names[i] == names[r.value + 1..][i - r.value - 1];
  }

  method LoadLatencyCsv(text: string) returns (latencies: Option<seq<nat>>)
    ensures latencies == LoadColumn(text)
  {
    var lines := Split(text, '\n');
    var k := IndexOf(Split(lines[0], ','), NS);
    var xs := [];
    var rows := lines[1..];
    for i := 0 to |rows|
      invariant k.Some? ==> Column(rows[..i], k.value) == Some(xs)
      invariant k.None? ==> AllBlank(rows[..i]) && xs == []
    {
      assert rows[..i + 1][..i] == rows[..i];
      if rows[i] != "" {
        if k.None? {
          return None;
        }
        var fields := Split(rows[i], ',');
        if k.value >= |fields| || Parse(fields[k.value]).None? {
          Spoiled(rows, i + 1, k.value);
          return None;
        }
        xs := xs + [Parse(fields[k.value]).value];
      }
    }
    assert rows[..|rows|] == rows;
    latencies := Some(xs);
  }

  lemma {:induction false} Spoiled(rows: seq<string>, i: nat, k: nat)
    requires i <= |rows| && Column(rows[..i], k) == None
    ensures Column(rows, k) == None
    decreases |rows| - i
  {
    if i < |rows| {
      assert rows[..i + 1][..i] == rows[..i];
      Spoiled(rows, i + 1, k);
    } else {
      assert rows[..i] == rows;
    }
  }

  // ---- round trip ----

  /** Rendered microseconds contain no separator. */
  ghost predicate Plain(us: nat -> string) {
    forall x: nat :: Free(us(x), ',') && Free(us(x), '\n')
  }

  function RowLines(samples: seq<nat>, i: nat, us: nat -> string): seq<string>
    requires i <= |samples|
  {
    seq(|samples| - i, (j: nat) requires j < |samples| - i => Row(i + j, samples[i + j], us))
  }

  lemma SplitThree(a: string, b: string, c: string)
    requires Free(a, ',') && Free(b, ',') && Free(c, ',')
    ensures Split(a + "," + b + "," + c, ',') == [a, b, c]
  {
    var tail := b + "," + c;
    assert a + "," + b + "," + c == a + [','] + tail;
    SplitFirst(a, ',', tail);
    SplitFirst(b, ',', c);
    SplitLast(c, ',');
  }

  lemma RowFields(i: nat, x: nat, us: nat -> string)
    requires Plain(us)
    ensures Split(Row(i, x, us), ',') == [Print(i), Print(x), us(x)]
    ensures Free(Row(i, x, us), '\n') && Row(i, x, us) != ""
  {
    NumeralIsFree(i);
    NumeralIsFree(x);
    ParsePrint(i);
    assert Free(us(x), ',') && Free(us(x), '\n');
    SplitThree(Print(i), Print(x), us(x));
  }

  lemma RowLinesStep(samples: seq<nat>, i: nat, us: nat -> string)
    requires i < |samples|
    ensures RowLines(samples, i, us) + [""] == [Row(i, samples[i], us)] + (RowLines(samples, i + 1, us) + [""])
  {
  }

  lemma {:induction false} LinesOfRows(samples: seq<nat>, i: nat, us: nat -> string)
    requires i <= |samples| && Plain(us)
    ensures Split(Rows(samples, i, us), '\n') == RowLines(samples, i, us) + [""]
    decreases |samples| - i
  {
    if i < |samples| {
      LinesOfRows(samples, i + 1, us);
      RowFields(i, samples[i], us);
      SplitFirst(Row(i, samples[i], us), '\n', Rows(samples, i + 1, us));
      RowLinesStep(samples, i, us);
    }
  }

  lemma {:induction false} ColumnOfRows(samples: seq<nat>, lines: seq<string>, n: nat, us: nat -> string)
    requires Plain(us) && n <= |samples| && |lines| == n
    requires forall j :: 0 <= j < n ==> lines[j] == Row(j, samples[j], us)
    ensures Column(lines, 1) == Some(samples[..n])
  {
    if n > 0 {
      ColumnOfRows(samples, lines[..n - 1], n - 1, us);
      RowFields(n - 1, samples[n - 1], us);
      ParsePrint(samples[n - 1]);
      assert samples[..n] == samples[..n - 1] + [samples[n - 1]];
    }
  }

  lemma NamesFree(sep: char)
    requires sep == ',' || sep == '\n'
    ensures Free(IDX, sep) && Free(NS, sep) && Free(US, sep) && NS != US
  {
  }

  lemma SecondIndex(a: string, b: string, c: string)
    requires b != c
    ensures IndexOf([a, b, c], b) == Some(1)
  {
    assert [a, b, c][..2] == [a, b];
  }

  lemma ColumnNames()
    ensures Free(COLUMNS, '\n') && IndexOf(Split(COLUMNS, ','), NS) == Some(1)
  {
    NamesFree(',');
    NamesFree('\n');
    SplitThree(IDX, NS, US);
    SecondIndex(IDX, NS, US);
  }

  /** Reading a written file gives back the written samples, for every list of samples. */
  lemma LoadOfFile(samples: seq<nat>, us: nat -> string)
    requires Plain(us)
    ensures LoadColumn(FileText(samples, us)) == Some(samples)
  {
    ColumnNames();
    var rest := Rows(samples, 0, us);
    assert FileText(samples, us) == COLUMNS + ['\n'] + rest;
    SplitFirst(COLUMNS, '\n', rest);
    LinesOfRows(samples, 0, us);
    var rows := RowLines(samples, 0, us);
    ColumnOfRows(samples, rows, |samples|, us);
    assert samples[..|samples|] == samples;
    assert (rows + [""])[..|rows|] == rows;
    assert ([COLUMNS] + (rows + [""]))[1..] == rows + [""];
  }

  /** The first column counts the rows from zero, and the third is the rendered time: field by field, row by row. */
  lemma RowsAreNumbered(samples: seq<nat>, us: nat -> string, i: nat)
    requires Plain(us) && i < |samples|
    ensures var lines := Split(FileText(samples, us), '\n');
      && |lines| == |samples| + 2 && Split(lines[0], ',') == ["sample_idx", "latency_ns", "latency_us"]
      && Split(lines[i + 1], ',') == [Print(i), Print(samples[i]), us(samples[i])] && lines[|samples| + 1] == ""
  {
    NamesFree(',');
    ColumnNames();
    SplitThree(IDX, NS, US);
    var rest := Rows(samples, 0, us);
    assert FileText(samples, us) == COLUMNS + ['\n'] + rest;
    SplitFirst(COLUMNS, '\n', rest);
    LinesOfRows(samples, 0, us);
    RowFields(i, samples[i], us);
    assert RowLines(samples, 0, us)[i] == Row(0 + i, samples[0 + i], us);
  }

  /** Round trip over the whole life of a histogram: whatever was recorded, in whatever order, the scripts read back its
      one sorted arrangement. */
  lemma RoundTrip(ops: seq<Op>, us: nat -> string)
    requires Plain(us)
    ensures var read := LoadColumn(FileText(Sorted(Replay(ops).samples), us));
      read.Some? && IsSorted(read.value) && multiset(read.value) == Recorded(ops)
  {
    HistoryRefinesMultiset(ops);
    SortedIsSorted(Replay(ops).samples);
    LoadOfFile(Sorted(Replay(ops).samples), us);
  }
}
