/** The line scanner of parseMarkdownTable in src/services/githubJobScraper.ts: a loop over
    the lines of a document with the flags `inTable` and `headerParsed`. A header line
    opens a table, a separator line ends its header, pipe-led lines are data rows, and any
    other non-blank line closes it. */
module TableParser {
  import opened Types
  import opened Text
  import opened Seqs
  import opened RowParser

  datatype ScanState = ScanState(inTable: bool, headerParsed: bool)

  const Initial := ScanState(false, false)

  /** The state reached after some lines, and the rows those lines pushed. */
  datatype Scan = Scan(state: ScanState, rows: seq<ParsedJobEntry>)

  /** What the loop's tests find in one trimmed line; `row` is what the data-row branch
      pushes for it. */
  datatype LineKind = LineKind(header: bool, separator: bool, pipeLed: bool, blank: bool,
                               row: seq<ParsedJobEntry>)

  /** A trimmed line that opens (or re-opens) a table: it starts with `|` and mentions
      `Company`. */
  predicate IsHeaderLine(t: string) {
    StartsWith(t, '|') && Contains(t, "Company")
  }

  /** A trimmed line that ends the header: it contains `---`. */
  predicate IsSeparatorLine(t: string) {
    Contains(t, "---")
  }

  /** The data-row branch on a trimmed line: at most one entry, and a valid one. */
  function RowOf(t: string): (rows: seq<ParsedJobEntry>)
    ensures |rows| <= 1
    ensures forall k :: 0 <= k < |rows| ==> ValidEntry(rows[k])
  {
    var r := ParseRow(Cells(t));
    if r.Some? then [r.value] else []
  }

  function Classify(line: string): LineKind {
    var t := Trim(line);
    LineKind(IsHeaderLine(t), IsSeparatorLine(t), StartsWith(t, '|'), t == [], RowOf(t))
  }

  function Kinds(lines: seq<string>): (kinds: seq<LineKind>)
    ensures |kinds| == |lines|
    ensures forall k :: 0 <= k < |lines| ==> kinds[k] == Classify(lines[k])
  {
    seq(|lines|, k requires 0 <= k < |lines| => Classify(lines[k]))
  }

  lemma KindsAppend(a: seq<string>, b: seq<string>)
    ensures Kinds(a + b) == Kinds(a) + Kinds(b)
  {
    assert forall k :: 0 <= k < |a| + |b| ==> (a + b)[k] == if k < |a| then a[k] else b[k - |a|];
  }

  /** One iteration of the loop. */
  function Step(st: ScanState, line: LineKind): Scan {
    if line.header then Scan(ScanState(true, false), [])
    else if st.inTable && !st.headerParsed && line.separator then Scan(ScanState(true, true), [])
    else if st.inTable && st.headerParsed && line.pipeLed then Scan(st, line.row)
    else if st.inTable && st.headerParsed && !line.blank then Scan(Initial, [])
    else Scan(st, [])
  }

  /** The loop over lines of the given kinds, started in state `st`. */
  function Run(st: ScanState, lines: seq<LineKind>): Scan
    decreases |lines|
  {
    if lines == [] then Scan(st, [])
    else
      var step := Step(st, lines[0]);
      var rest := Run(step.state, lines[1..]);
      Scan(rest.state, step.rows + rest.rows)
  }

  function ParseTable(content: string): seq<ParsedJobEntry> {
    Run(Initial, Kinds(SplitOn(content, '\n'))).rows
  }

  lemma RunFrom(st: ScanState, lines: seq<LineKind>, i: nat)
    requires i < |lines|
    ensures var step := Step(st, lines[i]);
            Run(st, lines[i..]).rows == step.rows + Run(step.state, lines[i + 1..]).rows
  {
    assert lines[i..][1..] == lines[i + 1..];
  }

  method ParseMarkdownTable(content: string) returns (jobs: seq<ParsedJobEntry>)
    ensures jobs == ParseTable(content)
  {
    jobs := [];
    var lines := SplitOn(content, '\n');
    ghost var kinds := Kinds(lines);
    var inTable := false;
    var headerParsed := false;
    assert kinds[0..] == kinds;
    for i := 0 to |lines|
      invariant jobs + Run(ScanState(inTable, headerParsed), kinds[i..]).rows == ParseTable(content)
    {
      ghost var step := Step(ScanState(inTable, headerParsed), kinds[i]);
      ghost var later := Run(step.state, kinds[i + 1..]).rows;
      RunFrom(ScanState(inTable, headerParsed), kinds, i);
      AppendAssoc(jobs, step.rows, later);
      assert jobs + step.rows + later == ParseTable(content);
      var trimmedLine := Trim(lines[i]);
      assert kinds[i] == Classify(lines[i]);

      if StartsWith(trimmedLine, '|') && Contains(trimmedLine, "Company") {
        inTable := true;
        headerParsed := false;
        assert step == Scan(ScanState(inTable, headerParsed), []);
        assert jobs + step.rows == jobs;
        continue;
      }

      if inTable && !headerParsed && Contains(trimmedLine, "---") {
        headerParsed := true;
        assert step == Scan(ScanState(inTable, headerParsed), []);
        assert jobs + step.rows == jobs;
        continue;
      }

      ghost var before := jobs;
      if inTable && headerParsed && StartsWith(trimmedLine, '|') {
        var cells := Cells(trimmedLine);
        var row := ParseRow(cells);
        if row.Some? {
          jobs := jobs + [row.value];
        }
      }

      if inTable && headerParsed && !StartsWith(trimmedLine, '|') && trimmedLine != [] {
        inTable := false;
        headerParsed := false;
      }
      assert step.state == ScanState(inTable, headerParsed) && jobs == before + step.rows;
    }
    assert kinds[|lines|..] == [];
  }

  // ---------------------------------------------------------------------------------------
  // What the scanner guarantees.

  /** A document given as lines with no line break inside them. */
  lemma ParseTableOfLines(lines: seq<string>)
    requires |lines| >= 1 && forall k :: 0 <= k < |lines| ==> '\n' !in lines[k]
    ensures ParseTable(Join(lines, '\n')) == Run(Initial, Kinds(lines)).rows
  {
    SplitJoin(lines, '\n');
  }

  lemma {:induction false} RunAppend(st: ScanState, a: seq<LineKind>, b: seq<LineKind>)
    ensures Run(st, a + b).state == Run(Run(st, a).state, b).state
    ensures Run(st, a + b).rows == Run(st, a).rows + Run(Run(st, a).state, b).rows
    decreases |a|
  {
    if a == [] {
      assert a + b == b;
    } else {
      assert (a + b)[0] == a[0] && (a + b)[1..] == a[1..] + b;
      var step := Step(st, a[0]);
      RunAppend(step.state, a[1..], b);
      AppendAssoc(step.rows, Run(step.state, a[1..]).rows, Run(Run(st, a).state, b).rows);
    }
  }

  /** Lines that each leave the state `st` as it is and push nothing, taken together. */
  lemma {:induction false} StaysPut(st: ScanState, lines: seq<LineKind>)
    requires forall k :: 0 <= k < |lines| ==> Step(st, lines[k]) == Scan(st, [])
    ensures Run(st, lines) == Scan(st, [])
    decreases |lines|
  {
    if lines != [] {
      assert Step(st, lines[0]) == Scan(st, []);
      assert forall k :: 0 <= k < |lines| - 1 ==> lines[1..][k] == lines[k + 1];
      StaysPut(st, lines[1..]);
    }
  }

  /** Outside a table nothing is pushed until a header line appears. */
  lemma OutsideTableNoRows(lines: seq<string>)
    requires forall k :: 0 <= k < |lines| ==> !IsHeaderLine(Trim(lines[k]))
    ensures Run(Initial, Kinds(lines)) == Scan(Initial, [])
  {
    var kinds := Kinds(lines);
    forall k | 0 <= k < |kinds| ensures Step(Initial, kinds[k]) == Scan(Initial, []) {
      assert !IsHeaderLine(Trim(lines[k]));
    }
    StaysPut(Initial, kinds);
  }

  /** After a header line, every line up to the next one containing `---` is skipped. */
  lemma WaitForSeparator(lines: seq<string>)
    requires forall k :: 0 <= k < |lines| ==> !IsSeparatorLine(Trim(lines[k]))
    ensures Run(ScanState(true, false), Kinds(lines)) == Scan(ScanState(true, false), [])
  {
    var kinds := Kinds(lines);
    forall k | 0 <= k < |kinds| ensures Step(ScanState(true, false), kinds[k]) == Scan(ScanState(true, false), []) {
      assert !IsSeparatorLine(Trim(lines[k]));
    }
    StaysPut(ScanState(true, false), kinds);
  }

  /** Blank lines inside a table's body neither push a row nor close the table. */
  lemma BlankLinesKeepTableOpen(lines: seq<string>)
    requires forall k :: 0 <= k < |lines| ==> Trim(lines[k]) == []
    ensures Run(ScanState(true, true), Kinds(lines)) == Scan(ScanState(true, true), [])
  {
    var kinds := Kinds(lines);
    forall k | 0 <= k < |kinds| ensures Step(ScanState(true, true), kinds[k]) == Scan(ScanState(true, true), []) {
      assert Trim(lines[k]) == [];
    }
    StaysPut(ScanState(true, true), kinds);
  }

  /** A header line re-opens the header in whatever state it is met, even in the middle of a
      table's body, and the lines after it are skipped until a separator line. */
  lemma HeaderReopens(st: ScanState, header: string, lines: seq<string>)
    requires IsHeaderLine(Trim(header))
    requires forall k :: 0 <= k < |lines| ==> !IsSeparatorLine(Trim(lines[k]))
    ensures Run(st, Kinds([header] + lines)) == Scan(ScanState(true, false), [])
  {
    KindsAppend([header], lines);
    var kinds := Kinds([header] + lines);
    assert kinds[0] == Classify(header) && kinds[1..] == Kinds(lines);
    assert Step(st, kinds[0]) == Scan(ScanState(true, false), []);
    WaitForSeparator(lines);
  }

  /** A non-blank line not led by `|` closes a table's body; nothing more is pushed until the
      next header line. */
  lemma ProseClosesTable(prose: string, lines: seq<string>)
    requires Trim(prose) != [] && !StartsWith(Trim(prose), '|')
    requires forall k :: 0 <= k < |lines| ==> !IsHeaderLine(Trim(lines[k]))
    ensures Run(ScanState(true, true), Kinds([prose] + lines)) == Scan(Initial, [])
  {
    KindsAppend([prose], lines);
    var kinds := Kinds([prose] + lines);
    assert kinds[0] == Classify(prose) && kinds[1..] == Kinds(lines);
    assert Step(ScanState(true, true), kinds[0]) == Scan(Initial, []);
    OutsideTableNoRows(lines);
  }

  predicate AllValid(rows: seq<ParsedJobEntry>) {
    forall k :: 0 <= k < |rows| ==> ValidEntry(rows[k])
  }

  lemma {:induction false} RunRowsValid(st: ScanState, lines: seq<LineKind>)
    requires forall k :: 0 <= k < |lines| ==> AllValid(lines[k].row)
    ensures AllValid(Run(st, lines).rows)
    decreases |lines|
  {
    if lines != [] {
      var step := Step(st, lines[0]);
      assert AllValid(lines[0].row);
      assert forall k :: 0 <= k < |lines| - 1 ==> lines[1..][k] == lines[k + 1];
      RunRowsValid(step.state, lines[1..]);
      var rest := Run(step.state, lines[1..]).rows;
      forall k | 0 <= k < |step.rows + rest| ensures ValidEntry((step.rows + rest)[k]) {
        if k >= |step.rows| {
          assert (step.rows + rest)[k] == rest[k - |step.rows|];
        }
      }
    }
  }

  /** Every entry the scanner returns passes the row checks: non-empty trimmed company and
      position that are not the header labels, and trimmed remaining fields. */
  lemma ParsedRowsAreValid(content: string)
    ensures forall k :: 0 <= k < |ParseTable(content)| ==> ValidEntry(ParseTable(content)[k])
  {
    var kinds := Kinds(SplitOn(content, '\n'));
    forall k | 0 <= k < |kinds| ensures AllValid(kinds[k].row) { }
    RunRowsValid(Initial, kinds);
  }

  /** The rows every pipe-led line would give if it were read as a data row. */
  function Candidates(lines: seq<LineKind>): seq<ParsedJobEntry>
    decreases |lines|
  {
    if lines == [] then []
    else (if lines[0].pipeLed then lines[0].row else []) + Candidates(lines[1..])
  }

  /** The rows pushed come from pipe-led lines, each line at most once, in document order. */
  lemma {:induction false} RowsInDocumentOrder(st: ScanState, lines: seq<LineKind>)
    ensures IsSubseq(Run(st, lines).rows, Candidates(lines))
    decreases |lines|
  {
    if lines == [] {
    } else {
      var step := Step(st, lines[0]);
      var c := if lines[0].pipeLed then lines[0].row else [];
      RowsInDocumentOrder(step.state, lines[1..]);
      assert IsSubseq(step.rows, c) by {
        if step.rows != [] {
          assert step.rows == c;
          SubseqRefl(c);
        }
      }
      SubseqAppend(step.rows, c, Run(step.state, lines[1..]).rows, Candidates(lines[1..]));
    }
  }

  /** A well-formed table: a header line, a separator line, then pipe-led body lines that do
      not repeat the header. Exactly the rows of the body lines are returned, in order, and
      one per body line when every body line passes the row checks. */
  lemma WellFormedTable(header: string, separator: string, body: seq<string>)
    requires '\n' !in header && '\n' !in separator
    requires forall k :: 0 <= k < |body| ==> '\n' !in body[k]
    requires IsHeaderLine(Trim(header))
    requires IsSeparatorLine(Trim(separator)) && !IsHeaderLine(Trim(separator))
    requires forall k :: 0 <= k < |body| ==> StartsWith(Trim(body[k]), '|') && !IsHeaderLine(Trim(body[k]))
    ensures ParseTable(Join([header, separator] + body, '\n')) == Candidates(Kinds(body))
    ensures (forall k :: 0 <= k < |body| ==> ParseRow(Cells(Trim(body[k]))).Some?) ==>
              |ParseTable(Join([header, separator] + body, '\n'))| == |body|
  {
    var lines := [header, separator] + body;
    forall k | 0 <= k < |lines| ensures '\n' !in lines[k] {
      if k >= 2 { assert lines[k] == body[k - 2]; }
    }
    ParseTableOfLines(lines);
    TableLines(header, separator, body);
    if forall k :: 0 <= k < |body| ==> ParseRow(Cells(Trim(body[k]))).Some? {
      var kinds := Kinds(body);
      forall k | 0 <= k < |kinds| ensures kinds[k].pipeLed && |kinds[k].row| == 1 {
        assert StartsWith(Trim(body[k]), '|') && ParseRow(Cells(Trim(body[k]))).Some?;
      }
      CandidatesCount(kinds);
    }
  }

  lemma TableLines(header: string, separator: string, body: seq<string>)
    requires IsHeaderLine(Trim(header))
    requires IsSeparatorLine(Trim(separator)) && !IsHeaderLine(Trim(separator))
    requires forall k :: 0 <= k < |body| ==> StartsWith(Trim(body[k]), '|') && !IsHeaderLine(Trim(body[k]))
    ensures Run(Initial, Kinds([header, separator] + body)).rows == Candidates(Kinds(body))
  {
    KindsAppend([header, separator], body);
    var top := Kinds([header, separator]);
    assert top[0] == Classify(header) && top[1] == Classify(separator);
    assert Step(Initial, top[0]) == Scan(ScanState(true, false), []);
    assert Step(ScanState(true, false), top[1]) == Scan(ScanState(true, true), []);
    assert top[1..][0] == top[1] && top[1..][1..] == [];
    assert Run(ScanState(true, true), top[1..][1..]) == Scan(ScanState(true, true), []);
    assert Run(ScanState(true, false), top[1..]).rows == [] + [];
    assert Run(Initial, top).rows == [] + [];
    assert Run(Initial, top).state == ScanState(true, true);
    RunAppend(Initial, top, Kinds(body));
    TableBody(body);
  }

  lemma TableBody(body: seq<string>)
    requires forall k :: 0 <= k < |body| ==> StartsWith(Trim(body[k]), '|') && !IsHeaderLine(Trim(body[k]))
    ensures Run(ScanState(true, true), Kinds(body)) == Scan(ScanState(true, true), Candidates(Kinds(body)))
  {
    var kinds := Kinds(body);
    forall k | 0 <= k < |kinds| ensures kinds[k].pipeLed && !kinds[k].header {
      assert StartsWith(Trim(body[k]), '|') && !IsHeaderLine(Trim(body[k]));
    }
    BodyRows(kinds);
  }

  lemma {:induction false} BodyRows(lines: seq<LineKind>)
    requires forall k :: 0 <= k < |lines| ==> lines[k].pipeLed && !lines[k].header
    ensures Run(ScanState(true, true), lines) == Scan(ScanState(true, true), Candidates(lines))
    decreases |lines|
  {
    if lines != [] {
      assert lines[0].pipeLed && !lines[0].header;
      assert forall k :: 0 <= k < |lines| - 1 ==> lines[1..][k] == lines[k + 1];
      BodyRows(lines[1..]);
    }
  }

  lemma {:induction false} CandidatesCount(lines: seq<LineKind>)
    requires forall k :: 0 <= k < |lines| ==> lines[k].pipeLed && |lines[k].row| == 1
    ensures |Candidates(lines)| == |lines|
    decreases |lines|
  {
    if lines != [] {
      assert lines[0].pipeLed && |lines[0].row| == 1;
      assert forall k :: 0 <= k < |lines| - 1 ==> lines[1..][k] == lines[k + 1];
      CandidatesCount(lines[1..]);
    }
  }

  /** No row is returned unless some header line is followed, later, by a separator line:
      `h` and `s` are such lines. */
  lemma RowsNeedHeaderThenSeparator(content: string) returns (h: nat, s: nat)
    requires ParseTable(content) != []
    ensures h < s < |SplitOn(content, '\n')|
    ensures IsHeaderLine(Trim(SplitOn(content, '\n')[h]))
    ensures IsSeparatorLine(Trim(SplitOn(content, '\n')[s]))
  {
    var lines := SplitOn(content, '\n');
    var kinds := Kinds(lines);
    HeaderThenSeparator(Initial, kinds);
    h, s :| 0 <= h < s < |kinds| && kinds[h].header && kinds[s].separator;
    assert kinds[h] == Classify(lines[h]) && kinds[s] == Classify(lines[s]);
  }

  lemma {:induction false} HeaderThenSeparator(st: ScanState, lines: seq<LineKind>)
    requires st.headerParsed ==> st.inTable
    requires Run(st, lines).rows != []
    ensures || st.headerParsed
            || (st.inTable && exists s :: 0 <= s < |lines| && lines[s].separator)
            || exists h, s :: 0 <= h < s < |lines| && lines[h].header && lines[s].separator
    decreases |lines|
  {
    var step := Step(st, lines[0]);
    var st1 := step.state;
    var rest := lines[1..];
    if !st.headerParsed {
      assert step.rows == [];
      HeaderThenSeparator(st1, rest);
      if st1.headerParsed {
        assert st.inTable && lines[0].separator;
      } else if st1.inTable && exists s :: 0 <= s < |rest| && rest[s].separator {
        var s :| 0 <= s < |rest| && rest[s].separator;
        assert rest[s] == lines[s + 1];
        if !lines[0].header {
          assert st1 == st;
        }
      } else {
        var h, s :| 0 <= h < s < |rest| && rest[h].header && rest[s].separator;
        assert rest[h] == lines[h + 1] && rest[s] == lines[s + 1];
      }
    }
  }
}
