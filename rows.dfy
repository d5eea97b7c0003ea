/** The data-row branch of parseMarkdownTable in src/services/githubJobScraper.ts: how a
    table line is cut into cells, how markdown links are stripped from them, and which cell
    feeds which field of a ParsedJobEntry. */
module RowParser {
  import opened Types
  import opened Text
  import opened Seqs
  import opened Patterns

  // ---------------------------------------------------------------------------------------
  // The two first-match substitutions applied to cells.

  /** Index of the first `c` at or after `from`, or |s| when there is none. */
  function IndexOfFrom(s: string, c: char, from: nat): (r: nat)
    requires from <= |s|
    ensures from <= r <= |s|
    ensures r < |s| ==> s[r] == c
    ensures forall k :: from <= k < r ==> s[k] != c
    decreases |s| - from
  {
    if from == |s| || s[from] == c then from else IndexOfFrom(s, c, from + 1)
  }

  /** How far a `.*` starting at `from` reaches: the first line terminator, or |s|. */
  function DotRunEnd(s: string, from: nat): (r: nat)
    requires from <= |s|
    ensures from <= r <= |s|
    ensures r < |s| ==> IsLineTerminator(s[r])
    ensures forall k :: from <= k < r ==> !IsLineTerminator(s[k])
    decreases |s| - from
  {
    if from == |s| || IsLineTerminator(s[from]) then from else DotRunEnd(s, from + 1)
  }

  /** The last index in [lo, hi) holding `c`, or -1. */
  function LastIndexIn(s: string, c: char, lo: nat, hi: nat): (r: int)
    requires lo <= hi <= |s|
    ensures r == -1 || (lo <= r < hi && s[r] == c)
    ensures forall k :: lo <= k < hi && k > r ==> s[k] != c
    decreases hi - lo
  {
    if hi == lo then -1 else if s[hi - 1] == c then hi - 1 else LastIndexIn(s, c, lo, hi - 1)
  }

  /** The last index k with lo <= k and k + 1 < hi where `](` starts, or -1. */
  function LastBracketParen(s: string, lo: nat, hi: nat): (r: int)
    requires lo <= hi <= |s|
    ensures r == -1 || (lo <= r && r + 1 < hi && s[r] == ']' && s[r + 1] == '(')
    ensures forall k :: lo <= k && k + 1 < hi && k > r ==> !(s[k] == ']' && s[k + 1] == '(')
    decreases hi - lo
  {
    if hi < lo + 2 then -1
    else if s[hi - 2] == ']' && s[hi - 1] == '(' then hi - 2
    else LastBracketParen(s, lo, hi - 1)
  }

  /** `\[([^\]]+)\].*` can match at `i`: a `[`, one or more characters other than `]`, a `]`. */
  predicate TextMatchAt(s: string, i: nat)
    requires i < |s|
  {
    s[i] == '[' && i + 1 < |s| && s[i + 1] != ']' && IndexOfFrom(s, ']', i + 1) < |s|
  }

  function FirstTextMatch(s: string, from: nat): (r: nat)
    requires from <= |s|
    ensures from <= r <= |s|
    ensures r < |s| ==> TextMatchAt(s, r)
    ensures forall k :: from <= k < r ==> !TextMatchAt(s, k)
    decreases |s| - from
  {
    if from == |s| || TextMatchAt(s, from) then from else FirstTextMatch(s, from + 1)
  }

  /** `cell.replace(/\[([^\]]+)\].*\/, '$1')`: the leftmost `[text]`, together with the rest of
      its line, is replaced by `text`; a cell where the expression does not match comes back
      unchanged. */
  function LinkText(s: string): string {
    var i := FirstTextMatch(s, 0);
    if i == |s| then s
    else
      var j := IndexOfFrom(s, ']', i + 1);
      s[..i] + s[i + 1..j] + s[DotRunEnd(s, j + 1)..]
  }

  /** `\[.*\]\((.*)\)` can match at `i`. Both `.*` are greedy and stop at a line terminator,
      so the match closes at the last `)` of the line and the group opens after the last `](`
      before that `)`. */
  predicate TargetMatchAt(s: string, i: nat)
    requires i < |s|
  {
    && s[i] == '['
    && var q := LastIndexIn(s, ')', i + 1, DotRunEnd(s, i + 1));
    && q >= 0
    && LastBracketParen(s, i + 1, q) >= 0
  }

  function FirstTargetMatch(s: string, from: nat): (r: nat)
    requires from <= |s|
    ensures from <= r <= |s|
    ensures r < |s| ==> TargetMatchAt(s, r)
    ensures forall k :: from <= k < r ==> !TargetMatchAt(s, k)
    decreases |s| - from
  {
    if from == |s| || TargetMatchAt(s, from) then from else FirstTargetMatch(s, from + 1)
  }

  /** `cell.replace(/\[.*\]\((.*)\)/, '$1')`: the leftmost `[..](..)` is replaced by the text
      between its parentheses; a cell where the expression does not match comes back
      unchanged. */
  function LinkTarget(s: string): string {
    var i := FirstTargetMatch(s, 0);
    if i == |s| then s
    else
      var q := LastIndexIn(s, ')', i + 1, DotRunEnd(s, i + 1));
      var p := LastBracketParen(s, i + 1, q);
      s[..i] + s[p + 2..q] + s[q + 1..]
  }

  lemma NoBracketUnchanged(s: string)
    requires '[' !in s
    ensures LinkText(s) == s && LinkTarget(s) == s
  {
    var i := FirstTextMatch(s, 0);
    var k := FirstTargetMatch(s, 0);
  }

  predicate NoLineTerminator(s: string) {
    forall k :: 0 <= k < |s| ==> !IsLineTerminator(s[k])
  }

  /** In `[t]rest`, the first `]` after the opening bracket is the one closing `t`. */
  lemma LinkTextClose(t: string, rest: string)
    requires t != [] && ']' !in t
    ensures var s := "[" + t + "]" + rest;
      IndexOfFrom(s, ']', 1) == |t| + 1 && TextMatchAt(s, 0) && s[1..|t| + 1] == t
  {
    var s := "[" + t + "]" + rest;
    assert s[1] == t[0] && s[|t| + 1] == ']';
    forall k | 1 <= k < |t| + 1 ensures s[k] != ']' {
      assert s[k] == t[k - 1];
    }
    assert s[1..|t| + 1] == t;
  }

  /** A markdown link `[t]...` reduces to its display text. */
  lemma LinkTextOfLink(t: string, rest: string)
    requires t != [] && ']' !in t && NoLineTerminator(rest)
    ensures LinkText("[" + t + "]" + rest) == t
  {
    var s := "[" + t + "]" + rest;
    LinkTextClose(t, rest);
    assert FirstTextMatch(s, 0) == 0;
    forall k | |t| + 2 <= k < |s| ensures !IsLineTerminator(s[k]) {
      assert s[k] == rest[k - |t| - 2];
    }
    assert DotRunEnd(s, |t| + 2) == |s|;
  }

  /** A markdown link `[t](u)` reduces to its target when the target has no `]`. */
  lemma LinkTargetOfLink(t: string, u: string)
    requires NoLineTerminator(t) && NoLineTerminator(u) && ']' !in u
    ensures LinkTarget("[" + t + "](" + u + ")") == u
  {
    var s := "[" + t + "](" + u + ")";
    var n := |s|;
    assert n == |t| + |u| + 4;
    forall k | 1 <= k < n ensures !IsLineTerminator(s[k]) {
      if k <= |t| {
        assert s[k] == t[k - 1];
      } else if |t| + 3 <= k < n - 1 {
        assert s[k] == u[k - |t| - 3];
      }
    }
    assert DotRunEnd(s, 1) == n;
    var q := LastIndexIn(s, ')', 1, n);
    assert s[n - 1] == ')';
    assert q == n - 1;
    var p := LastBracketParen(s, 1, q);
    var p0 := |t| + 1;
    assert s[p0] == ']' && s[p0 + 1] == '(';
    assert p >= p0;
    assert TargetMatchAt(s, 0);
    assert FirstTargetMatch(s, 0) == 0;
    assert s[p + 2..q] == u;
  }

  // ---------------------------------------------------------------------------------------
  // Cells and rows.

  /** A cell as the row branch sees it: non-empty, trimmed, free of `|`. */
  predicate CleanCell(c: string) {
    c != [] && Trimmed(c) && '|' !in c
  }

  /** `map(cell => cell.trim())` over the pieces of a line split on `|`. */
  function TrimAll(parts: seq<string>): (r: seq<string>)
    requires forall k :: 0 <= k < |parts| ==> '|' !in parts[k]
    ensures |r| == |parts|
    ensures forall k :: 0 <= k < |r| ==> r[k] == Trim(parts[k])
    ensures forall k :: 0 <= k < |r| ==> r[k] == [] || CleanCell(r[k])
  {
    seq(|parts|, k requires 0 <= k < |parts| => Trim(parts[k]))
  }

  /** `filter(cell => cell)`: the non-empty strings, in order. */
  function DropEmpty(parts: seq<string>): (r: seq<string>)
    requires forall k :: 0 <= k < |parts| ==> parts[k] == [] || CleanCell(parts[k])
    ensures forall k :: 0 <= k < |r| ==> CleanCell(r[k])
    ensures IsSubseq(r, parts)
  {
    if parts == [] then []
    else
      var rest := DropEmpty(parts[1..]);
      if parts[0] == [] then (SubseqPrepend(rest, parts[1..], parts[0]); rest)
      else (SubseqPrepend(rest, parts[1..], parts[0]); [parts[0]] + rest)
  }

  /** The filter drops every empty string and keeps every other one as often as it occurs. */
  lemma {:induction false} DropEmptyCounts(parts: seq<string>)
    requires forall k :: 0 <= k < |parts| ==> parts[k] == [] || CleanCell(parts[k])
    ensures forall x :: multiset(DropEmpty(parts))[x] == if x == [] then 0 else multiset(parts)[x]
    ensures forall x :: x in DropEmpty(parts) <==> x in parts && x != []
    decreases |parts|
  {
    if parts != [] {
      DropEmptyCounts(parts[1..]);
      assert parts == [parts[0]] + parts[1..];
      assert multiset(parts) == multiset{parts[0]} + multiset(parts[1..]);
      if parts[0] != [] {
        assert multiset(DropEmpty(parts)) == multiset{parts[0]} + multiset(DropEmpty(parts[1..]));
      }
    }
  }

  /** `line.split('|').map(cell => cell.trim()).filter(cell => cell)`. */
  function Cells(line: string): (cells: seq<string>)
    ensures forall k :: 0 <= k < |cells| ==> CleanCell(cells[k])
  {
    DropEmpty(TrimAll(SplitOn(line, '|')))
  }

  /** The cells of a line are its `|`-separated pieces, trimmed, in order, with the empty
      ones dropped and every other one kept as often as it occurs. */
  lemma CellsOfLine(line: string)
    ensures var pieces := SplitOn(line, '|');
      && Join(pieces, '|') == line
      && IsSubseq(Cells(line), TrimAll(pieces))
      && (forall x :: multiset(Cells(line))[x] == if x == [] then 0 else multiset(TrimAll(pieces))[x])
      && (forall x :: x in Cells(line) <==>
                       x != [] && exists k :: 0 <= k < |pieces| && Trim(pieces[k]) == x)
  {
    var pieces := SplitOn(line, '|');
    var trimmed := TrimAll(pieces);
    JoinSplit(line, '|');
    DropEmptyCounts(trimmed);
    forall x ensures x in trimmed <==> exists k :: 0 <= k < |pieces| && Trim(pieces[k]) == x {
      if x in trimmed {
        var k :| 0 <= k < |trimmed| && trimmed[k] == x;
        assert Trim(pieces[k]) == x;
      }
    }
  }

  /** `cells[3].includes('$') || /\d+k/i.test(cells[3])` */
  predicate LooksLikeSalary(cell: string) {
    '$' in cell || Test(cell, SalaryRe)
  }

  /** What the scanner keeps of a row: non-empty, trimmed company and position that are not
      the header labels, and trimmed remaining fields. */
  predicate ValidEntry(e: ParsedJobEntry) {
    && e.company != [] && e.position != []
    && e.company != "Company" && e.position != "Position"
    && Trimmed(e.company) && Trimmed(e.position) && Trimmed(e.location)
    && Trimmed(e.link) && Trimmed(e.age)
    && (e.salary.Some? ==> e.salary.value != [] && Trimmed(e.salary.value))
  }

  /** The body of the data-row branch: positional columns, with the salary column recognised
      only when a fifth cell exists. */
  function ParseRow(cells: seq<string>): (r: Option<ParsedJobEntry>)
    ensures r.Some? ==> |cells| >= 4 && ValidEntry(r.value)
    ensures r.Some? <==>
              && |cells| >= 4
              && Trim(LinkText(cells[0])) != [] && Trim(LinkText(cells[1])) != []
              && Trim(LinkText(cells[0])) != "Company" && Trim(LinkText(cells[1])) != "Position"
  {
    if |cells| < 4 then None
    else
      var company := Trim(LinkText(cells[0]));
      var position := Trim(LinkText(cells[1]));
      var location := Trim(cells[2]);
      var salary :=
        if |cells| >= 5 && LooksLikeSalary(cells[3]) then Trim(cells[3]) else "";
      var link :=
        if |cells| >= 5 && LooksLikeSalary(cells[3]) then Trim(LinkTarget(cells[4]))
        else Trim(LinkTarget(cells[3]));
      var age :=
        if |cells| >= 5 && LooksLikeSalary(cells[3]) then (if |cells| >= 6 then Trim(cells[5]) else "")
        else if |cells| >= 5 then Trim(cells[4])
        else "";
      if company != [] && position != [] && company != "Company" && position != "Position" then
        Some(ParsedJobEntry(company, position, location, if salary == [] then None else Some(salary), link, age))
      else None
  }

  predicate CleanCells(cells: seq<string>) {
    forall k :: 0 <= k < |cells| ==> cells[k] != [] && Trimmed(cells[k])
  }

  /** Which cell feeds which field. */
  lemma ColumnAssignment(cells: seq<string>)
    requires CleanCells(cells)
    requires ParseRow(cells).Some?
    ensures var e := ParseRow(cells).value;
      && e.company == Trim(LinkText(cells[0]))
      && e.position == Trim(LinkText(cells[1]))
      && e.location == cells[2]
      && (|cells| == 4 ==>
            e.salary == None && e.link == Trim(LinkTarget(cells[3])) && e.age == "")
      && (|cells| >= 5 && LooksLikeSalary(cells[3]) ==>
            && e.salary == Some(cells[3])
            && e.link == Trim(LinkTarget(cells[4]))
            && e.age == (if |cells| >= 6 then cells[5] else ""))
      && (|cells| >= 5 && !LooksLikeSalary(cells[3]) ==>
            e.salary == None && e.link == Trim(LinkTarget(cells[3])) && e.age == cells[4])
  {
    TrimOfTrimmed(cells[2]);
    TrimOfTrimmed(cells[3]);
    if |cells| >= 5 { TrimOfTrimmed(cells[4]); }
    if |cells| >= 6 { TrimOfTrimmed(cells[5]); }
  }

  /** A trimmed cell with no `[` passes through either substitution unchanged. */
  lemma PlainCellPassesThrough(cell: string)
    requires Trimmed(cell) && '[' !in cell
    ensures Trim(LinkText(cell)) == cell && Trim(LinkTarget(cell)) == cell
  {
    NoBracketUnchanged(cell);
    TrimOfTrimmed(cell);
  }

  /** A row that repeats the header labels is dropped. */
  lemma HeaderLabelsNotEmitted(cells: seq<string>)
    requires CleanCells(cells) && |cells| >= 2
    requires cells[0] == "Company" || cells[1] == "Position"
    ensures ParseRow(cells) == None
  {
    if cells[0] == "Company" {
      PlainCellPassesThrough(cells[0]);
    } else {
      PlainCellPassesThrough(cells[1]);
    }
  }
}
