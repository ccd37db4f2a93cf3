/** The report step: the summary is laid out as a sequence of text lines, a
    fixed preamble, the overall rate and then one section per demographic
    column. Lines whose text embeds formatted numbers are kept abstract. */
module Report {
  import opened Survey
  import opened Aggregate

  /** One line of the report. */
  datatype Line =
    | Text(text: string)                                        // printed as it is
    | Generated(stamp: string)                                  // "Generated: <stamp>"
    | OverallRate(rate: Option<Rate>)                           // "Overall support rate: <rate>", None prints as nan
    | Header(column: string)                                    // "Support by <column>:"
    | Entry(value: string, respondents: nat, supportRate: Rate) // one breakdown row

  const Title: string := "Public Opinion Data Summary Report"

  /** Thirty-six equals signs under the title. */
  const Rule: string := "===================================="

  /** The summary has a breakdown for every demographic column. */
  predicate Complete(s: Summary)
  {
    forall d: Dimension :: d in s.breakdowns
  }

  function EntryLine(g: Group): Line
  {
    Entry(g.value, g.respondentCount, g.supportRate)
  }

  /** One line per breakdown row, in breakdown order. */
  function Entries(gs: seq<Group>): seq<Line>
  {
    seq(|gs|, j requires 0 <= j < |gs| => EntryLine(gs[j]))
  }

  /** A column's section: its header, its rows, a blank line. */
  function Section(s: Summary, d: Dimension): seq<Line>
    requires Complete(s)
  {
    [Header(ColumnName(d))] + Entries(s.breakdowns[d]) + [Text("")]
  }

  function Sections(s: Summary, ds: seq<Dimension>): seq<Line>
    requires Complete(s)
  {
    if ds == [] then [] else Sections(s, ds[..|ds| - 1]) + Section(s, ds[|ds| - 1])
  }

  /** Title, rule, the generation time and the overall rate, with the blank
      lines between them. */
  function Preamble(stamp: string, overall: Option<Rate>): seq<Line>
  {
    [Text(Title), Text(Rule), Text(""), Generated(stamp), Text(""), OverallRate(overall), Text("")]
  }

  /** The whole report. */
  function Layout(s: Summary, stamp: string): seq<Line>
    requires Complete(s)
  {
    Preamble(stamp, s.overallSupportRate) + Sections(s, Dimensions)
  }

  /** The line at which the section of the `k`-th column starts. */
  function SectionStart(s: Summary, k: nat): nat
    requires Complete(s) && k <= |Dimensions|
  {
    if k == 0 then |Preamble("", None)|
    else SectionStart(s, k - 1) + |s.breakdowns[Dimensions[k - 1]]| + 2
  }

  /** The column names of the header lines, in order. */
  function Headers(lines: seq<Line>): seq<string>
  {
    if lines == [] then []
    else Headers(lines[..|lines| - 1]) + (if lines[|lines| - 1].Header? then [lines[|lines| - 1].column] else [])
  }

  function Columns(ds: seq<Dimension>): seq<string>
  {
    if ds == [] then [] else Columns(ds[..|ds| - 1]) + [ColumnName(ds[|ds| - 1])]
  }

  /** Builds the report lines: the preamble, the overall rate (always present
      in the summary, so always printed), then for every column in the fixed
      order its header, one line per breakdown row and a blank line. */
  method LoadData(summary: Summary, stamp: string) returns (lines: seq<Line>)
    requires Complete(summary)
    ensures lines == Layout(summary, stamp)
  {
    lines := [];
    lines := lines + [Text(Title)];
    lines := lines + [Text(Rule)];
    lines := lines + [Text("")];
    lines := lines + [Generated(stamp)];
    lines := lines + [Text("")];
    var overall := summary.overallSupportRate;
    lines := lines + [OverallRate(overall)];
    lines := lines + [Text("")];
    for i := 0 to |Dimensions|
      invariant lines == Preamble(stamp, overall) + Sections(summary, Dimensions[..i])
    {
      var col := Dimensions[i];
      ghost var before := lines;
      lines := lines + [Header(ColumnName(col))];
      var groups := summary.breakdowns[col];
      for j := 0 to |groups|
        invariant lines == before + [Header(ColumnName(col))] + Entries(groups[..j])
      {
        EntriesStep(groups, j);
        lines := lines + [EntryLine(groups[j])];
      }
      lines := lines + [Text("")];
      assert groups[..|groups|] == groups;
      SectionsStep(summary, Dimensions, i);
    }
    assert Dimensions[..|Dimensions|] == Dimensions;
  }

  lemma EntriesStep(gs: seq<Group>, j: nat)
    requires j < |gs|
    ensures Entries(gs[..j + 1]) == Entries(gs[..j]) + [EntryLine(gs[j])]
  {
  }

  lemma SectionsStep(s: Summary, ds: seq<Dimension>, i: nat)
    requires Complete(s) && i < |ds|
    ensures Sections(s, ds[..i + 1]) == Sections(s, ds[..i]) + Section(s, ds[i])
  {
    assert ds[..i + 1][..i] == ds[..i];
  }

  lemma {:induction false} SectionsAppend(s: Summary, a: seq<Dimension>, b: seq<Dimension>)
    requires Complete(s)
    ensures Sections(s, a + b) == Sections(s, a) + Sections(s, b)
    decreases |b|
  {
    if b == [] {
      assert a + b == a;
    } else {
      var b' := b[..|b| - 1];
      assert (a + b)[..|a + b| - 1] == a + b';
      SectionsAppend(s, a, b');
    }
  }

  lemma {:induction false} SectionsLength(s: Summary, k: nat)
    requires Complete(s) && k <= |Dimensions|
    ensures |Preamble("", None)| + |Sections(s, Dimensions[..k])| == SectionStart(s, k)
  {
    if k > 0 {
      assert Dimensions[..k][..k - 1] == Dimensions[..k - 1];
      SectionsLength(s, k - 1);
    }
  }

  /** A run of sections cut around its `k`-th section. */
  lemma SectionsAround(s: Summary, ds: seq<Dimension>, k: nat)
    requires Complete(s) && k < |ds|
    ensures Sections(s, ds) == Sections(s, ds[..k]) + Section(s, ds[k]) + Sections(s, ds[k + 1..])
  {
    var d := ds[k];
    var before, after := ds[..k], ds[k + 1..];
    assert ds == (before + [d]) + after;
    SectionsAppend(s, before + [d], after);
    SectionsAppend(s, before, [d]);
    assert [d][..0] == [];
    assert Sections(s, [d]) == Section(s, d);
  }

  /** A section is its header, its rows in order, then a blank line. */
  lemma SectionLines(s: Summary, d: Dimension)
    requires Complete(s)
    ensures var section, gs := Section(s, d), s.breakdowns[d];
      && |section| == |gs| + 2
      && section[0] == Header(ColumnName(d))
      && (forall j :: 0 <= j < |gs| ==> section[1 + j] == EntryLine(gs[j]))
      && section[|gs| + 1] == Text("")
  {
    var gs := s.breakdowns[d];
    var section := Section(s, d);
    forall j | 0 <= j < |gs|
      ensures section[1 + j] == EntryLine(gs[j])
    {
      assert section[1 + j] == Entries(gs)[j];
    }
  }

  /** The section of the `k`-th column occupies the lines from
      SectionStart(s, k) up to SectionStart(s, k + 1); with SectionLines this
      places its header, each of its rows in order and its closing blank line. */
  lemma SectionAt(s: Summary, stamp: string, k: nat)
    requires Complete(s) && k < |Dimensions|
    ensures SectionStart(s, k) < SectionStart(s, k + 1) <= |Layout(s, stamp)|
    ensures Layout(s, stamp)[SectionStart(s, k)..SectionStart(s, k + 1)] == Section(s, Dimensions[k])
  {
    var head := Preamble(stamp, s.overallSupportRate) + Sections(s, Dimensions[..k]);
    var section := Section(s, Dimensions[k]);
    var tail := Sections(s, Dimensions[k + 1..]);
    SectionsAround(s, Dimensions, k);
    SectionsLength(s, k);
    SectionLines(s, Dimensions[k]);
    assert Layout(s, stamp) == head + section + tail;
    assert (head + section + tail)[|head|..|head| + |section|] == section;
  }

  /** The report ends right after the last section. */
  lemma ReportLength(s: Summary, stamp: string)
    requires Complete(s)
    ensures |Layout(s, stamp)| == SectionStart(s, |Dimensions|)
  {
    SectionsLength(s, |Dimensions|);
    assert Dimensions[..|Dimensions|] == Dimensions;
  }

  lemma {:induction false} HeadersAppend(a: seq<Line>, b: seq<Line>)
    ensures Headers(a + b) == Headers(a) + Headers(b)
    decreases |b|
  {
    if b == [] {
      assert a + b == a;
    } else {
      var b' := b[..|b| - 1];
      assert (a + b)[..|a + b| - 1] == a + b';
      HeadersAppend(a, b');
    }
  }

  lemma {:induction false} EntriesHaveNoHeaders(gs: seq<Group>)
    ensures Headers(Entries(gs)) == []
    decreases |gs|
  {
    if gs != [] {
      var p := gs[..|gs| - 1];
      assert Entries(gs) == Entries(p) + [EntryLine(gs[|gs| - 1])];
      HeadersAppend(Entries(p), [EntryLine(gs[|gs| - 1])]);
      EntriesHaveNoHeaders(p);
    }
  }

  lemma SectionHeader(s: Summary, d: Dimension)
    requires Complete(s)
    ensures Headers(Section(s, d)) == [ColumnName(d)]
  {
    var h, e, b := [Header(ColumnName(d))], Entries(s.breakdowns[d]), [Text("")];
    HeadersAppend(h + e, b);
    HeadersAppend(h, e);
    EntriesHaveNoHeaders(s.breakdowns[d]);
    assert b[..0] == [] && h[..0] == [];
  }

  lemma {:induction false} SectionsHeaders(s: Summary, ds: seq<Dimension>)
    requires Complete(s)
    ensures Headers(Sections(s, ds)) == Columns(ds)
  {
    if ds != [] {
      var d := ds[|ds| - 1];
      SectionsHeaders(s, ds[..|ds| - 1]);
      HeadersAppend(Sections(s, ds[..|ds| - 1]), Section(s, d));
      SectionHeader(s, d);
    }
  }

  /** The report has exactly one section header per demographic column, in
      the order gender, race, age_group, education, income. */
  lemma HeadersInOrder(s: Summary, stamp: string)
    requires Complete(s)
    ensures Headers(Layout(s, stamp)) == ["gender", "race", "age_group", "education", "income"]
  {
    var pre := Preamble(stamp, s.overallSupportRate);
    HeadersAppend(pre, Sections(s, Dimensions));
    SectionsHeaders(s, Dimensions);
    PrefixHeaders(pre, |pre|);
    assert pre[..|pre|] == pre;
    DimensionColumns();
  }

  lemma DimensionColumns()
    ensures Columns(Dimensions) == ["gender", "race", "age_group", "education", "income"]
  {
    var ds := Dimensions;
    assert ds[..4][..3] == ds[..3] && ds[..3][..2] == ds[..2] && ds[..2][..1] == ds[..1] && ds[..1][..0] == [];
    assert Columns(ds[..1]) == ["gender"];
    assert Columns(ds[..2]) == ["gender", "race"];
    assert Columns(ds[..3]) == ["gender", "race", "age_group"];
    assert Columns(ds[..4]) == ["gender", "race", "age_group", "education"];
    assert ds[..5][..4] == ds[..4] && ds[..5] == ds;
  }

  lemma {:induction false} PrefixHeaders(lines: seq<Line>, k: nat)
    requires k <= |lines|
    requires forall i :: 0 <= i < |lines| ==> !lines[i].Header?
    ensures Headers(lines[..k]) == []
  {
    if k > 0 {
      assert lines[..k][..k - 1] == lines[..k - 1];
      PrefixHeaders(lines, k - 1);
    }
  }
}
