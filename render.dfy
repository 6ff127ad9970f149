/** The fixed-layout text renderings of the two records (the two `to_string`
    overloads) and of a whole report, with a reader for each rendering that
    recovers the record it was made from. */
module Render {
  import opened Decimal
  import opened ProbeRecords
  import opened Lines

  datatype Option<T> = None | Some(value: T)

  // Labels, each defined once and shared by rendering and reading.

  const ActiveLabel: Line := "active:   "
  const ExistingLabel: Line := "existing: "

  const CallsHeading: Line := "-calls-"
  const DefcoLabel: Line := " default constructor: "
  const ValcoLabel: Line := " value constructor:   "
  const CopcoLabel: Line := " copy constructor:    "
  const MovcoLabel: Line := " move constructor:    "
  const CopasLabel: Line := " copy assignment:     "
  const MovasLabel: Line := " move assignment:     "
  const DestrLabel: Line := " destructor:          "
  const SemanticsHeading: Line := "-semantics-"
  const CopiesLabel: Line := " copies:              "
  const MovesLabel: Line := " moves:               "
  const ExtremaHeading: Line := "-min/max-"
  const MinActiveLabel: Line := " min active:          "
  const MaxActiveLabel: Line := " max active:          "
  const MinExistingLabel: Line := " min existing:        "
  const MaxExistingLabel: Line := " max existing:        "

  const LastHeader: Line := "===LAST==="
  const TotalHeader: Line := "===TOTAL==="
  const StateHeader: Line := "===STATE==="

  /** One labelled line: the label, then the value in decimal. */
  function Field(name: Line, v: int): Line {
    name + IntToString(v)
  }

  /** `line` begins with the label `name`. */
  predicate HasLabel(line: string, name: string) {
    |name| <= |line| && line[..|name|] == name
  }

  /** The value of a labelled line: what follows the label, read as decimal. */
  function FieldValue(line: string, name: string): int
    requires HasLabel(line, name)
  {
    ParseInt(line[|name|..])
  }

  lemma FieldRoundTrip(name: Line, v: int)
    ensures HasLabel(Field(name, v), name) && FieldValue(Field(name, v), name) == v
  {
    assert Field(name, v)[..|name|] == name;
    assert Field(name, v)[|name|..] == IntToString(v);
    IntRoundTrip(v);
  }

  /** The two lines of `to_string(probe_state)`. */
  function StateLines(s: ProbeState): seq<Line> {
    [Field(ActiveLabel, s.active), Field(ExistingLabel, s.existing)]
  }

  /** `to_string(probe_state)`: "active:" and "existing:" lines, from which
      the snapshot reads back unchanged. */
  function StateToString(s: ProbeState): (r: string)
    ensures ParseState(r) == Some(s)
  {
    SplitJoin(StateLines(s));
    StateFromOwnLines(s);
    JoinLines(StateLines(s))
  }

  /** Two lines, labelled "active:" and "existing:" in that order. */
  predicate StateLabelled(ls: seq<Line>) {
    |ls| == 2 && HasLabel(ls[0], ActiveLabel) && HasLabel(ls[1], ExistingLabel)
  }

  function StateFromLines(ls: seq<Line>): ProbeState
    requires StateLabelled(ls)
  {
    ProbeState(FieldValue(ls[0], ActiveLabel), FieldValue(ls[1], ExistingLabel))
  }

  /** Reads a state rendering back; text with any other layout or labels is
      refused. */
  function ParseState(r: string): Option<ProbeState> {
    var ls := SplitLines(r);
    if StateLabelled(ls) then Some(StateFromLines(ls)) else None
  }

  lemma StateFromOwnLines(s: ProbeState)
    ensures StateLabelled(StateLines(s)) && StateFromLines(StateLines(s)) == s
  {
    FieldRoundTrip(ActiveLabel, s.active);
    FieldRoundTrip(ExistingLabel, s.existing);
  }

  /** The sixteen lines of `to_string(probe_counts)`: the event counters,
      then the derived sums, then the extrema, each group under a heading. */
  function CountsLines(c: ProbeCounts): seq<Line> {
    [CallsHeading,
     Field(DefcoLabel, c.calls.defco),
     Field(ValcoLabel, c.calls.valco),
     Field(CopcoLabel, c.calls.copco),
     Field(MovcoLabel, c.calls.movco),
     Field(CopasLabel, c.calls.copas),
     Field(MovasLabel, c.calls.movas),
     Field(DestrLabel, c.calls.destr),
     SemanticsHeading,
     Field(CopiesLabel, c.semantics.copies),
     Field(MovesLabel, c.semantics.moves),
     ExtremaHeading,
     Field(MinActiveLabel, c.extrema.minActive),
     Field(MaxActiveLabel, c.extrema.maxActive),
     Field(MinExistingLabel, c.extrema.minExisting),
     Field(MaxExistingLabel, c.extrema.maxExisting)]
  }

  /** `to_string(probe_counts)`, from which every counter reads back
      unchanged. */
  function CountsToString(c: ProbeCounts): (r: string)
    ensures ParseCounts(r) == Some(c)
  {
    SplitJoin(CountsLines(c));
    CountsFromOwnLines(c);
    JoinLines(CountsLines(c))
  }

  /** Sixteen lines with the three headings and thirteen labels of a
      counter rendering, each in its place. */
  predicate CountsLabelled(ls: seq<Line>) {
    |ls| == 16 &&
    ls[0] == CallsHeading &&
    HasLabel(ls[1], DefcoLabel) && HasLabel(ls[2], ValcoLabel) &&
    HasLabel(ls[3], CopcoLabel) && HasLabel(ls[4], MovcoLabel) &&
    HasLabel(ls[5], CopasLabel) && HasLabel(ls[6], MovasLabel) &&
    HasLabel(ls[7], DestrLabel) &&
    ls[8] == SemanticsHeading &&
    HasLabel(ls[9], CopiesLabel) && HasLabel(ls[10], MovesLabel) &&
    ls[11] == ExtremaHeading &&
    HasLabel(ls[12], MinActiveLabel) && HasLabel(ls[13], MaxActiveLabel) &&
    HasLabel(ls[14], MinExistingLabel) && HasLabel(ls[15], MaxExistingLabel)
  }

  function CountsFromLines(ls: seq<Line>): ProbeCounts
    requires CountsLabelled(ls)
  {
    ProbeCounts(
      CallCounts(
        defco := FieldValue(ls[1], DefcoLabel),
        valco := FieldValue(ls[2], ValcoLabel),
        copco := FieldValue(ls[3], CopcoLabel),
        movco := FieldValue(ls[4], MovcoLabel),
        copas := FieldValue(ls[5], CopasLabel),
        movas := FieldValue(ls[6], MovasLabel),
        destr := FieldValue(ls[7], DestrLabel)),
      Semantics(
        moves := FieldValue(ls[10], MovesLabel),
        copies := FieldValue(ls[9], CopiesLabel)),
      Extrema(
        minActive := FieldValue(ls[12], MinActiveLabel),
        maxActive := FieldValue(ls[13], MaxActiveLabel),
        minExisting := FieldValue(ls[14], MinExistingLabel),
        maxExisting := FieldValue(ls[15], MaxExistingLabel)))
  }

  /** Reads a counter rendering back; text with any other layout, heading or
      label is refused. */
  function ParseCounts(r: string): Option<ProbeCounts> {
    var ls := SplitLines(r);
    if CountsLabelled(ls) then Some(CountsFromLines(ls)) else None
  }

  /** The state rendering is two lines and loses nothing. */
  lemma StateRoundTrip(s: ProbeState)
    ensures SplitLines(StateToString(s)) == StateLines(s)
    ensures ParseState(StateToString(s)) == Some(s)
  {
    SplitJoin(StateLines(s));
  }

  lemma CountsFromOwnLines(c: ProbeCounts)
    ensures CountsLabelled(CountsLines(c)) && CountsFromLines(CountsLines(c)) == c
  {
    var k, m, x := c.calls, c.semantics, c.extrema;
    SixteenLines(
      CallsHeading,
      Field(DefcoLabel, k.defco), Field(ValcoLabel, k.valco),
      Field(CopcoLabel, k.copco), Field(MovcoLabel, k.movco),
      Field(CopasLabel, k.copas), Field(MovasLabel, k.movas),
      Field(DestrLabel, k.destr),
      SemanticsHeading,
      Field(CopiesLabel, m.copies), Field(MovesLabel, m.moves),
      ExtremaHeading,
      Field(MinActiveLabel, x.minActive), Field(MaxActiveLabel, x.maxActive),
      Field(MinExistingLabel, x.minExisting), Field(MaxExistingLabel, x.maxExisting));
    FieldRoundTrip(DefcoLabel, k.defco);
    FieldRoundTrip(ValcoLabel, k.valco);
    FieldRoundTrip(CopcoLabel, k.copco);
    FieldRoundTrip(MovcoLabel, k.movco);
    FieldRoundTrip(CopasLabel, k.copas);
    FieldRoundTrip(MovasLabel, k.movas);
    FieldRoundTrip(DestrLabel, k.destr);
    FieldRoundTrip(CopiesLabel, m.copies);
    FieldRoundTrip(MovesLabel, m.moves);
    FieldRoundTrip(MinActiveLabel, x.minActive);
    FieldRoundTrip(MaxActiveLabel, x.maxActive);
    FieldRoundTrip(MinExistingLabel, x.minExisting);
    FieldRoundTrip(MaxExistingLabel, x.maxExisting);
  }

  /** The positions of sixteen lines in their display. */
  lemma SixteenLines(l0: Line, l1: Line, l2: Line, l3: Line, l4: Line, l5: Line, l6: Line, l7: Line,
                     l8: Line, l9: Line, l10: Line, l11: Line, l12: Line, l13: Line, l14: Line, l15: Line)
    ensures var ls := [l0, l1, l2, l3, l4, l5, l6, l7, l8, l9, l10, l11, l12, l13, l14, l15];
      |ls| == 16 && ls[0] == l0 && ls[1] == l1 && ls[2] == l2 && ls[3] == l3 &&
      ls[4] == l4 && ls[5] == l5 && ls[6] == l6 && ls[7] == l7 && ls[8] == l8 &&
      ls[9] == l9 && ls[10] == l10 && ls[11] == l11 && ls[12] == l12 &&
      ls[13] == l13 && ls[14] == l14 && ls[15] == l15
  {
  }

  /** The counter rendering is sixteen lines and loses nothing. */
  lemma CountsRoundTrip(c: ProbeCounts)
    ensures SplitLines(CountsToString(c)) == CountsLines(c)
    ensures ParseCounts(CountsToString(c)) == Some(c)
  {
    SplitJoin(CountsLines(c));
  }

  /** The text of `report()`: the drained set, the cumulative set and the
      snapshot, each after its section header, one per line. All three
      records read back from it unchanged. */
  function ReportText(last: ProbeCounts, total: ProbeCounts, state: ProbeState): (r: string)
    ensures SplitLines(r) == ReportLines(last, total, state)
    ensures ParseReport(r) == Some((last, total, state))
  {
    ReportLinesRead(last, total, state);
    JoinLines(ReportLines(last, total, state))
  }

  /** The 37 lines of a report: header 0, sixteen lines, header 17, sixteen
      lines, header 34, the two state lines. */
  function ReportLines(last: ProbeCounts, total: ProbeCounts, state: ProbeState): seq<Line> {
    [LastHeader] + CountsLines(last) + [TotalHeader] + CountsLines(total)
    + [StateHeader] + StateLines(state)
  }

  /** The report is laid out as `report()` builds it: each header, a line
      break, the rendered record, a line break before the next header. */
  lemma ReportIsJoinedLines(last: ProbeCounts, total: ProbeCounts, state: ProbeState)
    ensures ReportText(last, total, state) ==
      LastHeader + "\n" + CountsToString(last) + "\n"
      + TotalHeader + "\n" + CountsToString(total) + "\n"
      + StateHeader + "\n" + StateToString(state)
  {
    var l1 := [LastHeader] + CountsLines(last);
    var l2 := l1 + [TotalHeader];
    var l3 := l2 + CountsLines(total);
    var l4 := l3 + [StateHeader];
    JoinAppend([LastHeader], CountsLines(last));
    JoinAppend(l1, [TotalHeader]);
    JoinAppend(l2, CountsLines(total));
    JoinAppend(l3, [StateHeader]);
    JoinAppend(l4, StateLines(state));
  }

  /** Reads a report back: three headers in order, each followed by a
      rendering laid out and labelled as its reader expects; anything else
      is refused. */
  function ParseReport(r: string): Option<(ProbeCounts, ProbeCounts, ProbeState)> {
    var ls := SplitLines(r);
    if |ls| == 37 && ls[0] == LastHeader && ls[17] == TotalHeader && ls[34] == StateHeader
       && CountsLabelled(ls[1..17]) && CountsLabelled(ls[18..34]) && StateLabelled(ls[35..])
    then Some((CountsFromLines(ls[1..17]), CountsFromLines(ls[18..34]), StateFromLines(ls[35..])))
    else None
  }

  /** Where the six groups of a report's lines sit once they are joined. */
  lemma GroupSlices(a: seq<Line>, b: seq<Line>, c: seq<Line>, d: seq<Line>, e: seq<Line>, f: seq<Line>)
    ensures var ls := a + b + c + d + e + f;
      var i, j, k := |a|, |a| + |b| + |c|, |a| + |b| + |c| + |d| + |e|;
      ls[..i] == a && ls[i..i + |b|] == b && ls[i + |b|..j] == c &&
      ls[j..j + |d|] == d && ls[j + |d|..k] == e && ls[k..] == f
  {
  }

  /** Where three headers land among two sixteen-line groups and a tail. */
  lemma HeaderPositions(x: Line, a: seq<Line>, y: Line, b: seq<Line>, z: Line, c: seq<Line>)
    requires |a| == 16 && |b| == 16
    ensures var ls := [x] + a + [y] + b + [z] + c;
      |ls| == 35 + |c| && ls[0] == x && ls[17] == y && ls[34] == z
  {
  }

  /** A report has 37 lines, and its three section headers sit at lines 0,
      17 and 34, in that order. */
  lemma ReportHeaders(last: ProbeCounts, total: ProbeCounts, state: ProbeState)
    ensures var ls := SplitLines(ReportText(last, total, state));
      |ls| == 37 && ls[0] == LastHeader && ls[17] == TotalHeader && ls[34] == StateHeader
  {
    HeaderPositions(LastHeader, CountsLines(last), TotalHeader, CountsLines(total), StateHeader, StateLines(state));
  }

  /** The 37 lines above, joined, split back into themselves, and all three
      records can be read back from them. */
  lemma ReportLinesRead(last: ProbeCounts, total: ProbeCounts, state: ProbeState)
    ensures var ls := ReportLines(last, total, state);
      SplitLines(JoinLines(ls)) == ls && ParseReport(JoinLines(ls)) == Some((last, total, state))
  {
    var ls := ReportLines(last, total, state);
    SplitJoin(ls);
    GroupSlices([LastHeader], CountsLines(last), [TotalHeader], CountsLines(total), [StateHeader], StateLines(state));
    assert ls[1..17] == CountsLines(last);
    assert ls[18..34] == CountsLines(total);
    assert ls[35..] == StateLines(state);
    HeaderPositions(LastHeader, CountsLines(last), TotalHeader, CountsLines(total), StateHeader, StateLines(state));
    CountsFromOwnLines(last);
    CountsFromOwnLines(total);
    StateFromOwnLines(state);
  }
}
