/** Client code exercising one fresh instantiation, each method ending in what
    the queries then answer. After each event the counters are captured, and
    `AfterEvent` spells out what the event did to them. */
module Scenarios {
  import opened ProbeRecords
  import opened Lines
  import opened Render
  import opened Probes

  /** One default construction: one probe exists and is active, and it was
      counted as a default construction. */
  method DefaultConstructOne() returns (s: ProbeState, c: ProbeCounts)
    ensures s.active == 1 && s.existing == 1
    ensures Counter(c, DefaultConstruction) == 1 && Counter(c, Destruction) == 0
  {
    var acct := new Accounting();
    ghost var t0 := acct.total;
    var a := new Probe.DefaultNew(acct);
    assert Counter(acct.total, DefaultConstruction) == 1 && Counter(acct.total, Destruction) == 0 by {
      AfterEvent(t0, DefaultConstruction, acct.state, acct.total);
    }
    s := acct.State();
    c := acct.Total();
  }

  /** Moving out of a probe creates a second one and keeps one active: the
      new probe is active, the source is not. */
  method MoveConstructOne() returns (s: ProbeState, c: ProbeCounts, sourceActive: bool, targetActive: bool)
    ensures s.active == 1 && s.existing == 2
    ensures Counter(c, MoveConstruction) == 1 && c.semantics.moves == 1
    ensures !sourceActive && targetActive
  {
    var acct := new Accounting();
    ghost var t0 := acct.total;
    var a := new Probe.DefaultNew(acct);
    assert Counter(acct.total, MoveConstruction) == 0 && acct.total.semantics.moves == 0 by {
      AfterEvent(t0, DefaultConstruction, acct.state, acct.total);
    }
    ghost var t1 := acct.total;
    var b := new Probe.MoveNew(a);
    assert Counter(acct.total, MoveConstruction) == 1 && acct.total.semantics.moves == 1 by {
      AfterEvent(t1, MoveConstruction, acct.state, acct.total);
    }
    s := acct.State();
    c := acct.Total();
    sourceActive, targetActive := a.active, b.active;
  }

  /** A probe and its copy, both destroyed, leave the instantiation clean. */
  method CopyThenDestroyBoth() returns (s: ProbeState, c: ProbeCounts, clean: bool)
    ensures s.active == 0 && s.existing == 0 && clean
    ensures Counter(c, CopyConstruction) == 1 && Counter(c, Destruction) == 2
  {
    var acct := new Accounting();
    ghost var t0 := acct.total;
    var a := new Probe.DefaultNew(acct);
    assert Counter(acct.total, CopyConstruction) == 0 && Counter(acct.total, Destruction) == 0 by {
      AfterEvent(t0, DefaultConstruction, acct.state, acct.total);
    }
    ghost var t1 := acct.total;
    var b := new Probe.CopyNew(a);
    assert Counter(acct.total, CopyConstruction) == 1 && Counter(acct.total, Destruction) == 0 by {
      AfterEvent(t1, CopyConstruction, acct.state, acct.total);
    }
    ghost var t2 := acct.total;
    b.Destroy();
    assert Counter(acct.total, CopyConstruction) == 1 && Counter(acct.total, Destruction) == 1 by {
      AfterEvent(t2, Destruction, acct.state, acct.total);
    }
    ghost var t3 := acct.total;
    a.Destroy();
    assert Counter(acct.total, CopyConstruction) == 1 && Counter(acct.total, Destruction) == 2 by {
      AfterEvent(t3, Destruction, acct.state, acct.total);
    }
    s := acct.State();
    c := acct.Total();
    clean := acct.Clean();
  }

  /** `a = std::move(b)` between two active probes: `a` stays active, `b`
      becomes inactive, and only one of the two is still counted active. */
  method MoveAssignBetweenTwo() returns (s: ProbeState, c: ProbeCounts, targetActive: bool, sourceActive: bool)
    ensures s.active == 1 && s.existing == 2
    ensures Counter(c, MoveAssignment) == 1
    ensures targetActive && !sourceActive
  {
    var acct := new Accounting();
    ghost var t0 := acct.total;
    var a := new Probe.DefaultNew(acct);
    assert Counter(acct.total, MoveAssignment) == 0 by {
      AfterEvent(t0, DefaultConstruction, acct.state, acct.total);
    }
    ghost var t1 := acct.total;
    var b := new Probe.DefaultNew(acct);
    assert Counter(acct.total, MoveAssignment) == 0 by {
      AfterEvent(t1, DefaultConstruction, acct.state, acct.total);
    }
    ghost var t2 := acct.total;
    var r := a.MoveAssign(b);
    assert Counter(acct.total, MoveAssignment) == 1 by {
      AfterEvent(t2, MoveAssignment, acct.state, acct.total);
    }
    s := acct.State();
    c := acct.Total();
    targetActive, sourceActive := a.active, b.active;
  }

  /** The move assignment as written, applied by the only probe to itself:
      the active count falls to -1 while that probe still exists. */
  method SelfMoveAssignAsWritten() returns (s: ProbeState, clean: bool)
    ensures s.active == -1 && s.existing == 1 && !clean
  {
    var acct := new Accounting();
    var a := new Probe.DefaultNew(acct);
    assert a.active && acct.state == ProbeState(1, 1);
    var r := a.MoveAssignAsWritten(a);
    assert acct.state.active == -1 && acct.state.existing == 1 by {
      SelfMoveAssignMiscounts();
    }
    s := acct.State();
    clean := acct.Clean();
  }

  /** Two probes alive at once, then none: the maximum stays at the peak. */
  method PeakSurvivesDestruction() returns (s: ProbeState, c: ProbeCounts)
    ensures s.active == 0 && s.existing == 0
    ensures c.extrema.maxExisting == 2 && c.extrema.minExisting == 0
  {
    var acct := new Accounting();
    var a := new Probe.DefaultNew(acct);
    var b := new Probe.DefaultNew(acct);
    ghost var t0 := acct.total;
    assert t0.extrema.maxExisting == 2 && t0.extrema.minExisting == 0;
    a.Destroy();
    assert acct.total.extrema == t0.extrema by {
      AfterEvent(t0, Destruction, acct.state, acct.total);
    }
    ghost var t1 := acct.total;
    b.Destroy();
    assert acct.total.extrema == t1.extrema by {
      AfterEvent(t1, Destruction, acct.state, acct.total);
    }
    s := acct.State();
    c := acct.Total();
  }

  /** After a reset and one construction the report has its three headers in
      order, and reading it drains nothing: `total()` still counts the
      construction. */
  method ReportAfterReset() returns (r: string, t: ProbeCounts)
    ensures |SplitLines(r)| == 37
    ensures SplitLines(r)[0] == LastHeader && SplitLines(r)[17] == TotalHeader && SplitLines(r)[34] == StateHeader
    ensures Counter(t, DefaultConstruction) == 1
  {
    var acct := new Accounting();
    acct.Reset();
    ghost var t0 := acct.total;
    var a := new Probe.DefaultNew(acct);
    assert Counter(acct.total, DefaultConstruction) == 1 by {
      AfterEvent(t0, DefaultConstruction, acct.state, acct.total);
    }
    r := acct.Report();
    t := acct.Total();
  }

  /** Draining twice with no event between gives zero counters the second
      time, while the cumulative set keeps the event. */
  method DrainTwice() returns (first: ProbeCounts, second: ProbeCounts, t: ProbeCounts)
    ensures Counter(first, ValueConstruction) == 1 && IsZero(second) && Counter(t, ValueConstruction) == 1
  {
    var acct := new Accounting();
    ghost var t0, l0 := acct.total, acct.last;
    var a := new Probe.ValueNew(acct);
    assert Counter(acct.total, ValueConstruction) == 1 && Counter(acct.last, ValueConstruction) == 1 by {
      AfterEvent(t0, ValueConstruction, acct.state, acct.total);
      AfterEvent(l0, ValueConstruction, acct.state, acct.last);
    }
    first := acct.Last();
    second := acct.Last();
    t := acct.Total();
  }
}
