/** The two plain records of the probe (the liveness snapshot and the event
    counters), the min/max widening applied after every lifecycle event, and
    the bookkeeping invariants the counters keep between events. */
module ProbeRecords {

  /** `probe_state`: how many probes are alive, and how many of those have
      not been moved from. */
  datatype ProbeState = ProbeState(active: int, existing: int)

  /** The value every field of a fresh record starts at. */
  const Seed: int := 0

  const ZeroState := ProbeState(Seed, Seed)

  /** The event counters of `probe_counts`, one per lifecycle event. */
  datatype CallCounts = CallCounts(
    defco: int, valco: int, copco: int, movco: int,
    copas: int, movas: int, destr: int)

  /** The two derived sums of `probe_counts`. */
  datatype Semantics = Semantics(moves: int, copies: int)

  /** The observed extrema of the liveness snapshot. */
  datatype Extrema = Extrema(minActive: int, maxActive: int, minExisting: int, maxExisting: int)

  /** `probe_counts`, in the three groups its declaration and its rendering
      keep apart. */
  datatype ProbeCounts = ProbeCounts(calls: CallCounts, semantics: Semantics, extrema: Extrema)

  const ZeroExtrema := Extrema(Seed, Seed, Seed, Seed)

  /** A value-initialised `probe_counts`: every field is 0. */
  const ZeroCounts := ProbeCounts(
    CallCounts(Seed, Seed, Seed, Seed, Seed, Seed, Seed),
    Semantics(Seed, Seed),
    ZeroExtrema)

  /** The seven lifecycle events a probe reports. */
  datatype Event =
    | DefaultConstruction
    | ValueConstruction
    | CopyConstruction
    | MoveConstruction
    | CopyAssignment
    | MoveAssignment
    | Destruction

  predicate IsCopy(e: Event) {
    e == CopyConstruction || e == CopyAssignment
  }

  predicate IsMove(e: Event) {
    e == MoveConstruction || e == MoveAssignment
  }

  /** The counter of `c` that counts event `e`. */
  function Counter(c: ProbeCounts, e: Event): int {
    match e
    case DefaultConstruction => c.calls.defco
    case ValueConstruction => c.calls.valco
    case CopyConstruction => c.calls.copco
    case MoveConstruction => c.calls.movco
    case CopyAssignment => c.calls.copas
    case MoveAssignment => c.calls.movas
    case Destruction => c.calls.destr
  }

  /** The counters after one event `e` was registered: exactly that event's
      counter rises by one, and so does `copies` or `moves` when the event is
      a copy or a move. The extrema are not touched here. */
  function Record(c: ProbeCounts, e: Event): (r: ProbeCounts)
    ensures forall k :: Counter(r, k) == Counter(c, k) + (if k == e then 1 else 0)
    ensures r.semantics.copies == c.semantics.copies + (if IsCopy(e) then 1 else 0)
    ensures r.semantics.moves == c.semantics.moves + (if IsMove(e) then 1 else 0)
    ensures r.extrema == c.extrema
  {
    var k, m := c.calls, c.semantics;
    match e
    case DefaultConstruction => c.(calls := k.(defco := k.defco + 1))
    case ValueConstruction => c.(calls := k.(valco := k.valco + 1))
    case CopyConstruction =>
      c.(calls := k.(copco := k.copco + 1), semantics := m.(copies := m.copies + 1))
    case MoveConstruction =>
      c.(calls := k.(movco := k.movco + 1), semantics := m.(moves := m.moves + 1))
    case CopyAssignment =>
      c.(calls := k.(copas := k.copas + 1), semantics := m.(copies := m.copies + 1))
    case MoveAssignment =>
      c.(calls := k.(movas := k.movas + 1), semantics := m.(moves := m.moves + 1))
    case Destruction => c.(calls := k.(destr := k.destr + 1))
  }

  function Min(a: int, b: int): int { if a <= b then a else b }

  function Max(a: int, b: int): int { if a <= b then b else a }

  /** The extrema `x` widened to take in one more snapshot: a range that
      contains the old one and the snapshot. */
  function Widen(x: Extrema, existing: int, active: int): (r: Extrema)
    ensures Wider(r, x) && Covers(r, ProbeState(active, existing))
  {
    Extrema(Min(x.minActive, active), Max(x.maxActive, active),
            Min(x.minExisting, existing), Max(x.maxExisting, existing))
  }

  /** `update_count_min_max`: widens the observed ranges of `existing` and
      `active` so that they include the given values. A minimum never rises,
      a maximum never falls, each new bound is either the old bound or the
      new value, and no counter changes. */
  function UpdateCountMinMax(c: ProbeCounts, existing: int, active: int): (r: ProbeCounts)
    ensures r.extrema.minExisting <= c.extrema.minExisting && r.extrema.minExisting <= existing
    ensures r.extrema.minExisting == c.extrema.minExisting || r.extrema.minExisting == existing
    ensures r.extrema.maxExisting >= c.extrema.maxExisting && r.extrema.maxExisting >= existing
    ensures r.extrema.maxExisting == c.extrema.maxExisting || r.extrema.maxExisting == existing
    ensures r.extrema.minActive <= c.extrema.minActive && r.extrema.minActive <= active
    ensures r.extrema.minActive == c.extrema.minActive || r.extrema.minActive == active
    ensures r.extrema.maxActive >= c.extrema.maxActive && r.extrema.maxActive >= active
    ensures r.extrema.maxActive == c.extrema.maxActive || r.extrema.maxActive == active
    ensures r.calls == c.calls && r.semantics == c.semantics
  {
    c.(extrema := Widen(c.extrema, existing, active))
  }

  /** The widening is the narrowest range that contains the old one and the
      snapshot: every other such range contains it. */
  lemma WidenLeast(x: Extrema, s: ProbeState, y: Extrema)
    requires Wider(y, x) && Covers(y, s)
    ensures Wider(y, Widen(x, s.existing, s.active))
  {
  }

  /** One registered event as the counters see it: exactly that event's
      counter rises by one, so does the derived sum it belongs to, and the
      extrema are widened by the snapshot taken after it. */
  lemma AfterEvent(c: ProbeCounts, e: Event, s: ProbeState, r: ProbeCounts)
    requires r == UpdateCountMinMax(Record(c, e), s.existing, s.active)
    ensures forall k :: Counter(r, k) == Counter(c, k) + (if k == e then 1 else 0)
    ensures r.semantics.copies == c.semantics.copies + (if IsCopy(e) then 1 else 0)
    ensures r.semantics.moves == c.semantics.moves + (if IsMove(e) then 1 else 0)
    ensures r.extrema == Widen(c.extrema, s.existing, s.active)
  {
    forall k ensures Counter(r, k) == Counter(Record(c, e), k) { }
  }

  /** The snapshots a counter set has been widened by, oldest first: none,
      or an earlier history followed by one more snapshot. */
  datatype History = NoSnapshot | Then(earlier: History, snapshot: ProbeState)

  /** `s` is one of the snapshots of `h`. */
  ghost predicate Saw(h: History, s: ProbeState) {
    match h
    case NoSnapshot => false
    case Then(e, t) => t == s || Saw(e, s)
  }

  /** The extrema a counter set holds after observing the snapshots of `h`,
      starting from the zero seed. */
  function Observed(h: History): Extrema {
    match h
    case NoSnapshot => ZeroExtrema
    case Then(e, s) => Widen(Observed(e), s.existing, s.active)
  }

  /** The snapshot lies within the extrema. */
  ghost predicate Covers(x: Extrema, s: ProbeState) {
    x.minExisting <= s.existing <= x.maxExisting &&
    x.minActive <= s.active <= x.maxActive
  }

  /** Because the extrema are seeded at 0, 0 always lies within them. */
  ghost predicate SeededAtZero(x: Extrema) {
    Covers(x, ZeroState)
  }

  /** 0 lies within the extrema of every history. */
  lemma {:induction false} ObservedSeeded(h: History)
    ensures SeededAtZero(Observed(h))
  {
    if h.Then? {
      ObservedSeeded(h.earlier);
    }
  }

  /** Every snapshot observed lies within the extrema, and so does 0. */
  lemma {:induction false} ObservedCovers(h: History, s: ProbeState)
    requires Saw(h, s)
    ensures Covers(Observed(h), s) && SeededAtZero(Observed(h))
  {
    ObservedSeeded(h);
    if h.snapshot != s {
      ObservedCovers(h.earlier, s);
    }
  }

  /** Each extremum is 0 (the seed) or the value of some observed snapshot:
      the widening never invents a bound. */
  lemma {:induction false} ObservedAttained(h: History)
    ensures Observed(h).minExisting == 0 || exists s :: Saw(h, s) && s.existing == Observed(h).minExisting
    ensures Observed(h).maxExisting == 0 || exists s :: Saw(h, s) && s.existing == Observed(h).maxExisting
    ensures Observed(h).minActive == 0 || exists s :: Saw(h, s) && s.active == Observed(h).minActive
    ensures Observed(h).maxActive == 0 || exists s :: Saw(h, s) && s.active == Observed(h).maxActive
  {
    if h.Then? {
      var e, t := h.earlier, h.snapshot;
      ObservedAttained(e);
      assert Saw(h, t);
      forall s | Saw(e, s) ensures Saw(h, s) { }
    }
  }

  /** The two derived sums agree with the event counters they sum. */
  ghost predicate SumsHold(c: ProbeCounts) {
    c.semantics.copies == Counter(c, CopyConstruction) + Counter(c, CopyAssignment) &&
    c.semantics.moves == Counter(c, MoveConstruction) + Counter(c, MoveAssignment)
  }

  ghost predicate NonNegative(c: ProbeCounts) {
    forall e :: Counter(c, e) >= 0
  }

  /** The ranges of `a` contain those of `b`. */
  ghost predicate Wider(a: Extrema, b: Extrema) {
    a.minExisting <= b.minExisting && a.maxExisting >= b.maxExisting &&
    a.minActive <= b.minActive && a.maxActive >= b.maxActive
  }

  /** `t` has counted at least what `l` has, and has seen at least as wide a
      range: the relation between the cumulative and the drained set. */
  ghost predicate AtLeast(t: ProbeCounts, l: ProbeCounts) {
    (forall e :: Counter(t, e) >= Counter(l, e)) &&
    t.semantics.copies >= l.semantics.copies && t.semantics.moves >= l.semantics.moves &&
    Wider(t.extrema, l.extrema)
  }

  /** What holds of the cumulative set `total`, the drained set `last` and the
      snapshot between any two lifecycle events. */
  ghost predicate Books(total: ProbeCounts, last: ProbeCounts, state: ProbeState) {
    SumsHold(total) && SumsHold(last) && NonNegative(last) &&
    AtLeast(total, last) && SeededAtZero(last.extrema) && Covers(total.extrema, state)
  }

  /** Every counter of `c` is 0: what a value-initialised `probe_counts`
      holds, stated field by field. */
  ghost predicate IsZero(c: ProbeCounts) {
    (forall e :: Counter(c, e) == 0) &&
    c.semantics.moves == 0 && c.semantics.copies == 0 &&
    c.extrema.minActive == 0 && c.extrema.maxActive == 0 &&
    c.extrema.minExisting == 0 && c.extrema.maxExisting == 0
  }

  /** `IsZero` singles out exactly the value-initialised counters. */
  lemma ZeroCountsOnly(c: ProbeCounts)
    ensures IsZero(c) <==> c == ZeroCounts
  {
    if IsZero(c) {
      assert Counter(c, DefaultConstruction) == 0 && Counter(c, ValueConstruction) == 0;
      assert Counter(c, CopyConstruction) == 0 && Counter(c, MoveConstruction) == 0;
      assert Counter(c, CopyAssignment) == 0 && Counter(c, MoveAssignment) == 0;
      assert Counter(c, Destruction) == 0;
    }
    if c == ZeroCounts {
      forall e ensures Counter(c, e) == 0 { }
    }
  }

  /** Fresh counters keep the books with the zero snapshot, and their
      extrema are those of no snapshot at all. */
  lemma FreshBooks(z: ProbeCounts)
    requires IsZero(z)
    ensures Books(z, z, ZeroState) && z.extrema == Observed(NoSnapshot)
  {
  }

  /** Registering one event in both sets and widening both by the snapshot
      taken after it keeps the books. */
  lemma EventKeepsBooks(total: ProbeCounts, last: ProbeCounts, before: ProbeState, e: Event, after: ProbeState)
    requires Books(total, last, before)
    ensures Books(UpdateCountMinMax(Record(total, e), after.existing, after.active),
                  UpdateCountMinMax(Record(last, e), after.existing, after.active), after)
  {
    var t := UpdateCountMinMax(Record(total, e), after.existing, after.active);
    var l := UpdateCountMinMax(Record(last, e), after.existing, after.active);
    AfterEvent(total, e, after, t);
    AfterEvent(last, e, after, l);
    forall k ensures Counter(l, k) >= 0 && Counter(t, k) >= Counter(l, k) {
      assert Counter(total, k) >= Counter(last, k) && Counter(last, k) >= 0;
    }
    assert SumsHold(t) && SumsHold(l);
    assert Wider(t.extrema, l.extrema);
    assert SeededAtZero(l.extrema) && Covers(t.extrema, after);
  }

  /** Draining the "since last read" set keeps the books. */
  lemma DrainKeepsBooks(total: ProbeCounts, last: ProbeCounts, state: ProbeState, z: ProbeCounts)
    requires Books(total, last, state) && IsZero(z)
    ensures Books(total, z, state)
  {
    BooksTotal(total, last, state);
  }

  /** Consequences of the books for the cumulative set: its derived sums hold,
      its counters are never negative, and 0 lies within its extrema. */
  lemma BooksTotal(total: ProbeCounts, last: ProbeCounts, state: ProbeState)
    requires Books(total, last, state)
    ensures SumsHold(total) && NonNegative(total) && SeededAtZero(total.extrema)
  {
    forall e ensures Counter(total, e) >= 0 {
      assert Counter(total, e) >= Counter(last, e);
    }
  }
}
