/** The instrumented wrapper `probe_t` and the accounting it updates.

    In the source the three records are static members of `probe_t<T>`, one
    triple per wrapped type. Here they are the fields of an `Accounting`
    object that every `Probe` refers to; one `Accounting` stands for one
    instantiation. Each special member of `probe_t` is an explicit
    constructor or method of `Probe`. */
module Probes {
  import opened ProbeRecords
  import opened Lines
  import opened Render

  /** A flag as the integer C++ converts a `bool` to. */
  function Flag(b: bool): int {
    if b then 1 else 0
  }

  // The arithmetic of the two assignment operators on the activity flags.

  /** The flags of an assignment's target and source before or after it.
      When target and source are one object there is only one flag. */
  datatype Operands = Distinct(target: bool, source: bool) | Aliased(flag: bool)

  function TargetFlag(op: Operands): bool {
    match op
    case Distinct(t, _) => t
    case Aliased(f) => f
  }

  function SourceFlag(op: Operands): bool {
    match op
    case Distinct(_, s) => s
    case Aliased(f) => f
  }

  /** The operands' flags as they stand now. */
  function Flags(t: Probe, o: Probe): Operands
    reads t, o
  {
    if t == o then Aliased(t.active) else Distinct(t.active, o.active)
  }

  /** The operands' flags as recorded by membership in the census set `a`. */
  ghost function Memberships(t: Probe, o: Probe, a: set<Probe>): Operands {
    if t == o then Aliased(t in a) else Distinct(t in a, o in a)
  }

  /** `m_active + o.m_active`, the flags as read through `this` and `o`. */
  function FlagSum(op: Operands): int {
    Flag(TargetFlag(op)) + Flag(SourceFlag(op))
  }

  /** The number of active objects among the operands, each counted once. */
  function ActiveAmong(op: Operands): int {
    match op
    case Distinct(t, s) => Flag(t) + Flag(s)
    case Aliased(f) => Flag(f)
  }

  /** The flags after `m_active = o.m_active`. */
  function AfterCopyAssign(op: Operands): Operands {
    match op
    case Distinct(_, s) => Distinct(s, s)
    case Aliased(f) => Aliased(f)
  }

  /** The flags after `m_active = o.m_active; o.m_active = false`. */
  function AfterMoveAssign(op: Operands): Operands {
    match op
    case Distinct(_, s) => Distinct(s, false)
    case Aliased(_) => Aliased(false)
  }

  /** How copy assignment moves the shared active count:
      `activeAfter - activeBefore` over the two reads. It moves by at most
      one. */
  function CopyAssignDelta(op: Operands): (d: int)
    ensures -1 <= d <= 1
  {
    FlagSum(AfterCopyAssign(op)) - FlagSum(op)
  }

  /** How move assignment moves the shared active count, as written:
      the same two reads, with the source cleared in between. It never
      raises the count, and lowers it by at most two. */
  function MoveAssignDeltaAsWritten(op: Operands): (d: int)
    ensures -2 <= d <= 0
  {
    FlagSum(AfterMoveAssign(op)) - FlagSum(op)
  }

  /** How move assignment should move the shared active count: by the change
      in the number of active objects, counting a self-assigned object once.
      It never raises the count, and lowers it by at most one. */
  function MoveAssignDelta(op: Operands): (d: int)
    ensures -1 <= d <= 0
  {
    ActiveAmong(AfterMoveAssign(op)) - ActiveAmong(op)
  }

  /** Copy assignment's arithmetic is right for all four flag combinations
      and for self-assignment: the count changes by the source's flag minus
      the target's old flag, which is the change in active objects. */
  lemma CopyAssignDeltaExact(op: Operands)
    ensures CopyAssignDelta(op) == ActiveAmong(AfterCopyAssign(op)) - ActiveAmong(op)
    ensures CopyAssignDelta(op) == Flag(SourceFlag(op)) - Flag(TargetFlag(op))
  {
  }

  /** Between two distinct objects move assignment's arithmetic is right:
      the count drops by the target's old flag. */
  lemma MoveAssignDeltaDistinct(t: bool, s: bool)
    ensures MoveAssignDeltaAsWritten(Distinct(t, s)) == MoveAssignDelta(Distinct(t, s))
    ensures MoveAssignDelta(Distinct(t, s)) == -Flag(t)
  {
  }

  /** Self move-assignment of an active probe: as written the count drops by
      two although only one object stops being active. */
  lemma SelfMoveAssignMiscounts()
    ensures MoveAssignDeltaAsWritten(Aliased(true)) == -2
    ensures ActiveAmong(AfterMoveAssign(Aliased(true))) - ActiveAmong(Aliased(true)) == -1
    ensures MoveAssignDelta(Aliased(true)) == -1
  {
  }

  /** The as-written self move-assignment traced through the snapshot: one
      active probe alone (active 1, existing 1) is self-move-assigned, which
      leaves it inactive and the active count at -1; destroying it then
      lowers `existing` by one and `active` by its cleared flag, so the
      snapshot ends at (active -1, existing 0) and `clean()` is false with
      no probe alive. */
  lemma SelfMoveThenDestroyAsWritten()
    ensures var moved := ProbeState(1 + MoveAssignDeltaAsWritten(Aliased(true)), 1);
      var flag := AfterMoveAssign(Aliased(true)).flag;
      var destroyed := ProbeState(moved.active - Flag(flag), moved.existing - 1);
      moved.active == -1 && destroyed == ProbeState(-1, 0) &&
      !(destroyed.active == 0 && destroyed.existing == 0)
  {
  }

  /** The corrected count drops by the target's old flag in every case. */
  lemma MoveAssignDeltaExact(op: Operands)
    ensures MoveAssignDelta(op) == -Flag(TargetFlag(op))
  {
  }

  /** `probe_counts{}`: a value-initialised counter set. It is the constant
      `ZeroCounts` (the two agree by `ZeroCountsOnly`), handed out as a value
      described field by field through `IsZero`, which keeps the constant's
      nested constructors out of the proofs about the records in the heap. */
  method FreshCounts() returns (c: ProbeCounts)
    ensures IsZero(c)
  {
    c := ZeroCounts;
    ZeroCountsOnly(c);
  }

  /** The three records of one wrapped type: `s_state`, `s_total` and
      `s_last`, with the probes of that type that are alive. */
  class Accounting {
    var state: ProbeState
    var total: ProbeCounts
    var last: ProbeCounts

    /** The probes constructed and not yet destroyed, and those of them
        whose flag is set. */
    ghost var live: set<Probe>
    ghost var activeLive: set<Probe>
    /** How many probes, and how many active ones, were alive at the last
        reset: `s_state` was zeroed while they lived, so it counts them
        short by these amounts. */
    ghost var liveAtReset: nat
    ghost var activeAtReset: nat
    /** The snapshots each counter set has been widened by since it was
        last zeroed, oldest first. */
    ghost var totalSeen: History
    ghost var lastSeen: History

    /** The records keep their books, and their extrema are those of the
        snapshots they were widened by. */
    ghost predicate Ledger()
      reads this`state, this`total, this`last, this`totalSeen, this`lastSeen
    {
      Books(total, last, state) &&
      total.extrema == Observed(totalSeen) &&
      last.extrema == Observed(lastSeen)
    }

    /** Every live probe belongs to this instantiation, and the active ones
        are exactly those whose flag is set. */
    ghost predicate Members()
      reads this`live, this`activeLive, live
    {
      activeLive <= live &&
      forall p :: p in live ==> p.acct == this && (p in activeLive <==> p.active)
    }

    /** The snapshot counts the live probes and the active ones, less those
        that outlived the last reset. */
    ghost predicate Tally()
      reads this`state, this`live, this`activeLive, this`liveAtReset, this`activeAtReset
    {
      state.existing == |live| - liveAtReset &&
      state.active == |activeLive| - activeAtReset
    }

    ghost predicate Census()
      reads this`state, this`live, this`activeLive, this`liveAtReset, this`activeAtReset, live
    {
      Members() && Tally()
    }

    ghost predicate Valid()
      reads this, live
    {
      Ledger() && Census()
    }

    /** No probe outlived the last reset, so `s_state` counts exactly. */
    ghost predicate Synced()
      reads this`liveAtReset, this`activeAtReset
    {
      liveAtReset == 0 && activeAtReset == 0
    }

    /** The records after one event `e` that moved `existing` by `dExisting`
        and `active` by `dActive`: the event is counted in both sets, both
        are widened by the new snapshot, and both histories record it. */
    twostate predicate Stepped(e: Event, dExisting: int, dActive: int)
      reads this`state, this`total, this`last, this`totalSeen, this`lastSeen, this`liveAtReset, this`activeAtReset
    {
      state == ProbeState(old(state.active) + dActive, old(state.existing) + dExisting) &&
      total == UpdateCountMinMax(Record(old(total), e), state.existing, state.active) &&
      last == UpdateCountMinMax(Record(old(last), e), state.existing, state.active) &&
      totalSeen == Then(old(totalSeen), state) && lastSeen == Then(old(lastSeen), state) &&
      liveAtReset == old(liveAtReset) && activeAtReset == old(activeAtReset)
    }

    /** The value-initialised statics of a new instantiation. */
    constructor ()
      ensures Valid() && Synced() && live == {}
      ensures state == ZeroState && IsZero(total) && IsZero(last)
      ensures totalSeen == NoSnapshot && lastSeen == NoSnapshot
    {
      new;
      var zero := FreshCounts();
      state, total, last := ZeroState, zero, zero;
      live, activeLive := {}, {};
      liveAtReset, activeAtReset := 0, 0;
      totalSeen, lastSeen := NoSnapshot, NoSnapshot;
      FreshBooks(zero);
    }

    /** `update_min_max`: widens both counter sets by the current snapshot. */
    method UpdateMinMax()
      modifies this`total, this`last, this`totalSeen, this`lastSeen
      ensures total == UpdateCountMinMax(old(total), state.existing, state.active)
      ensures last == UpdateCountMinMax(old(last), state.existing, state.active)
      ensures totalSeen == Then(old(totalSeen), state) && lastSeen == Then(old(lastSeen), state)
    {
      total := UpdateCountMinMax(total, state.existing, state.active);
      last := UpdateCountMinMax(last, state.existing, state.active);
      totalSeen := Then(totalSeen, state);
      lastSeen := Then(lastSeen, state);
    }

    /** What every special member of `probe_t` does to the records: count
        event `e` in both counter sets, move the snapshot by `dExisting` and
        `dActive`, then widen both sets by the new snapshot. */
    method Register(e: Event, dExisting: int, dActive: int)
      requires Ledger()
      modifies this`state, this`total, this`last, this`totalSeen, this`lastSeen
      ensures Ledger() && Stepped(e, dExisting, dActive)
    {
      last := Record(last, e);
      total := Record(total, e);
      state := ProbeState(state.active + dActive, state.existing + dExisting);
      UpdateMinMax();
      EventKeepsBooks(old(total), old(last), old(state), e, state);
    }

    // The census kept beside the records: which probes are alive and which
    // of them are active. These ghost steps follow each special member.

    /** A newly constructed probe `p` joins the census with its flag. */
    ghost method Enrol(p: Probe)
      requires Members() && p.acct == this && p !in live
      modifies this`live, this`activeLive
      ensures Members() && live == old(live) + {p}
      ensures activeLive == if p.active then old(activeLive) + {p} else old(activeLive)
      ensures |live| == |old(live)| + 1 && |activeLive| == |old(activeLive)| + Flag(p.active)
    {
      live := live + {p};
      if p.active {
        activeLive := activeLive + {p};
      }
    }

    /** A probe `p` move-constructed from `o` joins the census with the flag
        `o` had, and `o`, now cleared, is no longer counted as active. */
    ghost method EnrolMoved(o: Probe, p: Probe)
      requires activeLive <= live && o in live && o.acct == this && !o.active
      requires forall q :: q in live && q != o ==> q.acct == this && (q in activeLive <==> q.active)
      requires p.acct == this && p !in live && (p.active <==> o in activeLive)
      modifies this`live, this`activeLive
      ensures Members() && live == old(live) + {p}
      ensures |live| == |old(live)| + 1 && |activeLive| == |old(activeLive)|
    {
      live := live + {p};
      if p.active {
        activeLive := activeLive - {o} + {p};
      }
    }

    /** A destroyed probe `p` leaves the census. */
    ghost method Retire(p: Probe)
      requires Members() && p in live
      modifies this`live, this`activeLive
      ensures Members() && live == old(live) - {p} && activeLive == old(activeLive) - {p}
      ensures |live| == |old(live)| - 1 && |activeLive| == |old(activeLive)| - Flag(p.active)
    {
      live := live - {p};
      activeLive := activeLive - {p};
    }

    /** The census re-reads the flags of `t` and `o` after an assignment
        between them changed those flags and no other. The number of active
        probes changes by the change in active objects among the operands,
        each object counted once. */
    ghost method Refresh(t: Probe, o: Probe)
      requires activeLive <= live && t in live && o in live && t.acct == this && o.acct == this
      requires forall q :: q in live && q != t && q != o ==> q.acct == this && (q in activeLive <==> q.active)
      modifies this`activeLive
      ensures Members()
      ensures activeLive == Reflagged(old(activeLive), t, o, t.active, o.active)
      ensures |activeLive| == |old(activeLive)| + ActiveAmong(Flags(t, o)) - ActiveAmong(Memberships(t, o, old(activeLive)))
    {
      ghost var before := activeLive;
      activeLive := Reflagged(before, t, o, t.active, o.active);
      ReflaggedCard(before, t, o, t.active, o.active);
      forall p | p in activeLive ensures p in live {
        ReflaggedMember(before, t, o, t.active, o.active, p);
      }
      forall p | p in live ensures p.acct == this && (p in activeLive <==> p.active) {
        ReflaggedMember(before, t, o, t.active, o.active, p);
      }
    }

    /** An assignment between `t` and `o` that changed their flags and no
        other, registered with the active count moved by `dActive`. The
        census re-reads the two flags, and the snapshot's active count is off
        from it by how far `dActive` misses the change in active objects
        among the operands, each object counted once. */
    method Reassigned(e: Event, dActive: int, t: Probe, o: Probe)
      requires Ledger() && Tally()
      requires activeLive <= live && t in live && o in live && t.acct == this && o.acct == this
      requires forall q :: q in live && q != t && q != o ==> q.acct == this && (q in activeLive <==> q.active)
      modifies this`state, this`total, this`last, this`totalSeen, this`lastSeen, this`activeLive
      ensures Ledger() && Members() && live == old(live) && Stepped(e, 0, dActive)
      ensures state.existing == |live| - liveAtReset
      ensures state.active - (|activeLive| - activeAtReset) ==
        dActive - (ActiveAmong(Flags(t, o)) - ActiveAmong(Memberships(t, o, old(activeLive))))
    {
      Register(e, 0, dActive);
      Refresh(t, o);
    }

    /** `reset()`: zeroes all three records. Probes that are still alive
        stay alive, and `s_state` no longer counts them. */
    method Reset()
      requires Valid()
      modifies this
      ensures Valid()
      ensures state == ZeroState && IsZero(total) && IsZero(last) && Clean()
      ensures totalSeen == NoSnapshot && lastSeen == NoSnapshot
      ensures live == old(live) && activeLive == old(activeLive)
      ensures liveAtReset == |live| && activeAtReset == |activeLive|
      ensures Synced() <==> live == {}
    {
      var zero := FreshCounts();
      state, total, last := ZeroState, zero, zero;
      liveAtReset, activeAtReset := |live|, |activeLive|;
      totalSeen, lastSeen := NoSnapshot, NoSnapshot;
      FreshBooks(zero);
    }

    /** `state()`: the liveness snapshot. Between events it counts the live
        probes and the active ones (when no probe outlived a reset), so
        `0 <= active <= existing`. */
    function State(): (s: ProbeState)
      reads this, live
      ensures Valid() && Synced() ==> s.existing == |live| && s.active == |activeLive|
      ensures Valid() && Synced() ==> 0 <= s.active <= s.existing
    {
      ActiveWithinLive();
      state
    }

    lemma ActiveWithinLive()
      ensures Valid() ==> |activeLive| <= |live|
    {
      if Valid() {
        SubsetCard(activeLive, live);
      }
    }

    /** `total()`: the cumulative counters. Their derived sums hold, no
        counter is negative, they dominate the drained set, and their extrema
        are exactly those of every snapshot since the last reset. */
    function Total(): (c: ProbeCounts)
      reads this, live
      ensures Valid() ==> SumsHold(c) && NonNegative(c) && AtLeast(c, last)
      ensures Valid() ==> Covers(c.extrema, state) && SeededAtZero(c.extrema)
      ensures Valid() ==> c.extrema == Observed(totalSeen)
    {
      total
    }

    /** `last()`: hands out the counters since the previous call and zeroes
        them. */
    method Last() returns (c: ProbeCounts)
      requires Valid()
      modifies this`last, this`lastSeen
      ensures Valid()
      ensures c == old(last) && IsZero(last) && lastSeen == NoSnapshot
      ensures SumsHold(c) && NonNegative(c) && AtLeast(total, c)
    {
      c := last;
      last := FreshCounts();
      lastSeen := NoSnapshot;
      DrainKeepsBooks(total, c, state, last);
      FreshBooks(last);
    }

    /** `clean()`: whether no probe is alive (when none outlived a reset). */
    function Clean(): (r: bool)
      reads this, live
      ensures Valid() && Synced() ==> (r <==> live == {})
    {
      ActiveWithinLive();
      state.active == 0 && state.existing == 0
    }

    /** `report()`: the drained set, the cumulative set and the snapshot as
        text, under their headers. It reads `s_last` without draining it.
        Its 37 lines carry the headers at lines 0, 17 and 34, and the three
        records can be read back from it. */
    function Report(): (r: string)
      reads this
      ensures SplitLines(r) == ReportLines(last, total, state)
      ensures |SplitLines(r)| == 37 && SplitLines(r)[0] == LastHeader
      ensures SplitLines(r)[17] == TotalHeader && SplitLines(r)[34] == StateHeader
      ensures ParseReport(r) == Some((last, total, state))
    {
      ReportHeaders(last, total, state);
      ReportText(last, total, state)
    }
  }

  /** The set `a` with the memberships of `t` and `o` set to `tf` and `of`. */
  function Reflagged<T>(a: set<T>, t: T, o: T, tf: bool, of: bool): set<T> {
    a - {t, o} + ((if tf then {t} else {}) + (if of then {o} else {}))
  }

  lemma ReflaggedMember<T>(a: set<T>, t: T, o: T, tf: bool, of: bool, x: T)
    requires t == o ==> tf == of
    ensures x in Reflagged(a, t, o, tf, of) <==> if x == t then tf else if x == o then of else x in a
  {
  }

  /** Resetting two memberships changes the size of a set by the number of
      elements among the two that became members, less the number that were,
      each element counted once. */
  lemma ReflaggedCard<T>(a: set<T>, t: T, o: T, tf: bool, of: bool)
    requires t == o ==> tf == of
    ensures |Reflagged(a, t, o, tf, of)| ==
      |a| + ActiveAmong(if t == o then Aliased(tf) else Distinct(tf, of))
          - ActiveAmong(if t == o then Aliased(t in a) else Distinct(t in a, o in a))
  {
    var rest, was := a - {t, o}, a * {t, o};
    var add := (if tf then {t} else {}) + (if of then {o} else {});
    assert |a| == |rest| + |was| by {
      assert a == rest + was;
      DisjointUnionCard(rest, was);
    }
    assert |was| == ActiveAmong(if t == o then Aliased(t in a) else Distinct(t in a, o in a)) by {
      PairMembers(a, t, o);
      PairCard(t, o, t in a, o in a);
    }
    assert |rest + add| == |rest| + |add| by {
      DisjointUnionCard(rest, add);
    }
    assert |add| == ActiveAmong(if t == o then Aliased(tf) else Distinct(tf, of)) by {
      PairCard(t, o, tf, of);
    }
  }

  lemma PairMembers<T>(a: set<T>, t: T, o: T)
    ensures a * {t, o} == (if t in a then {t} else {}) + (if o in a then {o} else {})
  {
    if t in a && o in a {
      assert a * {t, o} == {t, o};
    } else if t in a {
      assert a * {t, o} == {t};
    } else if o in a {
      assert a * {t, o} == {o};
    } else {
      assert a * {t, o} == {};
    }
  }

  lemma DisjointUnionCard<T>(a: set<T>, b: set<T>)
    requires a !! b
    ensures |a + b| == |a| + |b|
  {
    assert a * b == {};
  }

  /** The members of a two-element selection, each element counted once. */
  lemma PairCard<T>(t: T, o: T, tf: bool, of: bool)
    requires t == o ==> tf == of
    ensures |(if tf then {t} else {}) + (if of then {o} else {})| ==
      ActiveAmong(if t == o then Aliased(tf) else Distinct(tf, of))
  {
    if t != o && tf && of {
      DisjointUnionCard({t}, {o});
    }
  }

  lemma SubsetCard<T>(a: set<T>, b: set<T>)
    requires a <= b
    ensures |a| <= |b|
  {
    assert b == a + (b - a);
  }

  /** One `probe_t` instance. Its payload is not modelled; its `m_active`
      flag is. */
  class Probe {
    const acct: Accounting
    var active: bool

    /** `probe_t()`. */
    constructor DefaultNew(acct: Accounting)
      requires acct.Valid()
      modifies acct
      ensures this.acct == acct && active
      ensures acct.Valid() && acct.live == old(acct.live) + {this}
      ensures acct.Stepped(DefaultConstruction, 1, 1)
    {
      this.acct := acct;
      active := true;
      new;
      assert this !in acct.live;
      acct.Register(DefaultConstruction, 1, 1);
      acct.Enrol(this);
    }

    /** `probe_t(const value_type&)`. */
    constructor ValueNew(acct: Accounting)
      requires acct.Valid()
      modifies acct
      ensures this.acct == acct && active
      ensures acct.Valid() && acct.live == old(acct.live) + {this}
      ensures acct.Stepped(ValueConstruction, 1, 1)
    {
      this.acct := acct;
      active := true;
      new;
      assert this !in acct.live;
      acct.Register(ValueConstruction, 1, 1);
      acct.Enrol(this);
    }

    /** `probe_t(const probe_t&)`: the copy takes the source's flag, the
        source is untouched. */
    constructor CopyNew(o: Probe)
      requires o.acct.Valid() && o in o.acct.live
      modifies o.acct
      ensures acct == o.acct && active == o.active && o.active == old(o.active)
      ensures acct.Valid() && acct.live == old(o.acct.live) + {this}
      ensures acct.Stepped(CopyConstruction, 1, Flag(o.active))
    {
      acct := o.acct;
      active := o.active;
      new;
      assert this !in acct.live;
      acct.Register(CopyConstruction, 1, Flag(active));
      acct.Enrol(this);
    }

    /** `probe_t(probe_t&&)`: the new probe takes the source's flag and the
        source becomes inactive, so the active count does not move. */
    constructor MoveNew(o: Probe)
      requires o.acct.Valid() && o in o.acct.live
      modifies o, o.acct
      ensures acct == o.acct && active == old(o.active) && !o.active
      ensures acct.Valid() && acct.live == old(o.acct.live) + {this}
      ensures acct.Stepped(MoveConstruction, 1, 0)
    {
      acct := o.acct;
      active := o.active;
      new;
      assert this !in acct.live;
      o.active := false;
      acct.Register(MoveConstruction, 1, 0);
      acct.EnrolMoved(o, this);
    }

    /** `operator=(const probe_t&)`: the target takes the source's flag, the
        active count moves by the source's flag minus the target's old one,
        and the target is returned. */
    method CopyAssign(o: Probe) returns (r: Probe)
      requires acct.Valid() && this in acct.live && o in acct.live
      modifies this, acct
      ensures r == this && active == o.active && o.active == old(o.active)
      ensures acct.Valid() && acct.live == old(acct.live)
      ensures acct.Stepped(CopyAssignment, 0, Flag(old(o.active)) - Flag(old(active)))
    {
      var activeBefore := Flag(active) + Flag(o.active);
      active := o.active;
      var activeAfter := Flag(active) + Flag(o.active);
      acct.Reassigned(CopyAssignment, activeAfter - activeBefore, this, o);
      r := this;
    }

    /** `operator=(probe_t&&)`: the target takes the source's flag, the
        source becomes inactive, the active count drops by the target's old
        flag, and the target is returned. A probe moved onto itself ends up
        inactive. */
    method MoveAssign(o: Probe) returns (r: Probe)
      requires acct.Valid() && this in acct.live && o in acct.live
      modifies this, o, acct
      ensures r == this && !o.active
      ensures o != this ==> active == old(o.active)
      ensures acct.Valid() && acct.live == old(acct.live)
      ensures acct.Stepped(MoveAssignment, 0, -Flag(old(active)))
    {
      // Each distinct object's flag is counted once.
      var aliased := o == this;
      var activeBefore := Flag(active) + (if aliased then 0 else Flag(o.active));
      active := o.active;
      o.active := false;
      var activeAfter := Flag(active) + (if aliased then 0 else Flag(o.active));
      acct.Reassigned(MoveAssignment, activeAfter - activeBefore, this, o);
      r := this;
    }

    /** `operator=(probe_t&&)` with the two reads of the flags given in the
        source. The records step as for the corrected member, except that the
        active count moves by the as-written difference, and the snapshot then
        counts the active probes wrongly by the difference of the two
        deltas: not at all between distinct objects, one short for an active
        probe moved onto itself. */
    method MoveAssignAsWritten(o: Probe) returns (r: Probe)
      requires acct.Valid() && this in acct.live && o in acct.live
      modifies this, o, acct
      ensures r == this && !o.active
      ensures o != this ==> active == old(o.active)
      ensures acct.Ledger() && acct.Members() && acct.live == old(acct.live)
      ensures acct.Stepped(MoveAssignment, 0, MoveAssignDeltaAsWritten(old(Flags(this, o))))
      ensures acct.state.active == |acct.activeLive| - acct.activeAtReset
        + MoveAssignDeltaAsWritten(old(Flags(this, o))) - MoveAssignDelta(old(Flags(this, o)))
      ensures o != this ==> acct.Valid()
    {
      ghost var t, s := active, o.active;
      var activeBefore := Flag(active) + Flag(o.active);
      active := o.active;
      o.active := false;
      var activeAfter := Flag(active) + Flag(o.active);
      acct.Reassigned(MoveAssignment, activeAfter - activeBefore, this, o);
      if o != this {
        MoveAssignDeltaDistinct(t, s);
        assert acct.Tally();
      }
      r := this;
    }

    /** `~probe_t()`: the probe stops existing, and stops being active if it
        was. */
    method Destroy()
      requires acct.Valid() && this in acct.live
      modifies acct
      ensures acct.Valid() && acct.live == old(acct.live) - {this}
      ensures acct.Stepped(Destruction, -1, -Flag(active))
    {
      acct.Register(Destruction, -1, -Flag(active));
      acct.Retire(this);
    }
  }
}
