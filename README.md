# probe: a verified model of the lifecycle-accounting probe

`probe_t<T>` (in `include/probe.hpp`) wraps a value and counts what happens to
it in a test. Every special member of the wrapper updates three shared
records:

- `s_state`, the liveness snapshot: how many probes exist, and how many of
  those have not been moved from;
- `s_total`, the cumulative event counters;
- `s_last`, the event counters since the last `last()` call.

The records can be queried (`state()`, `total()`, `last()`, `clean()`,
`report()`) and zeroed (`reset()`).

This project models that header in Dafny and proves what its counters mean.

- `records.dfy` (module `ProbeRecords`) holds the two plain records, one
  event's effect on the counters (`Record`), and the min/max widening
  (`UpdateCountMinMax`).
  - The thirteen fields of `probe_counts` are grouped the way the
    declaration and its rendering group them: the event counters (`calls`),
    the derived sums (`semantics`) and the extrema.
  - `Books` is the invariant the three records keep between events. The
    derived sums hold in both counter sets, the cumulative set dominates the
    drained one, 0 lies within the drained set's extrema, and the current
    snapshot lies within the cumulative set's extrema.
  - `Observed` folds the same widening over a `History` of snapshots,
    starting from the zero seed. What the folded extrema mean is stated
    without the widening by `ObservedSeeded`, `ObservedCovers` and
    `ObservedAttained`: each minimum is the least, and each maximum the
    greatest, of 0 and the values in that history.
- `probe.dfy` (module `Probes`) holds the stateful part.
  - `Accounting` is a class whose fields `state`, `total` and `last` are the
    three statics of one instantiation.
  - `Probe` is a class with the `m_active` flag. Its four constructors and
    its methods `CopyAssign`, `MoveAssign` and `Destroy` are the seven
    special members. An eighth member, `MoveAssignAsWritten`, is the move
    assignment with the source's arithmetic (see Findings); `MoveAssign` is
    its corrected form.
  - Beside the records, `Accounting` keeps ghost state: the set of live
    probes (`live`), those of them that are active (`activeLive`), and the
    snapshots each counter set has been widened by (two `History` values).
  - `Valid()` ties the ghost state to the records, and each of the seven
    special members preserves it. `MoveAssignAsWritten` does not: after an
    active probe is move-assigned to itself, the active count is off by one.
    Two conjuncts of `Valid()` are `existing == |live| - liveAtReset` and
    `active == |activeLive| - activeAtReset`.
  - `Stepped` states the exact new value of all three records after each
    event, and that both histories grow by the new snapshot.
  - The flag arithmetic of the two assignment operators is modelled on its
    own with the `Operands` datatype. That datatype also covers the case
    where the source and target are one object.
- `render.dfy` (module `Render`) holds the two `to_string` overloads and
  `report()`.
  - The words of every line (labels, headings, headers) are fixed by the
    definitions `StateLines`, `CountsLines` and `ReportLines`, which follow
    include/probe.hpp:15-16, 41-56 and 184-189.
  - Each rendering has a reader (`ParseState`, `ParseCounts`,
    `ParseReport`). A reader refuses text with the wrong number of lines or
    with any heading, header or label out of place. Otherwise it reads each
    value from what follows its label.
  - Each rendering's contract states that its record reads back. So the
    line count and every label are as the reader expects, and no value is
    lost.
  - `decimal.dfy` models the decimal text of `std::to_string`.
  - `lines.dfy` models joining lines with `'\n'` and splitting text at line
    breaks.
- `scenarios.dfy` (module `Scenarios`) holds client code that exercises one
  fresh instantiation. Each method proves what the queries then answer.

`reset()` zeroes `s_state` even while probes are alive. From then on the
snapshot counts those probes short. The ghost counters `liveAtReset` and
`activeAtReset` record by how much. `Synced()` says that no probe outlived the
last reset. The bounds `0 <= active <= existing` and the meaning of `clean()`
are stated under that condition.

## Model

| member | source | states |
|---|---|---|
| `Decimal.NatToString` | include/probe.hpp:15-16 | the decimal text of a magnitude is non-empty, all digits, and has no leading zero unless it is `0` |
| `Decimal.IntToString` | include/probe.hpp:15-16 | the decimal text of a counter is non-empty, has no line break, starts with `-` exactly when the value is negative, and what follows the optional `-` is a non-empty run of digits with no leading zero unless it is `0` |
| `Decimal.IntRoundTrip` | include/probe.hpp:15-16 | the value can be read back from its decimal text |
| `Decimal.NatRoundTrip` | include/probe.hpp:15-16 | the digits of a magnitude read back as that magnitude (induction on the number of digits) |
| `Lines.SplitJoin` | include/probe.hpp:39-58 | splitting at the line breaks undoes joining lines that contain none |
| `Lines.JoinAppend` | include/probe.hpp:182-191 | concatenating two renderings with `"\n"` between gives the joined lines of both groups |
| `ProbeRecords.Record` | include/probe.hpp:72-157 | counting an event raises exactly that event's counter by one, raises `copies` for a copy and `moves` for a move, and does not touch the extrema |
| `ProbeRecords.Widen` | include/probe.hpp:60-66 | the widened range contains the old range and the new snapshot |
| `ProbeRecords.WidenLeast` | include/probe.hpp:60-66 | the widened range is the narrowest such: every range containing the old one and the snapshot contains it |
| `ProbeRecords.UpdateCountMinMax` | include/probe.hpp:60-66 | a minimum never rises and a maximum never falls; afterwards each range contains the given value; each new bound is the old bound or the new value; no counter changes |
| `ProbeRecords.AfterEvent` | include/probe.hpp:72-157 | one event followed by the widening raises exactly that event's counter and its derived sum, and widens the extrema by the new snapshot |
| `ProbeRecords.ObservedSeeded` | include/probe.hpp:60-66 | 0, the value of the zeroed counters, lies within the extrema of every history |
| `ProbeRecords.ObservedCovers` | include/probe.hpp:60-66 | every snapshot observed since the counters were zeroed, and 0, lies within the extrema |
| `ProbeRecords.ObservedAttained` | include/probe.hpp:60-66 | each extremum is 0 (the seed) or the value of some observed snapshot |
| `ProbeRecords.ZeroCountsOnly` | include/probe.hpp:20-37 | a counter set is zero in every field exactly when it is the value-initialised `probe_counts{}` |
| `ProbeRecords.FreshBooks` | include/probe.hpp:206-211 | zeroed records keep the books with the zero snapshot, and their extrema are those of no snapshot |
| `ProbeRecords.EventKeepsBooks` | include/probe.hpp:72-157 | counting one event in both sets and widening both by the new snapshot keeps the books |
| `ProbeRecords.DrainKeepsBooks` | include/probe.hpp:172-177 | zeroing the drained set keeps the books |
| `ProbeRecords.BooksTotal` | include/probe.hpp:168-171 | in the cumulative set `copies == copco + copas` and `moves == movco + movas`, no counter is negative, and 0 lies within the extrema |
| `Render.FieldRoundTrip` | include/probe.hpp:42-56 | a labelled line starts with its label and gives back its value |
| `Render.StateFromOwnLines` | include/probe.hpp:13-18 | the two lines of `to_string(probe_state)` carry their labels in order and give back both fields |
| `Render.StateToString` | include/probe.hpp:13-18 | the snapshot reads back unchanged from `to_string(probe_state)`, whose labels the reader finds in place |
| `Render.StateRoundTrip` | include/probe.hpp:13-18 | `to_string(probe_state)` is two lines and the snapshot can be read back from it |
| `Render.CountsFromOwnLines` | include/probe.hpp:39-58 | the sixteen lines of `to_string(probe_counts)` carry the three headings and thirteen labels in place and give back every field |
| `Render.CountsToString` | include/probe.hpp:39-58 | every counter reads back unchanged from `to_string(probe_counts)`, whose headings and labels the reader finds in place |
| `Render.CountsRoundTrip` | include/probe.hpp:39-58 | `to_string(probe_counts)` is sixteen lines and the counters can be read back from it |
| `Render.ReportText` | include/probe.hpp:182-191 | the report's lines are the three headers, each followed by its rendering, and `s_last`, `s_total` and `s_state` all read back from it, the reader finding every header, heading and label in place |
| `Render.ReportIsJoinedLines` | include/probe.hpp:182-191 | the report is laid out as `report()` builds it: each header, a line break, its rendering, and a line break before the next header |
| `Render.ReportHeaders` | include/probe.hpp:182-191 | the report has 37 lines, with `===LAST===` at line 0, `===TOTAL===` at line 17 and `===STATE===` at line 34 |
| `Render.ReportLinesRead` | include/probe.hpp:182-191 | the 37 report lines, joined, split back into themselves, and the three records read back from them |
| `Probes.CopyAssignDelta` | include/probe.hpp:119-123 | copy assignment moves the active count by at most one |
| `Probes.MoveAssignDeltaAsWritten` | include/probe.hpp:136-141 | move assignment as written never raises the active count and lowers it by at most two |
| `Probes.MoveAssignDelta` | include/probe.hpp:136-141 | the corrected move assignment never raises the active count and lowers it by at most one |
| `Probes.CopyAssignDeltaExact` | include/probe.hpp:119-123 | for every combination of flags, self-assignment included, the copy-assignment delta is the source's flag minus the target's old flag, which is the change in the number of active objects |
| `Probes.MoveAssignDeltaDistinct` | include/probe.hpp:136-141 | between distinct objects the move-assignment delta as written is the change in active objects, namely minus the target's old flag |
| `Probes.SelfMoveAssignMiscounts` | include/probe.hpp:136-141 | moving an active probe onto itself: as written the count drops by 2, although only one object stops being active |
| `Probes.SelfMoveThenDestroyAsWritten` | include/probe.hpp:136-157 | one active probe alone, self-move-assigned as written and then destroyed, leaves the snapshot at (active -1, existing 0), so `clean()` is false with no probe alive |
| `Probes.MoveAssignDeltaExact` | include/probe.hpp:136-141 | the corrected move-assignment delta is minus the target's old flag in every case, self-assignment included |
| `Probes.FreshCounts` | include/probe.hpp:175 | `probe_counts{}` is zero in every field |
| `Probes.Accounting.constructor` | include/probe.hpp:206-211 | a new instantiation starts with zeroed records, empty histories, no live probe and the invariant established |
| `Probes.Accounting.UpdateMinMax` | include/probe.hpp:199-203 | both counter sets are widened by the current snapshot, and both histories grow by it |
| `Probes.Accounting.Register` | include/probe.hpp:72-157 | the event is counted in both sets, the snapshot moves by the given deltas, both sets are widened by the new snapshot and record it in their histories, and the books are kept |
| `Probes.Accounting.Enrol` | include/probe.hpp:72-102 | a newly constructed probe joins the live set, and the active set if its flag is set; the sizes grow by 1 and by its flag |
| `Probes.Accounting.EnrolMoved` | include/probe.hpp:103-113 | a move-constructed probe joins the live set and takes the cleared source's place among the active ones; the active count does not change |
| `Probes.Accounting.Retire` | include/probe.hpp:149-157 | a destroyed probe leaves both sets; their sizes drop by 1 and by its flag |
| `Probes.Accounting.Refresh` | include/probe.hpp:114-148 | after an assignment the census reads the two operands' flags again; the active set changes by the change in active objects among them, each object counted once |
| `Probes.Accounting.Reassigned` | include/probe.hpp:114-148 | an assignment registers its event and re-reads the flags; the snapshot's active count misses the census by exactly how far the registered delta misses the change in active objects |
| `Probes.Accounting.Reset` | include/probe.hpp:158-163 | all three records are zeroed, both histories are emptied and `clean()` holds; live probes stay alive and are from then on counted short by their number |
| `Probes.Accounting.State` | include/probe.hpp:164-167 | the snapshot counts the live probes and the active ones, so `0 <= active <= existing` |
| `Probes.Accounting.ActiveWithinLive` | include/probe.hpp:164-167 | there are never more active probes than live ones |
| `Probes.Accounting.Total` | include/probe.hpp:168-171 | the cumulative set's derived sums hold, its counters are not negative, it dominates the drained set, and its extrema are exactly those of every snapshot since the last reset |
| `Probes.Accounting.Last` | include/probe.hpp:172-177 | returns the drained set and zeroes it, so a second call with no event in between returns zeros; the returned set is dominated by the cumulative one |
| `Probes.Accounting.Clean` | include/probe.hpp:178-181 | `clean()` holds exactly when no probe is alive |
| `Probes.Accounting.Report` | include/probe.hpp:182-191 | the report has 37 lines with its headers at lines 0, 17 and 34, and gives back `s_last`, `s_total` and `s_state` without draining `s_last` |
| `Probes.Probe.DefaultNew` | include/probe.hpp:72-81 | `defco` is counted, `existing` and `active` rise by 1, and the new probe is active and live |
| `Probes.Probe.ValueNew` | include/probe.hpp:82-91 | `valco` is counted, `existing` and `active` rise by 1, and the new probe is active and live |
| `Probes.Probe.CopyNew` | include/probe.hpp:92-102 | `copco` and `copies` are counted; `existing` rises by 1 and `active` by the source's flag; the copy takes the source's flag and the source is unchanged |
| `Probes.Probe.MoveNew` | include/probe.hpp:103-113 | `movco` and `moves` are counted; `existing` rises by 1 and `active` does not move; the new probe takes the source's flag and the source becomes inactive |
| `Probes.Probe.CopyAssign` | include/probe.hpp:114-130 | `copas` and `copies` are counted; `existing` does not move and `active` moves by the source's flag minus the target's old flag; the target takes the source's flag and is returned |
| `Probes.Probe.MoveAssign` | include/probe.hpp:131-148 | `movas` and `moves` are counted; `existing` does not move and `active` drops by the target's old flag; the target takes the source's old flag, the source becomes inactive, and the target is returned (corrected arithmetic, see Findings) |
| `Probes.Probe.MoveAssignAsWritten` | include/probe.hpp:131-148 | the move-assignment arithmetic as written: `active` moves by the two-read difference, and the snapshot is then off from the census by that difference minus the change in active objects; between distinct objects that is no drift, and the invariant holds again |
| `Probes.Probe.Destroy` | include/probe.hpp:149-157 | `destr` is counted; `existing` drops by 1 and `active` by the probe's own flag; the probe is no longer live |
| `Scenarios.DefaultConstructOne` | include/probe.hpp:72-81 | after one default construction `state()` is (1, 1) and `total().defco == 1` |
| `Scenarios.MoveConstructOne` | include/probe.hpp:103-113 | moving out of a probe gives `state()` (active 1, existing 2), `movco == moves == 1`, and only the new probe active |
| `Scenarios.CopyThenDestroyBoth` | include/probe.hpp:92-102 | a probe and its copy, both destroyed, leave `state()` at (0, 0) and `clean()` true, with `copco == 1` and `destr == 2` |
| `Scenarios.MoveAssignBetweenTwo` | include/probe.hpp:131-148 | `a = std::move(b)` between two active probes leaves `a` active, `b` inactive, one active probe of two, and `movas == 1` |
| `Scenarios.SelfMoveAssignAsWritten` | include/probe.hpp:136-141 | the only probe, move-assigned to itself as written, leaves `state()` at (active -1, existing 1) and `clean()` false |
| `Scenarios.PeakSurvivesDestruction` | include/probe.hpp:60-66 | after a peak of two live probes and the destruction of both, `max_existing` is still 2 and `min_existing` 0 |
| `Scenarios.ReportAfterReset` | include/probe.hpp:182-191 | after a reset and one construction the report has its three headers in order, and `total().defco` is still 1 |
| `Scenarios.DrainTwice` | include/probe.hpp:172-177 | two `last()` calls with no event between: the first counts the construction, the second is all zeros, and `total()` still counts it |

## Left out

- The wrapped payload `m_value` and its construction, copy and move (include/probe.hpp:72, 82, 92, 103, 127, 145, 198). These are operations of the foreign `value_type`; the model keeps only the `m_active` flag.
- Per-type partitioning of the statics (include/probe.hpp:206-211). This is template instantiation; one `Accounting` object stands for one instantiation, and every `Probe` refers to its own.
- Concurrency: the counters are unsynchronised shared state, and the model is sequential.
- `int64_t` and `int` overflow: counters are unbounded integers.
- `noexcept` and the implicit dispatch of special members: each special member is an explicit constructor or method call.
- Use of a probe after its destruction is undefined behaviour in the source. Here every method requires its probe to be live, and `Destroy` removes it from the live set.
- `std::to_string` is modelled by `Decimal.IntToString`: a minus sign, then the decimal digits without leading zeros.
- `Probes.Accounting.State`: the bounds `existing == |live|`, `active == |activeLive|` and `0 <= active <= existing` are stated only when `Synced()` holds, i.e. no probe outlived the last `reset()`. After such a reset `s_state` counts those probes short, and destroying them drives it negative, as the source does.
- `Probes.Accounting.Clean`: "no probe is alive" is stated only under `Synced()`, for the same reason.
- Extrema after a reset with live probes: the model widens by the drifted snapshot exactly as the source does, and names no other meaning for it.
- `report()` reads `s_last` directly and does not call `last()` (include/probe.hpp:185), so `Probes.Accounting.Report` is a function that changes nothing.
- `a = std::move(b)` between two active probes moves the active count from 2 to 1 (include/probe.hpp:136-141), as `Scenarios.MoveAssignBetweenTwo` shows.

## Findings

| source | as written | input that shows it | evidently intended | confidence | as-written member | corrected member |
|---|---|---|---|---|---|---|
| include/probe.hpp:136-141 | `activeBefore = m_active + o.m_active` and `activeAfter` read the flag through both `*this` and `o`, so when `o` is `*this` the single flag is counted twice | an active probe `p` and `p = std::move(p)`: `activeBefore` is 2, `activeAfter` is 0, and `s_state.active` drops by 2 although only `p` stops being active; if `p` was the only probe, `state()` is then (-1, 1), and after `p` is destroyed (-1, 0), with `clean()` false | the count drops by the change in active objects, each object counted once (here by 1), which the copy assignment already achieves for all inputs | high (not executed) | `Probes.Probe.MoveAssignAsWritten`, `Probes.SelfMoveAssignMiscounts`, `Scenarios.SelfMoveAssignAsWritten`, `Probes.SelfMoveThenDestroyAsWritten` | `Probes.Probe.MoveAssign`, `Probes.MoveAssignDeltaExact` |
