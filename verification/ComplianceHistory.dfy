/** Monthly compliance history computed from a truncated inspection window. */
module ComplianceHistory {
  import opened Prelude

  // ---- Calendar ----

  /** Whole days in a number of milliseconds, the milliseconds left over, and back. */
  function DaysIn(ms: int): int { ms / 86_400_000 }

  function TimeOfDay(ms: int): int { ms % 86_400_000 }

  function OfDays(days: int): int { days * 86_400_000 }

  /** Months by number: when each starts, and the month a time lies in. */
  datatype Calendar = Calendar(start: int -> int, month: int -> int)

  function Days(cal: Calendar, m: int): int { DaysIn(cal.start(m + 1) - cal.start(m)) }

  /** A month is a positive whole number of days long. */
  predicate WholeDays(cal: Calendar, m: int) {
    cal.start(m) < cal.start(m + 1) && TimeOfDay(cal.start(m + 1) - cal.start(m)) == 0
  }

  predicate LiesIn(cal: Calendar, t: int, m: int) { cal.start(m) <= t < cal.start(m + 1) }

  ghost predicate IsCalendar(cal: Calendar) {
    (forall m :: WholeDays(cal, m)) && (forall t :: LiesIn(cal, t, cal.month(t)))
  }

  function StartOfMonth(cal: Calendar, t: int): int { cal.start(cal.month(t)) }

  /** The last millisecond of the month. */
  function EndOfMonth(cal: Calendar, t: int): int { cal.start(cal.month(t) + 1) - 1 }

  /** Same day and time of day in an earlier month, or its last day if it has no such day. */
  function SubMonths(cal: Calendar, t: int, k: int): int {
    var into := t - StartOfMonth(cal, t);
    var m := cal.month(t) - k;
    var day := if DaysIn(into) < Days(cal, m) then DaysIn(into) else Days(cal, m) - 1;
    cal.start(m) + OfDays(day) + TimeOfDay(into)
  }

  lemma {:induction false} StartsIncrease(cal: Calendar, m: int, n: int)
    requires IsCalendar(cal) && m <= n
    ensures cal.start(m) <= cal.start(n) && (m < n ==> cal.start(m) < cal.start(n))
    decreases n - m
  {
    if m < n {
      assert WholeDays(cal, m);
      StartsIncrease(cal, m + 1, n);
    }
  }

  lemma MonthIsUnique(cal: Calendar, t: int, m: int)
    requires IsCalendar(cal) && LiesIn(cal, t, m)
    ensures cal.month(t) == m
  {
    assert LiesIn(cal, t, cal.month(t));
    if cal.month(t) < m {
      StartsIncrease(cal, cal.month(t) + 1, m);
    } else if m < cal.month(t) {
      StartsIncrease(cal, m + 1, cal.month(t));
    }
  }

  /** Clamping the day keeps the result inside the month counted back to. */
  lemma SubMonthsLandsInMonth(cal: Calendar, t: int, k: int)
    requires IsCalendar(cal)
    ensures cal.month(SubMonths(cal, t, k)) == cal.month(t) - k
  {
    var m := cal.month(t) - k;
    var into := t - StartOfMonth(cal, t);
    var day := if DaysIn(into) < Days(cal, m) then DaysIn(into) else Days(cal, m) - 1;
    assert WholeDays(cal, m) && LiesIn(cal, t, cal.month(t));
    assert cal.start(m + 1) - cal.start(m) == OfDays(Days(cal, m));
    assert 0 <= day <= Days(cal, m) - 1;
    MonthIsUnique(cal, SubMonths(cal, t, k), m);
  }

  // ---- Windows and report dates ----

  function Cutoff(cal: Calendar, now: int, months: int): int {
    if months == 1 then now else StartOfMonth(cal, SubMonths(cal, now, months))
  }

  function PreviousMonthEnd(cal: Calendar): int -> int { (t: int) => EndOfMonth(cal, SubMonths(cal, t, 1)) }

  /** `k` steps back from a date. */
  function StepBack(back: int -> int, now: int, k: nat): int {
    if k == 0 then now else back(StepBack(back, now, k - 1))
  }

  /** The date of the k-th record, the newest first. */
  function ReportDate(cal: Calendar, now: int, k: nat): int { StepBack(PreviousMonthEnd(cal), now, k) }

  lemma {:induction false} ReportMonth(cal: Calendar, now: int, k: nat)
    requires IsCalendar(cal)
    ensures cal.month(ReportDate(cal, now, k)) == cal.month(now) - k
    ensures ReportDate(cal, now, k) == if k == 0 then now else cal.start(cal.month(now) - k + 1) - 1
  {
    if k > 0 {
      ReportMonth(cal, now, k - 1);
      SubMonthsLandsInMonth(cal, ReportDate(cal, now, k - 1), 1);
      var m := cal.month(now) - k;
      assert WholeDays(cal, m);
      MonthIsUnique(cal, cal.start(m + 1) - 1, m);
    }
  }

  /** The cutoff for several months is the start of the month so many back. */
  lemma CutoffIs(cal: Calendar, now: int, months: int)
    requires IsCalendar(cal)
    ensures Cutoff(cal, now, months) == if months == 1 then now else cal.start(cal.month(now) - months)
  {
    SubMonthsLandsInMonth(cal, now, months);
  }

  lemma MonthsAreMonotone(cal: Calendar, s: int, t: int)
    requires IsCalendar(cal) && s <= t
    ensures cal.month(s) <= cal.month(t)
  {
    assert LiesIn(cal, s, cal.month(s)) && LiesIn(cal, t, cal.month(t));
    if cal.month(t) < cal.month(s) {
      StartsIncrease(cal, cal.month(t) + 1, cal.month(s));
    }
  }

  /** With more than one month, every reported date lies after the cutoff, even if the two clock readings differ. */
  lemma ReportDatesAfterCutoff(cal: Calendar, now: int, later: int, months: int, k: nat)
    requires IsCalendar(cal) && now <= later && 1 < months && k < months
    ensures ReportDate(cal, later, k) > Cutoff(cal, now, months)
  {
    SubMonthsLandsInMonth(cal, now, months);
    ReportMonth(cal, later, k);
    MonthsAreMonotone(cal, now, later);
    var d := ReportDate(cal, later, k);
    StartsIncrease(cal, cal.month(now) - months, cal.month(d));
    assert LiesIn(cal, d, cal.month(d));
  }

  /** Every reported date after the first is a month end, one month before its predecessor. */
  lemma ReportDatesAreMonthEnds(cal: Calendar, now: int, k: nat)
    requires IsCalendar(cal) && k > 0
    ensures ReportDate(cal, now, k) == EndOfMonth(cal, ReportDate(cal, now, k)) < ReportDate(cal, now, k - 1)
    ensures cal.month(ReportDate(cal, now, k)) == cal.month(ReportDate(cal, now, k - 1)) - 1
  {
    ReportMonth(cal, now, k);
    ReportMonth(cal, now, k - 1);
    var d := ReportDate(cal, now, k - 1);
    assert LiesIn(cal, d, cal.month(d));
  }

  // ---- Inspections ----

  datatype Inspection = Inspection(id: string, createdOn: int)

  ghost predicate UniqueIds(h: set<Inspection>) { forall x, y :: x in h && y in h && x.id == y.id ==> x == y }

  function Times(h: set<Inspection>): set<int> { set x | x in h :: x.createdOn }

  /** `t` is the greatest of the times below `d`. */
  predicate IsLatest(times: set<int>, d: int, t: int) {
    t in times && t < d && forall u :: u in times && u < d ==> u <= t
  }

  lemma {:induction false} LatestExists(times: set<int>, d: int)
    ensures (exists t :: IsLatest(times, d, t)) || forall t :: t in times ==> t >= d
  {
    if y :| y in times && y < d {
      LatestExists(times - {y}, d);
      assert forall u :: u in times ==> u == y || u in times - {y};
      if t :| IsLatest(times - {y}, d, t) {
        assert IsLatest(times, d, if t < y then y else t);
      } else {
        assert IsLatest(times, d, y);
      }
    }
  }

  /** Time of the last inspection before `d` in a full history. */
  ghost function LatestTime(h: set<Inspection>, d: int): (r: Option<int>)
    ensures r.None? <==> forall t :: t in Times(h) ==> t >= d
    ensures r.Some? ==> IsLatest(Times(h), d, r.value)
  {
    LatestExists(Times(h), d);
    if t :| IsLatest(Times(h), d, t) then Some(t) else None
  }

  predicate Descending(s: seq<Inspection>) {
    forall i, j :: 0 <= i < j < |s| ==> s[i].createdOn >= s[j].createdOn
  }

  /** The newest inspection up to the cutoff, if any; which of several equally new ones is open. */
  ghost predicate IsLatestQuery(rs: seq<Inspection>, h: set<Inspection>, cutoff: int) {
    && |rs| <= 1
    && (rs == [] ==> forall x :: x in h ==> x.createdOn > cutoff)
    && (rs != [] ==> rs[0] in h && rs[0].createdOn <= cutoff)
    && (rs != [] ==> forall x :: x in h && x.createdOn <= cutoff ==> x.createdOn <= rs[0].createdOn)
  }

  /** All inspections from the cutoff on, newest first. */
  ghost predicate IsSinceQuery(rs: seq<Inspection>, h: set<Inspection>, cutoff: int) {
    Descending(rs) && forall x :: x in rs <==> x in h && x.createdOn >= cutoff
  }

  function MergeInspections(latest: seq<Inspection>, since: seq<Inspection>): seq<Inspection> {
    if latest == [] then Filter(since, (i: Inspection) => true)
    else Filter(since, (i: Inspection) => i.id != latest[0].id) + [latest[0]]
  }

  /** First inspection of a list before `d`. */
  function FirstBefore(s: seq<Inspection>, d: int): Option<int> {
    var before := Filter(s, (i: Inspection) => i.createdOn < d);
    if before == [] then None else Some(before[0].createdOn)
  }

  lemma FilterDescends(s: seq<Inspection>, p: Inspection -> bool)
    requires Descending(s)
    ensures Descending(Filter(s, p))
  {
    FilterPairwise(s, p, (a: Inspection, b: Inspection) => a.createdOn >= b.createdOn);
  }

  function Elements(s: seq<Inspection>): set<Inspection> { set x | x in s }

  /** On a list sorted newest first, the first earlier inspection is the latest earlier one. */
  lemma FirstBeforeIsLatest(s: seq<Inspection>, d: int)
    requires Descending(s)
    ensures FirstBefore(s, d) == LatestTime(Elements(s), d)
  {
    var p := (i: Inspection) => i.createdOn < d;
    FilterDescends(s, p);
    var before := Filter(s, p);
    forall x | x in s && x.createdOn < d ensures before != [] && x.createdOn <= before[0].createdOn {
      assert x in before;
    }
    if before != [] {
      assert before[0] in before;
      assert before[0] in Elements(s);
      assert IsLatest(Times(Elements(s)), d, before[0].createdOn);
    }
  }

  lemma MergedDescends(h: set<Inspection>, cutoff: int, latest: seq<Inspection>, since: seq<Inspection>)
    requires IsLatestQuery(latest, h, cutoff) && IsSinceQuery(since, h, cutoff)
    ensures Descending(MergeInspections(latest, since))
  {
    if latest == [] {
      FilterDescends(since, (i: Inspection) => true);
    } else {
      var p := (i: Inspection) => i.id != latest[0].id;
      FilterDescends(since, p);
      var front := Filter(since, p);
      forall i | 0 <= i < |front| ensures front[i].createdOn >= latest[0].createdOn {
        assert front[i] in front;
      }
    }
  }

  /** The merged list is the whole history from the cutoff on, and the latest inspection before it. */
  lemma MergedContents(h: set<Inspection>, cutoff: int, latest: seq<Inspection>, since: seq<Inspection>, x: Inspection)
    requires UniqueIds(h) && IsLatestQuery(latest, h, cutoff) && IsSinceQuery(since, h, cutoff)
    ensures x in MergeInspections(latest, since) <==> (x in h && x.createdOn >= cutoff) || x in latest
  {
  }

  /** Part of a history tells the same last time as the whole if it holds an inspection of that time. */
  lemma SameLatestTime(g: set<Inspection>, h: set<Inspection>, d: int)
    requires g <= h && (LatestTime(h, d).Some? ==> LatestTime(h, d).value in Times(g))
    ensures LatestTime(g, d) == LatestTime(h, d)
  {
    assert Times(g) <= Times(h);
    if LatestTime(h, d).Some? {
      assert IsLatest(Times(g), d, LatestTime(h, d).value);
    }
  }

  lemma MergedHasLatest(
    h: set<Inspection>, cutoff: int, latest: seq<Inspection>, since: seq<Inspection>, d: int, t: int)
    requires UniqueIds(h) && IsLatestQuery(latest, h, cutoff) && IsSinceQuery(since, h, cutoff)
    requires d > cutoff && IsLatest(Times(h), d, t)
    ensures t in Times(Elements(MergeInspections(latest, since)))
  {
    var x :| x in h && x.createdOn == t;
    if x.createdOn >= cutoff {
      MergedContents(h, cutoff, latest, since, x);
      assert x in Elements(MergeInspections(latest, since));
    } else {
      MergedContents(h, cutoff, latest, since, latest[0]);
      assert latest[0] in Elements(MergeInspections(latest, since)) && latest[0].createdOn in Times(h);
    }
  }

  /** For dates after the cutoff the merged list tells the same last inspection time as the full history. */
  lemma MergedTellsLatestTime(h: set<Inspection>, cutoff: int, latest: seq<Inspection>, since: seq<Inspection>, d: int)
    requires UniqueIds(h) && IsLatestQuery(latest, h, cutoff) && IsSinceQuery(since, h, cutoff)
    requires d > cutoff
    ensures FirstBefore(MergeInspections(latest, since), d) == LatestTime(h, d)
  {
    var merged := MergeInspections(latest, since);
    MergedDescends(h, cutoff, latest, since);
    FirstBeforeIsLatest(merged, d);
    forall x | x in Elements(merged) ensures x in h {
      MergedContents(h, cutoff, latest, since, x);
    }
    if LatestTime(h, d).Some? {
      MergedHasLatest(h, cutoff, latest, since, d, LatestTime(h, d).value);
    }
    SameLatestTime(Elements(merged), h, d);
  }

  /**
   With the latest inspection alone the time is that of the full history exactly when nothing was
   inspected between the cutoff and the date, and an inspection at the very date hides none before it.
   */
  lemma LatestAloneTellsLatestTimeIff(h: set<Inspection>, cutoff: int, latest: seq<Inspection>, d: int)
    requires IsLatestQuery(latest, h, cutoff) && cutoff <= d
    ensures FirstBefore(MergeInspections(latest, []), d) == LatestTime(h, d) <==>
      && (forall x :: x in h ==> !(cutoff < x.createdOn < d))
      && (forall x, y :: x in h && y in h && x.createdOn < d ==> y.createdOn != cutoff || cutoff < d)
  {
    var merged := MergeInspections(latest, []);
    assert merged == latest;
    FirstBeforeIsLatest(latest, d);
    var g := Elements(latest);
    if x :| x in h && cutoff < x.createdOn < d {
      assert x.createdOn in Times(h);
      assert forall t :: t in Times(g) ==> t <= cutoff;
    } else if cutoff == d && latest != [] && latest[0].createdOn == d {
      assert latest[0] in h && LatestTime(g, d).None?;
      assert forall x :: x in h ==> x.createdOn in Times(h);
    } else {
      if LatestTime(h, d).Some? {
        assert latest[0] in g && latest[0].createdOn in Times(h);
      }
      SameLatestTime(g, h, d);
    }
  }

  /** A failing input: an inspection made after the cutoff is missed. */
  lemma LaterInspectionIsMissed(a: Inspection, b: Inspection, d: int)
    requires a.createdOn < b.createdOn < d
    ensures IsLatestQuery([a], {a, b}, a.createdOn)
    ensures FirstBefore(MergeInspections([a], []), d) != LatestTime({a, b}, d)
  {
    assert b in {a, b};
    LatestAloneTellsLatestTimeIff({a, b}, a.createdOn, [a], d);
  }

  /** Another: an inspection at the very date hides the one before it. */
  lemma InspectionAtTheDateHides(a: Inspection, b: Inspection)
    requires a.createdOn < b.createdOn
    ensures IsLatestQuery([b], {a, b}, b.createdOn)
    ensures FirstBefore(MergeInspections([b], []), b.createdOn) != LatestTime({a, b}, b.createdOn)
  {
    assert a in {a, b} && b in {a, b};
    LatestAloneTellsLatestTimeIff({a, b}, b.createdOn, [b], b.createdOn);
  }

  // ---- Classification ----

  datatype Status = CompliantDueLater | CompliantDueSoon | NonCompliantInspected | NonCompliantNeverInspected

  function DueSoonThreshold(cycle: int): int { if cycle - 7 < cycle / 2 then cycle / 2 else cycle - 7 }

  function Classify(last: Option<int>, d: int, cycle: int): Status {
    if last.None? then NonCompliantNeverInspected
    else
      var days := DaysIn(d - last.value);
      if days < DueSoonThreshold(cycle) then CompliantDueLater
      else if days < cycle then CompliantDueSoon
      else NonCompliantInspected
  }

  /**
   An asset is compliant exactly until a full cycle has passed since its last inspection, and due later
   exactly until the later of a week before that and half the cycle.
   */
  lemma CompliantIff(last: Option<int>, d: int, cycle: int)
    requires last.Some? ==> last.value < d
    ensures Classify(last, d, cycle) in {CompliantDueLater, CompliantDueSoon}
      <==> last.Some? && d < last.value + OfDays(cycle)
    ensures Classify(last, d, cycle) == CompliantDueLater
      <==> last.Some? && (d < last.value + OfDays(cycle - 7) || d < last.value + OfDays(cycle / 2))
  {
  }

  // ---- Rows and merging by asset ----

  datatype AssetRow = AssetRow(id: string, createdOn: int, inspectionCycle: Option<int>, inspections: seq<Inspection>)

  predicate DistinctAssets(rows: seq<AssetRow>) {
    forall i, j :: 0 <= i < j < |rows| ==> rows[i].id != rows[j].id
  }

  /** Later rows replace earlier ones of the same asset. */
  function ByAsset(rows: seq<AssetRow>): map<string, seq<Inspection>> {
    if rows == [] then map[]
    else
      var last := rows[|rows| - 1];
      ByAsset(rows[..|rows| - 1])[last.id := last.inspections]
  }

  lemma {:induction false} ByAssetFinds(rows: seq<AssetRow>, i: nat)
    requires DistinctAssets(rows) && i < |rows|
    ensures rows[i].id in ByAsset(rows) && ByAsset(rows)[rows[i].id] == rows[i].inspections
  {
    var n := |rows| - 1;
    if i < n {
      ByAssetFinds(rows[..n], i);
    }
  }

  function MergeRow(row: AssetRow, since: map<string, seq<Inspection>>): (r: AssetRow)
    ensures r.id == row.id && r.createdOn == row.createdOn && r.inspectionCycle == row.inspectionCycle
  {
    row.(inspections := MergeInspections(row.inspections, if row.id in since then since[row.id] else []))
  }

  function MergeRows(latest: seq<AssetRow>, since: map<string, seq<Inspection>>): (r: seq<AssetRow>)
    ensures |r| == |latest| && forall i :: 0 <= i < |r| ==> r[i] == MergeRow(latest[i], since)
  {
    seq(|latest|, i requires 0 <= i < |latest| => MergeRow(latest[i], since))
  }

  /** The inspections of each asset. */
  type Histories = map<string, set<Inspection>>

  ghost predicate IsLatestResult(rows: seq<AssetRow>, all: Histories, cutoff: int) {
    && DistinctAssets(rows)
    && forall i :: 0 <= i < |rows| ==>
      && rows[i].id in all && UniqueIds(all[rows[i].id])
      && IsLatestQuery(rows[i].inspections, all[rows[i].id], cutoff)
  }

  /** The second query finds the same assets, in an order of its own. */
  ghost predicate IsSinceResult(rows: seq<AssetRow>, latest: seq<AssetRow>, all: Histories, cutoff: int) {
    && DistinctAssets(rows)
    && (forall i :: 0 <= i < |rows| ==>
      rows[i].id in all && IsSinceQuery(rows[i].inspections, all[rows[i].id], cutoff))
    && forall i :: 0 <= i < |latest| ==> HasAsset(rows, latest[i].id)
  }

  predicate HasAsset(rows: seq<AssetRow>, id: string) { exists j :: 0 <= j < |rows| && rows[j].id == id }

  // ---- Records ----

  datatype StatsRecord = StatsRecord(
    endDate: int,
    dueLater: seq<AssetRow>,
    dueSoon: seq<AssetRow>,
    inspected: seq<AssetRow>,
    neverInspected: seq<AssetRow>,
    totalAssets: nat,
    totalCompliant: nat,
    totalNonCompliant: nat)

  function Bucket(r: StatsRecord, s: Status): seq<AssetRow> {
    match s
    case CompliantDueLater => r.dueLater
    case CompliantDueSoon => r.dueSoon
    case NonCompliantInspected => r.inspected
    case NonCompliantNeverInspected => r.neverInspected
  }

  function CycleOf(row: AssetRow, fallback: int): int {
    if row.inspectionCycle.Some? then row.inspectionCycle.value else fallback
  }

  /** Status of an asset by its merged inspections, once it exists. */
  function MergedStatus(d: int, fallback: int): AssetRow -> Option<Status> {
    (row: AssetRow) =>
      if row.createdOn > d then None
      else Some(Classify(FirstBefore(row.inspections, d), d, CycleOf(row, fallback)))
  }

  /** Status of an asset by its full history. */
  ghost function TrueStatus(all: Histories, d: int, fallback: int): AssetRow -> Option<Status> {
    (row: AssetRow) =>
      if row.createdOn > d || row.id !in all then None
      else Some(Classify(LatestTime(all[row.id], d), d, CycleOf(row, fallback)))
  }

  /** A record with one more asset of the given status; None for one that does not exist yet. */
  function Counting(r: StatsRecord, asset: AssetRow, st: Option<Status>): StatsRecord {
    match st
    case None => r
    case Some(CompliantDueLater) =>
      r.(dueLater := r.dueLater + [asset], totalAssets := r.totalAssets + 1, totalCompliant := r.totalCompliant + 1)
    case Some(CompliantDueSoon) =>
      r.(dueSoon := r.dueSoon + [asset], totalAssets := r.totalAssets + 1, totalCompliant := r.totalCompliant + 1)
    case Some(NonCompliantInspected) =>
      r.(inspected := r.inspected + [asset], totalAssets := r.totalAssets + 1,
         totalNonCompliant := r.totalNonCompliant + 1)
    case Some(NonCompliantNeverInspected) =>
      r.(neverInspected := r.neverInspected + [asset], totalAssets := r.totalAssets + 1,
         totalNonCompliant := r.totalNonCompliant + 1)
  }

  /** The record of one date when assets have the given status. */
  function RecordBy(rows: seq<AssetRow>, d: int, status: AssetRow -> Option<Status>): StatsRecord {
    if rows == [] then StatsRecord(d, [], [], [], [], 0, 0, 0)
    else
      var n := |rows| - 1;
      Counting(RecordBy(rows[..n], d, status), rows[n], status(rows[n]))
  }

  function Having(status: AssetRow -> Option<Status>, s: Status): AssetRow -> bool {
    (row: AssetRow) => status(row) == Some(s)
  }

  lemma BucketCounting(r: StatsRecord, asset: AssetRow, st: Option<Status>, s: Status)
    ensures Bucket(Counting(r, asset, st), s) == Bucket(r, s) + if st == Some(s) then [asset] else []
  {
  }

  /** A bucket is the selection of the assets with its status. */
  lemma {:induction false} BucketSelects(rows: seq<AssetRow>, d: int, status: AssetRow -> Option<Status>, s: Status)
    ensures Bucket(RecordBy(rows, d, status), s) == Filter(rows, Having(status, s))
  {
    if rows != [] {
      var n := |rows| - 1;
      BucketSelects(rows[..n], d, status, s);
      BucketCounting(RecordBy(rows[..n], d, status), rows[n], status(rows[n]), s);
      FilterSnoc(rows[..n], rows[n], Having(status, s));
      assert rows == rows[..n] + [rows[n]];
    }
  }

  /** The totals are those of the four buckets, and count every asset that has a status. */
  lemma {:induction false} TotalsAgree(rows: seq<AssetRow>, d: int, status: AssetRow -> Option<Status>)
    ensures var r := RecordBy(rows, d, status);
      && r.endDate == d
      && r.totalCompliant == |r.dueLater| + |r.dueSoon|
      && r.totalNonCompliant == |r.inspected| + |r.neverInspected|
      && r.totalAssets == r.totalCompliant + r.totalNonCompliant
  {
    if rows != [] {
      TotalsAgree(rows[..|rows| - 1], d, status);
    }
  }

  lemma {:induction false} SameStatusSameRecord(
    rows: seq<AssetRow>, d: int, p: AssetRow -> Option<Status>, q: AssetRow -> Option<Status>)
    requires forall i :: 0 <= i < |rows| ==> p(rows[i]) == q(rows[i])
    ensures RecordBy(rows, d, p) == RecordBy(rows, d, q)
  {
    if rows != [] {
      SameStatusSameRecord(rows[..|rows| - 1], d, p, q);
    }
  }

  /** The loop over the assets, for one date. */
  method ClassifyAssets(rows: seq<AssetRow>, d: int, fallback: int) returns (r: StatsRecord)
    ensures r == RecordBy(rows, d, MergedStatus(d, fallback))
  {
    r := StatsRecord(d, [], [], [], [], 0, 0, 0);
    for i := 0 to |rows|
      invariant r == RecordBy(rows[..i], d, MergedStatus(d, fallback))
    {
      var asset := rows[i];
      assert rows[..i + 1][..i] == rows[..i];
      if asset.createdOn > d {
        continue;
      }
      r := r.(totalAssets := r.totalAssets + 1);
      var last := FirstBefore(asset.inspections, d);
      if last.None? {
        r := r.(neverInspected := r.neverInspected + [asset], totalNonCompliant := r.totalNonCompliant + 1);
        continue;
      }
      var daysSinceInspection := DaysIn(d - last.value);
      var inspectionCycle := CycleOf(asset, fallback);
      if daysSinceInspection < DueSoonThreshold(inspectionCycle) {
        r := r.(dueLater := r.dueLater + [asset], totalCompliant := r.totalCompliant + 1);
      } else if daysSinceInspection < inspectionCycle {
        r := r.(dueSoon := r.dueSoon + [asset], totalCompliant := r.totalCompliant + 1);
      } else {
        r := r.(inspected := r.inspected + [asset], totalNonCompliant := r.totalNonCompliant + 1);
      }
    }
    assert rows[..|rows|] == rows;
  }

  /** After the cutoff a merged row has the status its full history gives. */
  lemma MergedStatusIsTrue(
    latest: seq<AssetRow>, since: seq<AssetRow>, all: Histories, cutoff: int, d: int, fallback: int, i: nat)
    requires IsLatestResult(latest, all, cutoff) && IsSinceResult(since, latest, all, cutoff)
    requires cutoff < d && i < |latest|
    ensures var row := MergeRow(latest[i], ByAsset(since));
      MergedStatus(d, fallback)(row) == TrueStatus(all, d, fallback)(row)
  {
    var id := latest[i].id;
    assert HasAsset(since, id);
    var j :| 0 <= j < |since| && since[j].id == id;
    ByAssetFinds(since, j);
    MergedTellsLatestTime(all[id], cutoff, latest[i].inspections, since[j].inspections, d);
  }

  /** After the cutoff the record made from the truncated windows is the one made from the full histories. */
  lemma MergedRecordIsTrue(
    latest: seq<AssetRow>, since: seq<AssetRow>, all: Histories, cutoff: int, d: int, fallback: int)
    requires IsLatestResult(latest, all, cutoff) && IsSinceResult(since, latest, all, cutoff) && cutoff < d
    ensures var rows := MergeRows(latest, ByAsset(since));
      RecordBy(rows, d, MergedStatus(d, fallback)) == RecordBy(rows, d, TrueStatus(all, d, fallback))
  {
    var rows := MergeRows(latest, ByAsset(since));
    forall i | 0 <= i < |rows| ensures MergedStatus(d, fallback)(rows[i]) == TrueStatus(all, d, fallback)(rows[i]) {
      MergedStatusIsTrue(latest, since, all, cutoff, d, fallback, i);
    }
    SameStatusSameRecord(rows, d, MergedStatus(d, fallback), TrueStatus(all, d, fallback));
  }

  /** Every asset that exists by the date is in the bucket its full history puts it in, and in no other. */
  lemma BucketsPartition(rows: seq<AssetRow>, all: Histories, d: int, fallback: int, row: AssetRow, s: Status)
    requires row in rows && row.id in all
    ensures row in Bucket(RecordBy(rows, d, TrueStatus(all, d, fallback)), s) <==>
      row.createdOn <= d && s == Classify(LatestTime(all[row.id], d), d, CycleOf(row, fallback))
  {
    BucketSelects(rows, d, TrueStatus(all, d, fallback), s);
  }

  /**
   Where a row stands in a record, in times: for an asset that exists by the date, with its last inspection before
   the date and its cycle in days.
   */
  ghost predicate Placed(r: StatsRecord, row: AssetRow, createdOn: int, last: Option<int>, cycle: int) {
    var d := r.endDate;
    && (row in r.dueLater || row in r.dueSoon <==> createdOn <= d && last.Some? && d < last.value + OfDays(cycle))
    && (row in r.dueLater <==>
          createdOn <= d && last.Some? && (d < last.value + OfDays(cycle - 7) || d < last.value + OfDays(cycle / 2)))
    && (row in r.dueSoon ==> row !in r.dueLater)
    && (row in r.inspected <==> createdOn <= d && last.Some? && d >= last.value + OfDays(cycle))
    && (row in r.neverInspected <==> createdOn <= d && last.None?)
  }

  lemma PlacedByStatus(
    rows: seq<AssetRow>, d: int, status: AssetRow -> Option<Status>, row: AssetRow, last: Option<int>, cycle: int)
    requires row in rows && (last.Some? ==> last.value < d)
    requires status(row) == if row.createdOn > d then None else Some(Classify(last, d, cycle))
    ensures Placed(RecordBy(rows, d, status), row, row.createdOn, last, cycle)
  {
    TotalsAgree(rows, d, status);
    forall s ensures row in Bucket(RecordBy(rows, d, status), s) <==> status(row) == Some(s) {
      BucketSelects(rows, d, status, s);
    }
    var r := RecordBy(rows, d, status);
    assert Bucket(r, CompliantDueLater) == r.dueLater && Bucket(r, CompliantDueSoon) == r.dueSoon;
    assert Bucket(r, NonCompliantInspected) == r.inspected;
    assert Bucket(r, NonCompliantNeverInspected) == r.neverInspected;
    CompliantIff(last, d, cycle);
  }

  /** The asset's own cycle if it has one, else the client's default, else thirty days. */
  function DaysOfCycle(own: Option<int>, default_: Option<int>): int {
    match (own, default_)
    case (Some(c), _) => c
    case (None, Some(c)) => c
    case (None, None) => 30
  }

  /**
   The row of an asset stands where its last inspection puts it: the last in the full history for several months,
   else the one the single query found, if it is before the date.
   */
  ghost predicate RowPlaced(
    r: StatsRecord, row: AssetRow, since: map<string, seq<Inspection>>, all: Histories, months: int,
    default_: Option<int>)
  {
    && row.id in all
    && var last := if months > 1 then LatestTime(all[row.id], r.endDate) else FirstBefore(row.inspections, r.endDate);
       Placed(r, MergeRow(row, since), row.createdOn, last, DaysOfCycle(row.inspectionCycle, default_))
  }

  lemma FirstBeforeIsBefore(s: seq<Inspection>, d: int)
    ensures FirstBefore(s, d).Some? ==> FirstBefore(s, d).value < d
  {
    var before := Filter(s, (i: Inspection) => i.createdOn < d);
    if before != [] {
      assert before[0] in before;
    }
  }

  lemma RecordPlacesRow(
    r: StatsRecord, latest: seq<AssetRow>, since: map<string, seq<Inspection>>, all: Histories, d: int, months: int,
    default_: Option<int>, i: nat)
    requires i < |latest| && latest[i].id in all && |latest[i].inspections| <= 1 && (months <= 1 ==> since == map[])
    requires var fallback := if default_.Some? then default_.value else 30;
      r == RecordBy(MergeRows(latest, since), d,
                    if months > 1 then TrueStatus(all, d, fallback) else MergedStatus(d, fallback))
    ensures RowPlaced(r, latest[i], since, all, months, default_)
  {
    var fallback := if default_.Some? then default_.value else 30;
    var status := if months > 1 then TrueStatus(all, d, fallback) else MergedStatus(d, fallback);
    var rows := MergeRows(latest, since);
    assert rows[i] in rows;
    TotalsAgree(rows, d, status);
    FirstBeforeIsBefore(latest[i].inspections, d);
    assert months <= 1 ==> rows[i].inspections == latest[i].inspections;
    var last := if months > 1 then LatestTime(all[latest[i].id], d) else FirstBefore(latest[i].inspections, d);
    PlacedByStatus(rows, d, status, rows[i], last, DaysOfCycle(latest[i].inspectionCycle, default_));
  }

  /** The loop over the months. */
  method BuildHistory(back: int -> int, now: int, months: int, fallback: int, merged: seq<AssetRow>)
    returns (history: seq<StatsRecord>)
    ensures |history| == if months < 0 then 0 else months
    ensures forall k {:trigger history[k]} :: 0 <= k < |history| ==>
      var d := StepBack(back, now, k);
      history[k] == RecordBy(merged, d, MergedStatus(d, fallback))
  {
    history := [];
    var currentHistoricDate := now;
    var monthsProcessed := 0;
    while monthsProcessed < months
      invariant monthsProcessed == |history| && (|history| <= months || |history| == 0)
      invariant currentHistoricDate == StepBack(back, now, |history|)
      invariant forall k {:trigger history[k]} :: 0 <= k < |history| ==>
        var d := StepBack(back, now, k);
        history[k] == RecordBy(merged, d, MergedStatus(d, fallback))
    {
      var record := ClassifyAssets(merged, currentHistoricDate, fallback);
      history := history + [record];
      currentHistoricDate := back(currentHistoricDate);
      monthsProcessed := monthsProcessed + 1;
    }
  }

  /**
   The whole report. `now` is the clock when the cutoff is computed and `later` when the loop starts;
   `latest` and `since` are the rows of the two queries, the second made only for several months.
   */
  method GetComplianceHistoryByMonth(
    cal: Calendar, now: int, later: int, months: int, defaultInspectionCycle: Option<int>,
    latest: seq<AssetRow>, since: seq<AssetRow>, ghost all: Histories)
    returns (history: seq<StatsRecord>)
    requires IsCalendar(cal) && now <= later
    requires IsLatestResult(latest, all, Cutoff(cal, now, months))
    requires months > 1 ==> IsSinceResult(since, latest, all, Cutoff(cal, now, months))
    requires months <= 1 ==> since == []
    ensures |history| == if months < 0 then 0 else months
    ensures var merged := MergeRows(latest, ByAsset(since));
      var fallback := if defaultInspectionCycle.Some? then defaultInspectionCycle.value else 30;
      forall k {:trigger history[k]} :: 0 <= k < |history| ==>
        var d := ReportDate(cal, later, k);
        var status := if months > 1 then TrueStatus(all, d, fallback) else MergedStatus(d, fallback);
        history[k] == RecordBy(merged, d, status)
    ensures forall k, i {:trigger history[k], latest[i]} :: 0 <= k < |history| && 0 <= i < |latest| ==>
      RowPlaced(history[k], latest[i], ByAsset(since), all, months, defaultInspectionCycle)
  {
    var fallback := if defaultInspectionCycle.Some? then defaultInspectionCycle.value else 30;
    var merged := MergeRows(latest, ByAsset(since));
    history := BuildHistory(PreviousMonthEnd(cal), later, months, fallback, merged);
    if months > 1 {
      forall k | 0 <= k < |history|
        ensures var d := ReportDate(cal, later, k); history[k] == RecordBy(merged, d, TrueStatus(all, d, fallback))
      {
        var d := ReportDate(cal, later, k);
        ReportDatesAfterCutoff(cal, now, later, months, k);
        MergedRecordIsTrue(latest, since, all, Cutoff(cal, now, months), d, fallback);
      }
    }
    forall k, i | 0 <= k < |history| && 0 <= i < |latest|
      ensures RowPlaced(history[k], latest[i], ByAsset(since), all, months, defaultInspectionCycle)
    {
      RecordPlacesRow(history[k], latest, ByAsset(since), all, ReportDate(cal, later, k), months,
                      defaultInspectionCycle, i);
    }
  }
}
