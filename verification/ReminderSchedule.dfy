/** Inspection reminders: which group an asset's reminder falls in, day by day. */
module ReminderSchedule {
  import opened Prelude

  datatype GroupId = InspectionReminder | DueSoonLevel1 | DueSoonLevel2 | DueSoonLevel3 | DueSoonLevel4

  /** Threshold in percent of the inspection cycle and in days; the lesser of the two counts. */
  datatype Group = Group(id: GroupId, pctThreshold: nat, daysThreshold: nat)

  /** The reminder groups in table order. */
  const GROUPS: seq<Group> := [
    Group(InspectionReminder, 85, 25), Group(DueSoonLevel1, 50, 14), Group(DueSoonLevel2, 35, 10),
    Group(DueSoonLevel3, 25, 7), Group(DueSoonLevel4, 15, 3)]

  /** The same groups by ascending percentage, most urgent first. */
  const THRESHOLD_ASC: seq<Group> := [GROUPS[4], GROUPS[3], GROUPS[2], GROUPS[1], GROUPS[0]]

  function Urgency(g: GroupId): (r: nat)
    ensures r < |GROUPS| && GROUPS[r].id == g
  {
    match g
    case InspectionReminder => 0
    case DueSoonLevel1 => 1
    case DueSoonLevel2 => 2
    case DueSoonLevel3 => 3
    case DueSoonLevel4 => 4
  }

  lemma AscIsSorted()
    ensures |THRESHOLD_ASC| == |GROUPS| && forall i :: 0 <= i < |GROUPS| ==> THRESHOLD_ASC[i] == GROUPS[4 - i]
    ensures forall i, j :: 0 <= i < j < |THRESHOLD_ASC| ==>
      THRESHOLD_ASC[i].pctThreshold < THRESHOLD_ASC[j].pctThreshold
  {
  }

  function LeastPct(groups: seq<Group>): nat
    requires groups != []
  {
    if |groups| == 1 then groups[0].pctThreshold
    else
      var rest := LeastPct(groups[..|groups| - 1]);
      if groups[|groups| - 1].pctThreshold < rest then groups[|groups| - 1].pctThreshold else rest
  }

  /** One over the least threshold, rounded up. */
  function MinimumInspectionCycle(): nat {
    var p := LeastPct(GROUPS);
    if p == 0 then 0 else (100 + p - 1) / p
  }

  lemma MinimumIsSeven()
    ensures MinimumInspectionCycle() == 7
  {
    assert GROUPS[..4][..3][..2][..1] == [GROUPS[0]];
    assert GROUPS[..4][..3][..2] == [GROUPS[0], GROUPS[1]];
    assert GROUPS[..4][..3] == [GROUPS[0], GROUPS[1], GROUPS[2]];
    assert GROUPS[..4] == [GROUPS[0], GROUPS[1], GROUPS[2], GROUPS[3]];
    assert LeastPct(GROUPS[..4][..3][..2]) == 50;
    assert LeastPct(GROUPS[..4]) == 25;
    assert LeastPct(GROUPS) == 15;
  }

  // ---- One threshold ----

  /** Milliseconds from the last inspection to the threshold. */
  function Offset(cycle: int, g: Group): int {
    if cycle * g.pctThreshold <= 100 * g.daysThreshold then cycle * (100 - g.pctThreshold) * 864_000
    else (cycle - g.daysThreshold) * 86_400_000
  }

  /** At the threshold the time left is the lesser of the days and the percentage of the cycle. */
  lemma LesserThresholdCounts(cycle: int, g: Group)
    ensures var left := cycle * 86_400_000 - Offset(cycle, g);
      && left <= g.daysThreshold * 86_400_000 && left <= cycle * g.pctThreshold * 864_000
      && (left == g.daysThreshold * 86_400_000 || left == cycle * g.pctThreshold * 864_000)
  {
    assert cycle * (100 - g.pctThreshold) == cycle * 100 - cycle * g.pctThreshold;
  }

  /** Days left at each threshold for long cycles, and hundredths of the cycle left for short ones. */
  lemma ThresholdsAsDocumented(cycle: int)
    ensures 30 <= cycle ==>
      && Offset(cycle, GROUPS[Urgency(InspectionReminder)]) == (cycle - 25) * 86_400_000
      && Offset(cycle, GROUPS[Urgency(DueSoonLevel1)]) == (cycle - 14) * 86_400_000
      && Offset(cycle, GROUPS[Urgency(DueSoonLevel2)]) == (cycle - 10) * 86_400_000
      && Offset(cycle, GROUPS[Urgency(DueSoonLevel3)]) == (cycle - 7) * 86_400_000
      && Offset(cycle, GROUPS[Urgency(DueSoonLevel4)]) == (cycle - 3) * 86_400_000
    ensures 0 <= cycle <= 20 ==>
      && Offset(cycle, GROUPS[Urgency(InspectionReminder)]) == cycle * 15 * 864_000
      && Offset(cycle, GROUPS[Urgency(DueSoonLevel1)]) == cycle * 50 * 864_000
      && Offset(cycle, GROUPS[Urgency(DueSoonLevel2)]) == cycle * 65 * 864_000
      && Offset(cycle, GROUPS[Urgency(DueSoonLevel3)]) == cycle * 75 * 864_000
      && Offset(cycle, GROUPS[Urgency(DueSoonLevel4)]) == cycle * 85 * 864_000
  {
  }

  function DayOf(t: int): int { t / 86_400_000 }

  function ThresholdDay(last: int, cycle: int, g: Group): int { DayOf(last + Offset(cycle, g)) }

  predicate IsThresholdMetToday(last: int, cycle: int, g: Group, today: int) { ThresholdDay(last, cycle, g) == today }

  /** More urgent thresholds come later, for every positive cycle. */
  lemma OffsetsIncrease(cycle: int, r: nat, s: nat)
    requires 0 < cycle && r < s < |GROUPS|
    ensures Offset(cycle, GROUPS[r]) < Offset(cycle, GROUPS[s])
  {
  }

  lemma DayMonotone(s: int, t: int)
    requires s <= t
    ensures DayOf(s) <= DayOf(t)
  {
  }

  lemma DaysIncrease(last: int, cycle: int, g: GroupId, h: GroupId)
    requires 0 < cycle && Urgency(g) <= Urgency(h)
    ensures ThresholdDay(last, cycle, GROUPS[Urgency(g)]) <= ThresholdDay(last, cycle, GROUPS[Urgency(h)])
  {
    if g != h {
      OffsetsIncrease(cycle, Urgency(g), Urgency(h));
      DayMonotone(last + Offset(cycle, GROUPS[Urgency(g)]), last + Offset(cycle, GROUPS[Urgency(h)]));
    }
  }

  // ---- One run ----

  /** When each group's threshold falls, for one asset. */
  function Schedule(last: int, cycle: int): GroupId -> int {
    (g: GroupId) => ThresholdDay(last, cycle, GROUPS[Urgency(g)])
  }

  /** The group of the day's reminder: the most urgent whose threshold falls on that day. */
  ghost predicate IsPick(schedule: GroupId -> int, today: int, r: Option<GroupId>) {
    match r
    case Some(g) => schedule(g) == today && forall h :: schedule(h) == today ==> Urgency(h) <= Urgency(g)
    case None => forall h :: schedule(h) != today
  }

  /** The inner loop, which stops at the first threshold met. */
  method PickGroup(last: int, cycle: int, today: int) returns (r: Option<GroupId>)
    ensures IsPick(Schedule(last, cycle), today, r)
  {
    AscIsSorted();
    for i := 0 to |THRESHOLD_ASC|
      invariant forall h :: 4 - i < Urgency(h) ==> Schedule(last, cycle)(h) != today
    {
      var group := THRESHOLD_ASC[i];
      assert group == GROUPS[4 - i] && Urgency(group.id) == 4 - i;
      if IsThresholdMetToday(last, cycle, group, today) {
        return Some(group.id);
      }
    }
    return None;
  }

  lemma PickIsUnique(schedule: GroupId -> int, today: int, r: Option<GroupId>, s: Option<GroupId>)
    requires IsPick(schedule, today, r) && IsPick(schedule, today, s)
    ensures r == s
  {
    if r.Some? && s.Some? {
      assert GROUPS[Urgency(r.value)].id == GROUPS[Urgency(s.value)].id;
    }
  }

  // ---- Any sequence of daily runs ----

  ghost predicate Increasing(days: seq<int>) { forall i, j :: 0 <= i < j < |days| ==> days[i] < days[j] }

  /** What each daily run sends for one asset whose last inspection and cycle stay fixed. */
  ghost predicate IsRun(last: int, cycle: int, days: seq<int>, sent: seq<Option<GroupId>>) {
    && Increasing(days) && |sent| == |days|
    && forall i :: 0 <= i < |days| ==> IsPick(Schedule(last, cycle), days[i], sent[i])
  }

  /** Reminders only ever grow more urgent, so no group is sent twice. */
  lemma RemindersGrowMoreUrgent(last: int, cycle: int, days: seq<int>, sent: seq<Option<GroupId>>, i: nat, j: nat)
    requires 0 < cycle && IsRun(last, cycle, days, sent)
    requires i < j < |days| && sent[i].Some? && sent[j].Some?
    ensures Urgency(sent[i].value) < Urgency(sent[j].value)
  {
    assert IsPick(Schedule(last, cycle), days[i], sent[i]) && IsPick(Schedule(last, cycle), days[j], sent[j]);
    if Urgency(sent[j].value) <= Urgency(sent[i].value) {
      DaysIncrease(last, cycle, sent[j].value, sent[i].value);
    }
  }

  /** A group goes out in a run exactly when its day is run and no more urgent group falls on that day. */
  lemma SkippedOnlyForMoreUrgent(last: int, cycle: int, days: seq<int>, sent: seq<Option<GroupId>>, g: GroupId)
    requires IsRun(last, cycle, days, sent)
    ensures Some(g) in sent <==>
      && Schedule(last, cycle)(g) in days
      && forall h :: Urgency(g) < Urgency(h) ==> Schedule(last, cycle)(h) != Schedule(last, cycle)(g)
  {
    var schedule := Schedule(last, cycle);
    if Some(g) in sent {
      var i :| 0 <= i < |sent| && sent[i] == Some(g);
      assert IsPick(schedule, days[i], sent[i]);
    }
    if schedule(g) in days {
      var i :| 0 <= i < |days| && days[i] == schedule(g);
      assert IsPick(schedule, days[i], sent[i]);
      if forall h :: Urgency(g) < Urgency(h) ==> schedule(h) != schedule(g) {
        assert sent[i].Some? && GROUPS[Urgency(sent[i].value)].id == GROUPS[Urgency(g)].id;
        assert sent[i] == Some(g);
      }
    }
  }

  // ---- What the minimum cycle buys ----

  /** The level 4 threshold falls at least 24 hours before the due date exactly from the minimum cycle on. */
  lemma Level4ADayAheadIff(last: int, cycle: int)
    ensures last + Offset(cycle, GROUPS[4]) + 86_400_000 <= last + cycle * 86_400_000
      <==> MinimumInspectionCycle() <= cycle
  {
    MinimumIsSeven();
  }

  /** Two groups share a day. */
  ghost predicate Shares(last: int, cycle: int, g: GroupId, h: GroupId) {
    Urgency(g) < Urgency(h) && Schedule(last, cycle)(g) == Schedule(last, cycle)(h)
  }

  lemma ThresholdsADayApart(cycle: int, r: nat, s: nat)
    requires 10 <= cycle && r < s < |GROUPS|
    ensures Offset(cycle, GROUPS[r]) + 86_400_000 <= Offset(cycle, GROUPS[s])
  {
  }

  lemma ADayApartIsAnotherDay(s: int, t: int)
    requires s + 86_400_000 <= t
    ensures DayOf(s) < DayOf(t)
  {
  }

  lemma StartOfDay(d: int, e: int)
    requires 0 <= e < 86_400_000
    ensures DayOf(d * 86_400_000 + e) == d
  {
  }

  /**
   No group can be skipped, whatever the last inspection, exactly for cycles of ten days or more:
   the minimum cycle of seven still lets thresholds share a day.
   */
  lemma NoGroupEverSkippedIff(cycle: int)
    requires 0 < cycle
    ensures (forall last, g, h :: !Shares(last, cycle, g, h)) <==> 10 <= cycle
  {
    if 10 <= cycle {
      forall last, g, h | Urgency(g) < Urgency(h) ensures !Shares(last, cycle, g, h) {
        ThresholdsADayApart(cycle, Urgency(g), Urgency(h));
        ADayApartIsAnotherDay(last + Offset(cycle, GROUPS[Urgency(g)]), last + Offset(cycle, GROUPS[Urgency(h)]));
      }
    } else {
      var last := -Offset(cycle, GROUPS[3]);
      StartOfDay(0, 0);
      StartOfDay(0, last + Offset(cycle, GROUPS[4]));
      assert Shares(last, cycle, DueSoonLevel3, DueSoonLevel4);
    }
  }

  // ---- The bucket loop ----

  datatype Asset = Asset(id: string, createdOn: int, inspectionCycle: Option<int>, latestInspection: Option<int>)

  /** Assets never inspected count from their creation. */
  function LastInspectedOn(a: Asset): int { if a.latestInspection.Some? then a.latestInspection.value else a.createdOn }

  function CycleOf(a: Asset, fallback: int): int {
    if a.inspectionCycle.Some? then a.inspectionCycle.value else fallback
  }

  ghost predicate Reminded(a: Asset, fallback: int, today: int, g: GroupId) {
    IsPick(Schedule(LastInspectedOn(a), CycleOf(a, fallback)), today, Some(g))
  }

  /** Assets of one bucket. */
  ghost function Bucket(assets: seq<Asset>, fallback: int, today: int, g: GroupId): seq<Asset> {
    Filter(assets, (a: Asset) => Reminded(a, fallback, today, g))
  }

  lemma BucketSnoc(assets: seq<Asset>, a: Asset, fallback: int, today: int, g: GroupId)
    ensures Bucket(assets + [a], fallback, today, g)
         == Bucket(assets, fallback, today, g) + if Reminded(a, fallback, today, g) then [a] else []
  {
    FilterSnoc(assets, a, (a: Asset) => Reminded(a, fallback, today, g));
  }

  /**
   The group of the day of an asset, from its own fields: counted from its latest inspection, or from its creation if
   it has none, with its own cycle, or the client's if it has none.
   */
  ghost predicate FallsIn(a: Asset, defaultInspectionCycle: int, today: int, g: GroupId) {
    var last := match a.latestInspection case Some(t) => t case None => a.createdOn;
    var cycle := match a.inspectionCycle case Some(c) => c case None => defaultInspectionCycle;
    IsPick(Schedule(last, cycle), today, Some(g))
  }

  method FillBuckets(assets: seq<Asset>, defaultInspectionCycle: int, today: int)
    returns (buckets: map<GroupId, seq<Asset>>)
    ensures forall g :: g in buckets && buckets[g] == Bucket(assets, defaultInspectionCycle, today, g)
    ensures forall g, a :: a in buckets[g] <==> a in assets && FallsIn(a, defaultInspectionCycle, today, g)
  {
    buckets := map[
      InspectionReminder := [], DueSoonLevel1 := [], DueSoonLevel2 := [], DueSoonLevel3 := [], DueSoonLevel4 := []];
    forall g: GroupId ensures g in buckets && buckets[g] == [] {
      match g
      case InspectionReminder =>
      case DueSoonLevel1 =>
      case DueSoonLevel2 =>
      case DueSoonLevel3 =>
      case DueSoonLevel4 =>
    }
    for i := 0 to |assets|
      invariant forall g :: g in buckets && buckets[g] == Bucket(assets[..i], defaultInspectionCycle, today, g)
    {
      var asset := assets[i];
      var group := PickGroup(LastInspectedOn(asset), CycleOf(asset, defaultInspectionCycle), today);
      ghost var before := buckets;
      if group.Some? {
        buckets := buckets[group.value := buckets[group.value] + [asset]];
      }
      assert assets[..i + 1] == assets[..i] + [asset];
      forall g ensures g in buckets && buckets[g] == Bucket(assets[..i + 1], defaultInspectionCycle, today, g) {
        assert g in before;
        BucketSnoc(assets[..i], asset, defaultInspectionCycle, today, g);
        if Reminded(asset, defaultInspectionCycle, today, g) {
          PickIsUnique(Schedule(LastInspectedOn(asset), CycleOf(asset, defaultInspectionCycle)), today, group, Some(g));
        }
      }
    }
    assert assets[..|assets|] == assets;
  }

  /** An asset is in at most one bucket a day, and in one exactly when some threshold of its falls on that day. */
  lemma OneBucketADay(assets: seq<Asset>, fallback: int, today: int, a: Asset)
    requires a in assets
    ensures forall g, h :: a in Bucket(assets, fallback, today, g) && a in Bucket(assets, fallback, today, h) ==> g == h
    ensures (exists g :: a in Bucket(assets, fallback, today, g))
      <==> exists g :: Schedule(LastInspectedOn(a), CycleOf(a, fallback))(g) == today
  {
    var schedule := Schedule(LastInspectedOn(a), CycleOf(a, fallback));
    forall g, h | a in Bucket(assets, fallback, today, g) && a in Bucket(assets, fallback, today, h) ensures g == h {
      PickIsUnique(schedule, today, Some(g), Some(h));
    }
    if g :| schedule(g) == today {
      var m := MostUrgent(schedule, today, g);
      assert a in Bucket(assets, fallback, today, m);
    }
  }

  lemma {:induction false} MostUrgent(schedule: GroupId -> int, today: int, g: GroupId) returns (m: GroupId)
    requires schedule(g) == today
    ensures IsPick(schedule, today, Some(m))
    decreases |GROUPS| - Urgency(g)
  {
    if h :| schedule(h) == today && Urgency(g) < Urgency(h) {
      m := MostUrgent(schedule, today, h);
    } else {
      m := g;
    }
  }
}
