/** Usage records, their period sums and the nightly snapshots
  * (backend/src/modules/billing/usage-record.repository.ts:56-128 and
  * backend/src/modules/billing/billing-cron.service.ts:62-75). */
module UsageRollup {
  datatype Period = Period(organizationId: string, featureKey: string, start: int, end: int)

  datatype Record = Record(period: Period, quantity: nat)

  /** A snapshot is unique per organization, feature and start: the end of the period is not in the key. */
  datatype SnapshotKey = SnapshotKey(organizationId: string, featureKey: string, start: int)

  datatype Snapshot = Snapshot(end: int, total: nat, computedAt: int)

  datatype Total = Total(period: Period, total: nat)

  type Snapshots = map<SnapshotKey, Snapshot>

  function KeyOf(p: Period): SnapshotKey {
    SnapshotKey(p.organizationId, p.featureKey, p.start)
  }

  /** `Math.max(0, Math.round(q))`, halves rounding up. */
  function Counted(quantity: real): (n: nat)
    ensures quantity >= 0.0 ==> quantity - 0.5 < n as real <= quantity + 0.5
    ensures quantity <= 0.0 ==> n == 0
  {
    if quantity < -0.5 then 0 else (quantity + 0.5).Floor
  }

  /** All usage recorded for one period. */
  function SumFor(records: seq<Record>, p: Period): nat {
    if records == [] then 0
    else SumFor(records[..|records|-1], p) + (if records[|records|-1].period == p then records[|records|-1].quantity else 0)
  }

  /** All usage recorded for periods that have not ended by `asOf`. */
  function SumOpen(records: seq<Record>, asOf: int): nat {
    if records == [] then 0
    else SumOpen(records[..|records|-1], asOf) +
         (if records[|records|-1].period.end >= asOf then records[|records|-1].quantity else 0)
  }

  predicate Recorded(records: seq<Record>, p: Period) {
    exists i :: 0 <= i < |records| && records[i].period == p
  }

  /** The rows of the grouped query, in whatever order the database returns them: one row for each open
    * period that has a record, with that period's sum. */
  ghost predicate IsGrouping(records: seq<Record>, asOf: int, totals: seq<Total>) {
    (forall i, j | 0 <= i < j < |totals| :: totals[i].period != totals[j].period) &&
    (forall t | t in totals :: t.period.end >= asOf && Recorded(records, t.period) && t.total == SumFor(records, t.period)) &&
    (forall r | r in records && r.period.end >= asOf :: exists i :: 0 <= i < |totals| && totals[i].period == r.period)
  }

  /** One end per organization, feature and start. */
  ghost predicate OneEnd(records: seq<Record>) {
    forall i, j | 0 <= i < |records| && 0 <= j < |records| && KeyOf(records[i].period) == KeyOf(records[j].period) ::
      records[i].period == records[j].period
  }

  /** Every open period with a record has a snapshot that holds its sum. */
  ghost predicate SnapshotsHold(records: seq<Record>, asOf: int, s: Snapshots) {
    forall r | r in records && r.period.end >= asOf ::
      KeyOf(r.period) in s && s[KeyOf(r.period)].total == SumFor(records, r.period)
  }

  /** Open periods that share a snapshot have the same sum. */
  ghost predicate SharersAgree(records: seq<Record>, asOf: int) {
    forall q, r | q in records && r in records && q.period.end >= asOf && r.period.end >= asOf &&
      KeyOf(q.period) == KeyOf(r.period) :: SumFor(records, q.period) == SumFor(records, r.period)
  }

  /** `upsertSnapshot`: a new row takes the end of the period, an old one keeps the end it had. */
  function Upserted(s: Snapshots, t: Total, now: int): Snapshots {
    var key := KeyOf(t.period);
    s[key := Snapshot(if key in s then s[key].end else t.period.end, t.total, now)]
  }

  function UpsertedAll(s: Snapshots, totals: seq<Total>, now: int): Snapshots {
    if totals == [] then s else Upserted(UpsertedAll(s, totals[..|totals|-1], now), totals[|totals|-1], now)
  }

  function Grand(totals: seq<Total>): nat {
    if totals == [] then 0 else Grand(totals[..|totals|-1]) + totals[|totals|-1].total
  }

  class UsageRecordRepository {
    var records: seq<Record>
    var snapshots: Snapshots

    constructor ()
      ensures records == [] && snapshots == map[]
    {
      records := [];
      snapshots := map[];
    }

    method Create(p: Period, quantity: real)
      modifies this`records
      ensures records == old(records) + [Record(p, Counted(quantity))]
      ensures forall q :: SumFor(records, q) == SumFor(old(records), q) + (if q == p then Counted(quantity) else 0)
    {
      records := records + [Record(p, Counted(quantity))];
      assert records[..|records|-1] == old(records);
    }

    method UpsertSnapshot(t: Total, now: int)
      modifies this`snapshots
      ensures snapshots == Upserted(old(snapshots), t, now)
      ensures var key := SnapshotKey(t.period.organizationId, t.period.featureKey, t.period.start);
        snapshots == old(snapshots)[key :=
          Snapshot(if key in old(snapshots) then old(snapshots)[key].end else t.period.end, t.total, now)]
    {
      var key := KeyOf(t.period);
      if key in snapshots {
        snapshots := snapshots[key := snapshots[key].(total := t.total, computedAt := now)];
      } else {
        snapshots := snapshots[key := Snapshot(t.period.end, t.total, now)];
      }
    }

    /** `rollupUsageSnapshots`, with `totals` the rows the grouped query returned. Every open period's
      * snapshot becomes the period's sum exactly when those that share one agree, the sums add up to all open
      * usage, and no other snapshot moves. */
    method RollupUsageSnapshots(totals: seq<Total>, asOf: int, now: int)
      requires IsGrouping(records, asOf, totals)
      modifies this`snapshots
      ensures snapshots == UpsertedAll(old(snapshots), totals, now)
      ensures Grand(totals) == SumOpen(records, asOf)
      ensures SnapshotsHold(records, asOf, snapshots) <==> SharersAgree(records, asOf)
      ensures OneEnd(records) ==> SnapshotsHold(records, asOf, snapshots)
      ensures forall key ::
        (key in snapshots && (key !in old(snapshots) || snapshots[key] != old(snapshots)[key])) ==>
        exists i :: 0 <= i < |totals| && KeyOf(totals[i].period) == key
    {
      for i := 0 to |totals|
        invariant snapshots == UpsertedAll(old(snapshots), totals[..i], now)
      {
        UpsertSnapshot(totals[i], now);
        assert totals[..i+1][..i] == totals[..i];
      }
      assert totals[..|totals|] == totals;
      GroupingConserves(records, asOf, totals);
      OnlyTotalsMove(old(snapshots), totals, now);
      RollupExactly(records, old(snapshots), asOf, totals, now);
      if OneEnd(records) { OneEndAgrees(records, asOf); }
    }
  }

  // ---------------------------------------------------------------- the sums add up

  function SumOver(totals: seq<Total>, records: seq<Record>): nat {
    if totals == [] then 0 else SumOver(totals[..|totals|-1], records) + SumFor(records, totals[|totals|-1].period)
  }

  ghost predicate PeriodsDiffer(totals: seq<Total>) {
    forall i, j | 0 <= i < j < |totals| :: totals[i].period != totals[j].period
  }

  predicate Covers(totals: seq<Total>, p: Period) {
    exists i :: 0 <= i < |totals| && totals[i].period == p
  }

  lemma {:induction false} SumOverSnoc(totals: seq<Total>, records: seq<Record>, r: Record)
    requires PeriodsDiffer(totals)
    ensures SumOver(totals, records + [r]) == SumOver(totals, records) + (if Covers(totals, r.period) then r.quantity else 0)
  {
    assert (records + [r])[..|records|] == records;
    if totals != [] {
      var n := |totals| - 1;
      SumOverSnoc(totals[..n], records, r);
      if Covers(totals[..n], r.period) {
        var i :| 0 <= i < n && totals[..n][i].period == r.period;
        assert totals[i].period == r.period;
      }
      if i :| 0 <= i < |totals| && totals[i].period == r.period {
        if i < n { assert totals[..n][i].period == r.period; }
      }
    }
  }

  lemma {:induction false} NoRecordsNoSum(totals: seq<Total>)
    ensures SumOver(totals, []) == 0
  {
    if totals != [] { NoRecordsNoSum(totals[..|totals|-1]); }
  }

  lemma {:induction false} OpenSumSplits(records: seq<Record>, asOf: int, totals: seq<Total>)
    requires PeriodsDiffer(totals) && forall t | t in totals :: t.period.end >= asOf
    requires forall r | r in records && r.period.end >= asOf :: Covers(totals, r.period)
    ensures SumOver(totals, records) == SumOpen(records, asOf)
  {
    if records == [] {
      NoRecordsNoSum(totals);
    } else {
      var front, last := records[..|records|-1], records[|records|-1];
      OpenSumSplits(front, asOf, totals);
      SumOverSnoc(totals, front, last);
      assert records == front + [last];
      if Covers(totals, last.period) {
        var i :| 0 <= i < |totals| && totals[i].period == last.period;
        assert totals[i] in totals;
      }
    }
  }

  lemma {:induction false} GrandIsSumOver(totals: seq<Total>, records: seq<Record>)
    requires forall t | t in totals :: t.total == SumFor(records, t.period)
    ensures Grand(totals) == SumOver(totals, records)
  {
    if totals != [] { GrandIsSumOver(totals[..|totals|-1], records); }
  }

  /** The grouped totals account for all open usage, once. */
  lemma GroupingConserves(records: seq<Record>, asOf: int, totals: seq<Total>)
    requires IsGrouping(records, asOf, totals)
    ensures Grand(totals) == SumOpen(records, asOf)
  {
    GrandIsSumOver(totals, records);
    forall r | r in records && r.period.end >= asOf ensures Covers(totals, r.period) {}
    OpenSumSplits(records, asOf, totals);
  }

  // ---------------------------------------------------------------- what a rollup leaves behind

  lemma {:induction false} OnlyTotalsMove(s: Snapshots, totals: seq<Total>, now: int)
    ensures forall key | key in s :: key in UpsertedAll(s, totals, now)
    ensures forall key | key in UpsertedAll(s, totals, now) && (key !in s || UpsertedAll(s, totals, now)[key] != s[key]) ::
      exists i :: 0 <= i < |totals| && KeyOf(totals[i].period) == key
  {
    if totals != [] {
      var n := |totals| - 1;
      var before, after := UpsertedAll(s, totals[..n], now), UpsertedAll(s, totals, now);
      OnlyTotalsMove(s, totals[..n], now);
      forall key | key in after && (key !in s || after[key] != s[key])
        ensures exists i :: 0 <= i < |totals| && KeyOf(totals[i].period) == key
      {
        if key == KeyOf(totals[n].period) {
        } else {
          var i :| 0 <= i < n && KeyOf(totals[..n][i].period) == key;
          assert KeyOf(totals[i].period) == key;
        }
      }
    }
  }

  ghost predicate KeysDiffer(totals: seq<Total>) {
    forall i, j | 0 <= i < j < |totals| :: KeyOf(totals[i].period) != KeyOf(totals[j].period)
  }

  lemma GroupingKeysDiffer(records: seq<Record>, asOf: int, totals: seq<Total>)
    requires IsGrouping(records, asOf, totals) && OneEnd(records)
    ensures KeysDiffer(totals)
  {}

  /** A snapshot the rollup writes holds the total of one of the rows that share it. */
  lemma {:induction false} SomeTotalLands(s: Snapshots, totals: seq<Total>, now: int, i: nat)
    requires i < |totals|
    ensures var (key, after) := (KeyOf(totals[i].period), UpsertedAll(s, totals, now));
      key in after && exists t :: t in totals && KeyOf(t.period) == key && after[key].total == t.total
  {
    var n := |totals| - 1;
    if KeyOf(totals[n].period) == KeyOf(totals[i].period) {
      assert totals[n] in totals;
    } else {
      assert totals[..n][i] == totals[i];
      SomeTotalLands(s, totals[..n], now, i);
    }
  }

  /** A rollup leaves every open period's snapshot right if and only if the open periods that share a snapshot,
    * having the same start but different ends, have the same sum. */
  lemma RollupExactly(records: seq<Record>, s: Snapshots, asOf: int, totals: seq<Total>, now: int)
    requires IsGrouping(records, asOf, totals)
    ensures SnapshotsHold(records, asOf, UpsertedAll(s, totals, now)) <==> SharersAgree(records, asOf)
  {
    var after := UpsertedAll(s, totals, now);
    if SharersAgree(records, asOf) {
      forall r | r in records && r.period.end >= asOf
        ensures KeyOf(r.period) in after && after[KeyOf(r.period)].total == SumFor(records, r.period)
      {
        var i :| 0 <= i < |totals| && totals[i].period == r.period;
        SomeTotalLands(s, totals, now, i);
        var t :| t in totals && KeyOf(t.period) == KeyOf(r.period) && after[KeyOf(r.period)].total == t.total;
        var j :| 0 <= j < |records| && records[j].period == t.period;
        assert records[j] in records;
      }
    }
  }

  lemma OneEndAgrees(records: seq<Record>, asOf: int)
    requires OneEnd(records)
    ensures SharersAgree(records, asOf)
  {}

  lemma SumOfTwo(a: Record, b: Record, p: Period)
    ensures SumFor([a], p) == (if a.period == p then a.quantity else 0)
    ensures SumFor([a, b], p) == SumFor([a], p) + (if b.period == p then b.quantity else 0)
  {
    assert [a, b][..1] == [a] && [a][..0] == [];
  }

  /** The failing input: two uses recorded for one start with two ends. Both periods are open, the first until this
    * very moment, the later row of the
    * grouping is written over the earlier one, and the snapshot is wrong for one of them whichever comes first. */
  lemma TwoEndsShareASnapshot(s: Snapshots, now: int)
    ensures
      var p, q := Period("org", "feature", 0, 10), Period("org", "feature", 0, 20);
      var records := [Record(p, 1), Record(q, 2)];
      IsGrouping(records, 10, [Total(p, 1), Total(q, 2)]) && IsGrouping(records, 10, [Total(q, 2), Total(p, 1)]) &&
      UpsertedAll(s, [Total(p, 1), Total(q, 2)], now)[KeyOf(p)].total == 2 > SumFor(records, p) &&
      UpsertedAll(s, [Total(q, 2), Total(p, 1)], now)[KeyOf(q)].total == 1 < SumFor(records, q) &&
      !SharersAgree(records, 10)
  {
    var p, q := Period("org", "feature", 0, 10), Period("org", "feature", 0, 20);
    var records := [Record(p, 1), Record(q, 2)];
    SumOfTwo(records[0], records[1], p);
    SumOfTwo(records[0], records[1], q);
    assert Recorded(records, p) by { assert records[0].period == p; }
    assert Recorded(records, q) by { assert records[1].period == q; }
    var one, two := [Total(p, 1), Total(q, 2)], [Total(q, 2), Total(p, 1)];
    assert one[0].period == p && one[1].period == q && two[0].period == q && two[1].period == p;
    assert one[..1] == [Total(p, 1)] && two[..1] == [Total(q, 2)];
    assert records[0] in records && records[1] in records;
  }
}
