/** `AuditRepository` (backend/src/modules/audit/audit.repository.ts): the audit table, the one
  * write path that appends to an organization's chain, and the loop that verifies it. */
module AuditRepository {
  import opened JsonValues
  import opened CanonicalJson
  import opened AuditHash
  import opened AuditChain

  // ---------------------------------------------------------------- queries

  /** `orderBy: [{ createdAt }, { id }]`: a uuid is ordered as the number its bytes spell. */
  function OrderKey(r: AuditRow): seq<int> { r.content.createdAt.Fields() + [r.id] }

  predicate RowLeq(a: AuditRow, b: AuditRow) { UnitsLeq(OrderKey(a), OrderKey(b)) }

  predicate RowBefore(a: AuditRow, b: AuditRow) { !RowLeq(b, a) }

  lemma RowOrder(a: AuditRow, b: AuditRow, c: AuditRow)
    ensures RowLeq(a, b) || RowLeq(b, a)
    ensures RowLeq(a, b) && RowLeq(b, c) ==> RowLeq(a, c)
    ensures RowLeq(a, b) && RowLeq(b, a) ==> a.id == b.id
  {
    UnitsTotal(OrderKey(a), OrderKey(b));
    if RowLeq(a, b) && RowLeq(b, c) { UnitsTransitive(OrderKey(a), OrderKey(b), OrderKey(c)); }
    if RowLeq(a, b) && RowLeq(b, a) {
      UnitsAntisymmetric(OrderKey(a), OrderKey(b));
      assert OrderKey(a)[7] == OrderKey(b)[7];
    }
  }

  /** In the order of (createdAt, id), said of the times as the payload spells them: of two times in one year the one
    * whose ISO text sorts first is the earlier, and of two rows of one time the one with the smaller id comes first. */
  predicate InTimeOrder(a: AuditRow, b: AuditRow) {
    var t, u := a.content.createdAt, b.content.createdAt;
    if t == u then a.id <= b.id
    else if t.year != u.year then t.year < u.year
    else KeyLeq(IsoString(t), IsoString(u))
  }

  lemma UnitsFrom(a: seq<int>, b: seq<int>, i: nat)
    requires i < |a| && i < |b|
    ensures UnitsLeq(a[i..], b[i..]) <==> a[i] < b[i] || (a[i] == b[i] && UnitsLeq(a[i+1..], b[i+1..]))
  {
    assert a[i..][1..] == a[i+1..] && b[i..][1..] == b[i+1..];
  }

  lemma OrderKeyFields(a: AuditRow, b: AuditRow)
    ensures var t, u := a.content.createdAt, b.content.createdAt;
      RowLeq(a, b) <==>
        t.year < u.year || (t.year == u.year && DayLeq(t, u) && (DayLeq(u, t) ==> a.id <= b.id))
  {
    var k, l := OrderKey(a), OrderKey(b);
    assert k[0..] == k && l[0..] == l && k[8..] == [] && l[8..] == [];
    UnitsFrom(k, l, 0);
    UnitsFrom(k, l, 1);
    UnitsFrom(k, l, 2);
    UnitsFrom(k, l, 3);
    UnitsFrom(k, l, 4);
    UnitsFrom(k, l, 5);
    UnitsFrom(k, l, 6);
    UnitsFrom(k, l, 7);
    hide UnitsLeq;
    assert UnitsLeq(k[8..], l[8..]) by { NoUnits(); }
  }

  lemma NoUnits()
    ensures UnitsLeq([], [])
  {}

  /** Rows are ordered by time; with years of four digits, by the ISO text of the time. */
  lemma RowLeqIsTimeOrder(a: AuditRow, b: AuditRow)
    requires a.content.createdAt.Valid() && b.content.createdAt.Valid()
    ensures RowLeq(a, b) <==> InTimeOrder(a, b)
    ensures var t, u := a.content.createdAt, b.content.createdAt;
      0 <= t.year <= 9999 && 0 <= u.year <= 9999 ==>
        (RowLeq(a, b) <==> KeyLeq(IsoString(t), IsoString(u)) && (IsoString(t) == IsoString(u) ==> a.id <= b.id))
  {
    var t, u := a.content.createdAt, b.content.createdAt;
    OrderKeyFields(a, b);
    if t.year == u.year || (0 <= t.year <= 9999 && 0 <= u.year <= 9999) {
      IsoStringSorts(t, u);
      IsoStringSorts(u, t);
      if IsoString(t) == IsoString(u) { IsoStringInjective(t, u); }
    }
    hide RowLeq, KeyLeq, IsoString;
  }

  /** How many of the leading rows come no later than `r`. */
  function Place(r: AuditRow, rows: seq<AuditRow>): (p: nat)
    ensures p <= |rows|
    ensures forall i :: 0 <= i < p ==> RowLeq(rows[i], r)
    ensures p < |rows| ==> RowBefore(r, rows[p])
  {
    if rows == [] || !RowLeq(rows[0], r) then 0 else 1 + Place(r, rows[1..])
  }

  function InsertRow(r: AuditRow, rows: seq<AuditRow>): seq<AuditRow> {
    var p := Place(r, rows);
    rows[..p] + [r] + rows[p..]
  }

  /** One organization's rows with a hash, in chain order: the rows `verifyChain` walks. */
  function ChainOf(table: seq<AuditRow>, organizationId: string): seq<AuditRow> {
    if table == [] then []
    else
      var r, rest := table[|table|-1], ChainOf(table[..|table|-1], organizationId);
      if InQuery(r, organizationId) then InsertRow(r, rest) else rest
  }

  /** The row is one `verifyChain` asks for. */
  predicate InQuery(r: AuditRow, organizationId: string) {
    r.content.organizationId == organizationId && r.hash.Some?
  }

  /** The rows asked for, in the order the table holds them. */
  function Matching(table: seq<AuditRow>, organizationId: string): seq<AuditRow> {
    if table == [] then []
    else
      var r, rest := table[|table|-1], Matching(table[..|table|-1], organizationId);
      if InQuery(r, organizationId) then rest + [r] else rest
  }

  /** `findFirst` ordered descending: an organization's latest row, with a hash or not. */
  function Latest(table: seq<AuditRow>, organizationId: string): (m: Option<AuditRow>)
    ensures m.None? <==> forall x :: x in table ==> x.content.organizationId != organizationId
    ensures m.Some? ==> m.value in table && m.value.content.organizationId == organizationId
    ensures m.Some? ==> forall x :: x in table && x.content.organizationId == organizationId ==> RowLeq(x, m.value)
  {
    if table == [] then None
    else
      var r, rest := table[|table|-1], Latest(table[..|table|-1], organizationId);
      assert table == table[..|table|-1] + [r];
      if r.content.organizationId != organizationId then rest
      else if rest.None? then (RowOrder(r, r, r); Some(r))
      else
        RowOrder(r, rest.value, r);
        RowOrder(r, r, r);
        if RowLeq(r, rest.value) then rest
        else
          assert forall x :: x in table && x.content.organizationId == organizationId ==> RowLeq(x, r) by {
            forall x | x in table && x.content.organizationId == organizationId ensures RowLeq(x, r) {
              RowOrder(x, rest.value, r);
            }
          }
          Some(r)
  }

  /** `previous?.hash ?? null`. */
  function LatestHash(table: seq<AuditRow>, organizationId: string): Option<string> {
    var m := Latest(table, organizationId);
    if m.Some? then m.value.hash else None
  }

  predicate Ordered(rows: seq<AuditRow>) {
    forall i, j :: 0 <= i < j < |rows| ==> RowLeq(rows[i], rows[j])
  }

  lemma InsertAt(rows: seq<AuditRow>, p: nat, r: AuditRow)
    requires p <= |rows|
    ensures var out := rows[..p] + [r] + rows[p..];
      && |out| == |rows| + 1 && out[p] == r
      && (forall i :: 0 <= i < p ==> out[i] == rows[i])
      && (forall i :: p < i < |out| ==> out[i] == rows[i-1])
      && (forall x :: x in out <==> x == r || x in rows)
  {}

  lemma InsertOrdered(r: AuditRow, rows: seq<AuditRow>)
    requires Ordered(rows)
    ensures Ordered(InsertRow(r, rows))
    ensures forall x :: x in InsertRow(r, rows) <==> x == r || x in rows
  {
    hide RowLeq;
    var p := Place(r, rows);
    var out := InsertRow(r, rows);
    InsertAt(rows, p, r);
    if p < |rows| {
      RowOrder(r, rows[p], r);
      forall j | p < j < |out| ensures RowLeq(r, out[j]) {
        if j > p + 1 { RowOrder(r, rows[p], out[j]); }
      }
    }
  }

  lemma InsertMultiset(r: AuditRow, rows: seq<AuditRow>)
    ensures multiset(InsertRow(r, rows)) == multiset(rows + [r])
  {
    hide Place;
    var p := Place(r, rows);
    assert rows == rows[..p] + rows[p..];
  }

  lemma {:induction false} ChainOrder(table: seq<AuditRow>, organizationId: string)
    ensures Ordered(ChainOf(table, organizationId))
    ensures forall x :: x in ChainOf(table, organizationId)
              <==> x in table && InQuery(x, organizationId)
  {
    hide RowLeq;
    if table != [] {
      var n := |table| - 1;
      ChainOrder(table[..n], organizationId);
      InsertOrdered(table[n], ChainOf(table[..n], organizationId));
      assert table == table[..n] + [table[n]];
    }
  }

  /** The chain is the organization's rows with a hash, each as often as the table holds it, in order of time. */
  lemma ChainOfIsTheQuery(table: seq<AuditRow>, organizationId: string)
    requires WfRows(table)
    ensures var rows := ChainOf(table, organizationId);
      && (forall i, j :: 0 <= i < j < |rows| ==> InTimeOrder(rows[i], rows[j]))
      && (forall x :: x in rows <==> x in table && x.content.organizationId == organizationId && x.hash.Some?)
      && multiset(rows) == multiset(Matching(table, organizationId))
  {
    ChainOrder(table, organizationId);
    ChainMultiset(table, organizationId);
    hide ChainOf, RowLeq, InTimeOrder;
    var rows := ChainOf(table, organizationId);
    forall i, j | 0 <= i < j < |rows| ensures InTimeOrder(rows[i], rows[j]) {
      assert rows[i] in rows && rows[j] in rows;
      RowLeqIsTimeOrder(rows[i], rows[j]);
    }
  }

  lemma {:induction false} ChainMultiset(table: seq<AuditRow>, organizationId: string)
    ensures multiset(ChainOf(table, organizationId)) == multiset(Matching(table, organizationId))
  {
    hide RowLeq, InsertRow, Ordered;
    if table != [] {
      var n := |table| - 1;
      ChainMultiset(table[..n], organizationId);
      InsertMultiset(table[n], ChainOf(table[..n], organizationId));
    }
  }

  // ---------------------------------------------------------------- operations

  /** What one call of `record` carries: the caller's data and its tenant context. */
  datatype Draft = Draft(
    organizationId: string, userId: string, requestId: Option<string>, action: string, resource: string,
    resourceId: Option<string>, metadata: Option<Json>, supportSessionId: Option<string>)

  function ContentOf(d: Draft, createdAt: Instant): Content {
    Content(d.organizationId, d.userId,
            if d.requestId.Some? then d.requestId.value else "unknown",
            d.action, d.resource, d.resourceId,
            if d.metadata.Some? then d.metadata.value else Obj([]),
            d.supportSessionId, createdAt)
  }

  function NextRow(sha: Digest, id: nat, d: Draft, createdAt: Instant, previousHash: Option<string>): AuditRow {
    var c := ContentOf(d, createdAt);
    AuditRow(id, c, previousHash, Some(ComputeHash(sha, previousHash, c)))
  }

  datatype Verification = Verification(checked: nat, valid: bool, brokenAtIndex: Option<nat>, brokenAuditLogId: Option<nat>)

  class Repository {
    const sha: Digest
    var table: seq<AuditRow>

    constructor (sha: Digest, table: seq<AuditRow>)
      ensures this.sha == sha && this.table == table
    {
      this.sha := sha;
      this.table := table;
    }

    /** `write`, run without interleaving; `now` and `id` are the clock and the generated uuid. */
    method Write(d: Draft, now: Instant, id: nat)
      modifies this`table
      ensures table == old(table) + [NextRow(sha, id, d, now, LatestHash(old(table), d.organizationId))]
      ensures var row := table[|table|-1];
        && (row.id, row.content.createdAt) == (id, now)
        && (row.content.organizationId, row.content.userId) == (d.organizationId, d.userId)
        && row.content.requestId == (if d.requestId.Some? then d.requestId.value else "unknown")
        && (row.content.action, row.content.resource) == (d.action, d.resource)
        && (row.content.resourceId, row.content.supportSessionId) == (d.resourceId, d.supportSessionId)
        && row.content.metadata == (if d.metadata.Some? then d.metadata.value else Obj([]))
        && row.previousHash == LatestHash(old(table), d.organizationId)
        && row.hash == Some(sha((if row.previousHash.Some? then row.previousHash.value else "")
                                + StableStringify(Payload(row.content))))
    {
      hide StableStringify, Payload;
      var previous := Latest(table, d.organizationId);
      var previousHash := if previous.Some? then previous.value.hash else None;
      var row := NextRow(sha, id, d, now, previousHash);
      table := table + [row];
    }

    /** Accepts exactly the linked chains, and otherwise names the first row that breaks one. */
    method VerifyChain(organizationId: string) returns (v: Verification)
      ensures var rows := ChainOf(table, organizationId);
        && v.checked == |rows|
        && (v.valid <==> Linked(sha, rows))
        && (v.valid <==> v.brokenAtIndex.None?) && (v.valid <==> v.brokenAuditLogId.None?)
        && (!v.valid ==> BreaksAt(sha, rows, v.brokenAtIndex.value)
                         && v.brokenAuditLogId.value == rows[v.brokenAtIndex.value].id)
        && (forall k: nat :: BreaksAt(sha, rows, k) <==> v.brokenAtIndex == Some(k))
    {
      hide ComputeHash;
      var rows := ChainOf(table, organizationId);
      var expectedPreviousHash := None;
      for index := 0 to |rows|
        invariant expectedPreviousHash == ExpectedPrevious(rows, index)
        invariant forall i :: 0 <= i < index ==> LinkOk(sha, rows, i)
      {
        var row := rows[index];
        if row.previousHash != expectedPreviousHash {
          assert !LinkOk(sha, rows, index);
          return Verification(|rows|, false, Some(index), Some(row.id));
        }
        var recomputedHash := ComputeHash(sha, row.previousHash, row.content);
        if Some(recomputedHash) != row.hash {
          assert !LinkOk(sha, rows, index);
          return Verification(|rows|, false, Some(index), Some(row.id));
        }
        expectedPreviousHash := row.hash;
      }
      return Verification(|rows|, true, None, None);
    }
  }

  // ---------------------------------------------------------------- what a write does to a chain

  /** Rows from before hashes existed are older than every row with one, and ids do not repeat. */
  ghost predicate TableOk(table: seq<AuditRow>) {
    && WfRows(table)
    && (forall x, y :: x in table && y in table && x.hash.None? && y.hash.Some?
          && x.content.organizationId == y.content.organizationId
          ==> RowBefore(x, y))
    && (forall x, y :: x in table && y in table && x.id == y.id ==> x == y)
  }

  /** The row comes after every chained row of its organization. */
  ghost predicate InOrder(table: seq<AuditRow>, r: AuditRow) {
    forall x :: x in table && x.hash.Some? && x.content.organizationId == r.content.organizationId ==> RowBefore(x, r)
  }

  /** The hash a write links to is the last one of the chain. */
  lemma LatestIsChainEnd(table: seq<AuditRow>, organizationId: string)
    requires TableOk(table)
    ensures LatestHash(table, organizationId)
         == ExpectedPrevious(ChainOf(table, organizationId), |ChainOf(table, organizationId)|)
  {
    hide RowLeq, ChainOf, Latest, WfRows;
    var rows, m := ChainOf(table, organizationId), Latest(table, organizationId);
    ChainOrder(table, organizationId);
    if rows != [] {
      var last := rows[|rows|-1];
      assert last in rows && last in table;
      assert RowLeq(last, m.value);
      assert m.value in rows;
      var k :| 0 <= k < |rows| && rows[k] == m.value;
      RowOrder(last, last, last);
      assert RowLeq(m.value, last);
      RowOrder(last, m.value, last);
    } else {
      forall x | x in table && x.content.organizationId == organizationId ensures x.hash.None? {
        assert x !in rows;
      }
    }
  }

  lemma ChainAfterWrite(table: seq<AuditRow>, r: AuditRow)
    requires r.hash.Some?
    ensures ChainOf(table + [r], r.content.organizationId)
         == InsertRow(r, ChainOf(table, r.content.organizationId))
  {}

  lemma OtherChains(table: seq<AuditRow>, r: AuditRow, organizationId: string)
    requires r.content.organizationId != organizationId
    ensures ChainOf(table + [r], organizationId) == ChainOf(table, organizationId)
    ensures Latest(table + [r], organizationId) == Latest(table, organizationId)
  {}

  /** A row linked to the chain's last hash and put at place `p`: the chain stays whole at the
    * end, and anywhere else breaks at `p`. */
  lemma LinkedInsert(sha: Digest, rows: seq<AuditRow>, p: nat, r: AuditRow)
    requires HexDigest(sha) && Linked(sha, rows) && WfRows(rows) && p <= |rows|
    requires r.previousHash == ExpectedPrevious(rows, |rows|)
    requires r.hash == Some(ComputeHash(sha, r.previousHash, r.content))
    ensures p == |rows| ==> Linked(sha, rows[..p] + [r] + rows[p..])
    ensures p < |rows| ==> BreaksAt(sha, rows[..p] + [r] + rows[p..], p) || Collision(sha, rows)
  {
    hide ComputeHash, RowPreimage;
    var out := rows[..p] + [r] + rows[p..];
    forall i | 0 <= i < p ensures LinkOk(sha, out, i) {
      assert LinkOk(sha, rows, i);
    }
    if p < |rows| {
      HashIsDigest(sha, rows, |rows| - 1);
      if p > 0 { DigestsDistinct(sha, rows, p - 1, |rows| - 1); }
    }
  }

  /** Exactly when a write keeps its organization's chain valid: when the new row sorts after
    * the rows already chained. */
  lemma WriteExact(sha: Digest, table: seq<AuditRow>, id: nat, d: Draft, now: Instant)
    requires HexDigest(sha) && TableOk(table)
    requires Linked(sha, ChainOf(table, d.organizationId))
    requires forall x :: x in table ==> x.id != id
    ensures var r := NextRow(sha, id, d, now, LatestHash(table, d.organizationId));
      || Collision(sha, ChainOf(table, d.organizationId))
      || (Linked(sha, ChainOf(table + [r], d.organizationId)) <==> InOrder(table, r))
    ensures var r := NextRow(sha, id, d, now, LatestHash(table, d.organizationId));
      InOrder(table, r) ==>
        && ChainOf(table + [r], d.organizationId) == ChainOf(table, d.organizationId) + [r]
        && Linked(sha, ChainOf(table + [r], d.organizationId))
  {
    hide ComputeHash, RowPreimage, RowLeq, ChainOf, Latest, LatestHash;
    var r := NextRow(sha, id, d, now, LatestHash(table, d.organizationId));
    var rows := ChainOf(table, d.organizationId);
    var p := Place(r, rows);
    ChainOrder(table, d.organizationId);
    LatestIsChainEnd(table, d.organizationId);
    ChainAfterWrite(table, r);
    LinkedInsert(sha, rows, p, r);
    if InOrder(table, r) {
      assert p < |rows| ==> rows[p] in rows;
      if p < |rows| { RowOrder(r, rows[p], r); }
      assert rows[..p] + [r] + rows[p..] == rows + [r];
    } else {
      var x :| x in table && x.hash.Some? && x.content.organizationId == d.organizationId && RowLeq(r, x);
      var k :| 0 <= k < |rows| && rows[k] == x;
      if p == |rows| { RowOrder(r, x, r); }
    }
  }

  lemma SameMillisecondOrder(a: AuditRow, b: AuditRow)
    requires a.content.createdAt == b.content.createdAt
    ensures RowLeq(a, b) <==> a.id <= b.id
  {
    OrderKeyFields(a, b);
  }

  /** The condition is needed: of two writes in one millisecond, the second given the smaller
    * id, verification rejects the chain at its first row. */
  lemma SameMillisecondBreaks(sha: Digest, d: Draft, now: Instant)
    requires HexDigest(sha)
    ensures var r := NextRow(sha, 2, d, now, LatestHash([], d.organizationId));
            var q := NextRow(sha, 1, d, now, LatestHash([r], d.organizationId));
            BreaksAt(sha, ChainOf([r, q], d.organizationId), 0)
  {
    hide ComputeHash, RowLeq;
    var r := NextRow(sha, 2, d, now, LatestHash([], d.organizationId));
    assert [r][..0] == [];
    assert Latest([r], d.organizationId) == Some(r);
    var q := NextRow(sha, 1, d, now, LatestHash([r], d.organizationId));
    SameMillisecondOrder(r, q);
    assert ChainOf([r], d.organizationId) == [r];
    assert [r, q][..1] == [r];
    assert ChainOf([r, q], d.organizationId) == [q, r];
  }
}
