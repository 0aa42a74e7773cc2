/** What `verifyChain` (backend/src/modules/audit/audit.repository.ts:128-174) reports when the audit table was
  * changed behind its back. It reads the table through a query that filters and sorts
  * (lines 129-132), so a changed row may stay where it was, move, or drop out of sight. */
module AuditTampering {
  import opened JsonValues
  import opened AuditHash
  import opened AuditChain
  import opened AuditRepository

  /** `id` is the primary key. */
  predicate IdsDiffer(table: seq<AuditRow>) {
    forall i, j | 0 <= i < j < |table| :: table[i].id != table[j].id
  }

  /** Sorted, and no two rows tie. */
  predicate Sorted(rows: seq<AuditRow>) {
    forall i, j | 0 <= i < j < |rows| :: RowBefore(rows[i], rows[j])
  }

  function Drop<T>(s: seq<T>, k: nat): seq<T>
    requires k < |s|
  {
    s[..k] + s[k+1..]
  }

  // ---------------------------------------------------------------- the query determines the chain

  lemma BeforeStep(r: AuditRow, rows: seq<AuditRow>)
    requires Sorted(rows) && forall x | x in rows :: x.id != r.id
    ensures Sorted(InsertRow(r, rows))
    ensures forall x :: x in InsertRow(r, rows) <==> x == r || x in rows
  {
    hide RowLeq;
    var p, out := Place(r, rows), InsertRow(r, rows);
    InsertAt(rows, p, r);
    forall i | 0 <= i < p ensures RowBefore(rows[i], r) { RowOrder(rows[i], r, r); }
    forall i | p <= i < |rows| ensures RowBefore(r, rows[i]) {
      RowOrder(rows[p], rows[i], r);
      RowOrder(rows[i], r, rows[p]);
    }
  }

  /** The chain is sorted and holds exactly the rows asked for ... */
  lemma {:induction false} ChainSorted(table: seq<AuditRow>, org: string)
    requires IdsDiffer(table)
    ensures Sorted(ChainOf(table, org))
    ensures forall x :: x in ChainOf(table, org) <==> x in table && InQuery(x, org)
  {
    hide RowLeq, InsertRow, Sorted;
    ChainOrder(table, org);
    if table != [] {
      var n := |table| - 1;
      ChainSorted(table[..n], org);
      BeforeStep(table[n], ChainOf(table[..n], org));
    } else {
      assert Sorted([]) by { NoneSorted(); }
    }
  }

  lemma NoneSorted()
    ensures Sorted([])
  {}

  /** ... and no other list of rows does. */
  lemma {:induction false} SortedUnique(a: seq<AuditRow>, b: seq<AuditRow>)
    requires Sorted(a) && Sorted(b) && forall x :: x in a <==> x in b
    ensures a == b
    decreases |a|
  {
    hide RowLeq;
    assert b != [] ==> b[0] in b;
    if a != [] {
      assert a[0] in b && b[0] in a;
      FirstIsFirst(a, b);
      forall x ensures x in a[1..] <==> x in b[1..] {
        TailHolds(a, x);
        TailHolds(b, x);
      }
      SortedUnique(a[1..], b[1..]);
      assert a == [a[0]] + a[1..] && b == [b[0]] + b[1..];
    }
  }

  lemma FirstIsFirst(a: seq<AuditRow>, b: seq<AuditRow>)
    requires Sorted(a) && Sorted(b) && a != [] && b != [] && a[0] in b && b[0] in a
    ensures a[0] == b[0]
  {
    hide RowLeq;
    var i :| 0 <= i < |b| && b[i] == a[0];
    var j :| 0 <= j < |a| && a[j] == b[0];
    RowOrder(a[0], b[0], a[0]);
  }

  lemma TailHolds(a: seq<AuditRow>, x: AuditRow)
    requires Sorted(a) && a != []
    ensures x in a[1..] <==> x in a && x != a[0]
  {
    hide RowLeq;
    RowOrder(a[0], a[0], a[0]);
    if x in a && x != a[0] {
      var i :| 0 <= i < |a| && a[i] == x;
      assert a[1..][i - 1] == x;
    }
  }

  lemma DropHolds(rows: seq<AuditRow>, k: nat, x: AuditRow)
    requires Sorted(rows) && k < |rows|
    ensures x in Drop(rows, k) <==> x in rows && x != rows[k]
  {
    hide RowLeq;
    RowOrder(rows[k], rows[k], rows[k]);
    var rest := Drop(rows, k);
    forall i | 0 <= i < |rest| ensures rest[i] in rows && rest[i] != rows[k] {
      assert rest[i] == rows[if i < k then i else i + 1];
    }
    if x in rows && x != rows[k] {
      var i :| 0 <= i < |rows| && rows[i] == x;
      assert rest[if i < k then i else i - 1] == x;
    }
  }

  lemma DropSorted(rows: seq<AuditRow>, k: nat)
    requires Sorted(rows) && k < |rows|
    ensures Sorted(Drop(rows, k))
  {
    hide RowLeq;
    var rest := Drop(rows, k);
    assert forall i | 0 <= i < |rest| :: rest[i] == rows[if i < k then i else i + 1];
  }

  lemma EditHolds(table: seq<AuditRow>, i: nat, r: AuditRow, x: AuditRow)
    requires IdsDiffer(table) && i < |table|
    ensures x in table[i := r] <==> x == r || (x in table && x != table[i])
  {
    if x in table && x != table[i] {
      var j :| 0 <= j < |table| && table[j] == x;
      assert table[i := r][j] == x;
    }
    assert table[i := r][i] == r;
  }

  /** What the query returns after one row of the table was replaced. */
  lemma ChainAfterEdit(table: seq<AuditRow>, org: string, i: nat, r: AuditRow, rest: seq<AuditRow>)
    requires IdsDiffer(table) && i < |table| && IdsDiffer(table[i := r])
    requires Sorted(rest) && forall x :: x in rest <==> x in table && InQuery(x, org) && x != table[i]
    ensures ChainOf(table[i := r], org) == if InQuery(r, org) then InsertRow(r, rest) else rest
  {
    hide RowLeq, InsertRow, ChainOf, Sorted;
    var edited := table[i := r];
    ChainSorted(edited, org);
    forall x ensures x in edited <==> x == r || (x in table && x != table[i]) { EditHolds(table, i, r, x); }
    if InQuery(r, org) {
      forall x | x in rest ensures x.id != r.id { OtherId(table, i, r, x); }
      BeforeStep(r, rest);
      SortedUnique(ChainOf(edited, org), InsertRow(r, rest));
    } else {
      SortedUnique(ChainOf(edited, org), rest);
    }
  }

  lemma OtherId(table: seq<AuditRow>, i: nat, r: AuditRow, x: AuditRow)
    requires i < |table| && IdsDiffer(table[i := r]) && x in table && x != table[i]
    ensures x.id != r.id
  {
    var j :| 0 <= j < |table| && table[j] == x;
    assert table[i := r][i] == r && table[i := r][j] == x;
  }

  /** The chain row `k` stands at `i` in the table. */
  predicate StandsAt(table: seq<AuditRow>, org: string, k: nat, i: nat) {
    k < |ChainOf(table, org)| && i < |table| && table[i] == ChainOf(table, org)[k]
  }

  lemma ChainAfterRowEdit(table: seq<AuditRow>, org: string, k: nat, i: nat, r: AuditRow)
    requires IdsDiffer(table) && StandsAt(table, org, k, i) && IdsDiffer(table[i := r])
    ensures
      var rest := Drop(ChainOf(table, org), k);
      ChainOf(table[i := r], org) == if InQuery(r, org) then InsertRow(r, rest) else rest
  {
    hide RowLeq, InsertRow, ChainOf, Sorted, Drop;
    var rows := ChainOf(table, org);
    ChainSorted(table, org);
    DropSorted(rows, k);
    forall x ensures x in Drop(rows, k) <==> x in rows && x != rows[k] { DropHolds(rows, k, x); }
    ChainAfterEdit(table, org, i, r, Drop(rows, k));
  }

  // ---------------------------------------------------------------- a replaced row

  /** The row links to the first `p` rows of the chain and carries its own digest. */
  predicate Follows(sha: Digest, rows: seq<AuditRow>, p: nat, r: AuditRow)
    requires p <= |rows|
  {
    r.previousHash == ExpectedPrevious(rows, p) && r.hash == Some(ComputeHash(sha, r.previousHash, r.content))
  }

  /** A row that moved up to `p`: it breaks the chain there unless it was made to fit, and then the row it
    * displaced no longer does. */
  lemma MovedUp(sha: Digest, rows: seq<AuditRow>, p: nat, r: AuditRow, out: seq<AuditRow>)
    requires HexDigest(sha) && Linked(sha, rows) && WfRows(rows) && WfContent(r.content)
    requires p < |rows| && p + 1 < |out| && out[..p] == rows[..p] && out[p] == r && out[p+1] == rows[p]
    ensures if Follows(sha, rows, p, r) then BreaksAt(sha, out, p + 1) || Collision(sha, rows + [r]) else BreaksAt(sha, out, p)
  {
    hide Preimage;
    SharedLinks(sha, rows, p, out);
    if p > 0 { assert out[p-1] == out[..p][p-1] == rows[..p][p-1]; }
    if Follows(sha, rows, p, r) {
      assert LinkOk(sha, out, p);
      HashIsDigest(sha, rows, p);
      if p > 0 {
        assert LinkOk(sha, rows, p);
        RepeatedHash(sha, rows, p - 1, r);
      }
    }
  }

  /** A row that links to row `q` does not repeat its hash. */
  lemma RepeatedHash(sha: Digest, rows: seq<AuditRow>, q: nat, r: AuditRow)
    requires HexDigest(sha) && Linked(sha, rows) && WfRows(rows) && WfContent(r.content)
    requires q < |rows| && r.previousHash == rows[q].hash && r.hash == Some(ComputeHash(sha, r.previousHash, r.content))
    ensures r.hash != rows[q].hash || Collision(sha, rows + [r])
  {
    hide Preimage;
    HashIsDigest(sha, rows, q);
    assert rows[q] in rows && (rows + [r])[q] == rows[q] && (rows + [r])[|rows|] == r;
    if RowPreimage(r) == RowPreimage(rows[q]) {
      PreimageSplits(r.previousHash, r.content, rows[q].previousHash, rows[q].content);
      if q > 0 {
        assert LinkOk(sha, rows, q);
        DigestsDistinct(sha, rows, q - 1, q);
        if Collision(sha, rows) { CollisionWider(sha, rows, rows + [r]); }
      }
    }
  }

  lemma Landed(rows: seq<AuditRow>, k: nat, p: nat, r: AuditRow)
    requires k < |rows| && p < |rows|
    ensures
      var rest := Drop(rows, k);
      var out := rest[..p] + [r] + rest[p..];
      && |out| == |rows|
      && (p == k ==> out == rows[k := r])
      && (p < k ==> out[..p] == rows[..p] && out[p] == r && out[p+1] == rows[p])
      && (p > k ==> out[..k] == rows[..k] && out[k] == rows[k+1])
  {
    var rest := Drop(rows, k);
    var out := rest[..p] + [r] + rest[p..];
    assert forall j | 0 <= j < |rest| :: rest[j] == rows[if j < k then j else j + 1];
    assert forall j | 0 <= j < |rows| :: out[j] == if j < p then rest[j] else if j == p then r else rest[j-1];
  }

  /** How a valid chain reads once row `k` is gone and `r` stands at place `p` of the rest. */
  ghost predicate Reported(sha: Digest, rows: seq<AuditRow>, k: nat, p: nat, r: AuditRow, chain: seq<AuditRow>)
    requires k < |rows| && p < |rows|
  {
    if p > k then BreaksAt(sha, chain, k) || Collision(sha, rows)
    else if !Follows(sha, rows, p, r) then BreaksAt(sha, chain, p)
    else if p < k then BreaksAt(sha, chain, p + 1) || Collision(sha, rows + [r])
    else if k + 1 < |rows| && r.hash != rows[k].hash then BreaksAt(sha, chain, k + 1)
    else Linked(sha, chain)
  }

  lemma LandedReported(sha: Digest, rows: seq<AuditRow>, k: nat, p: nat, r: AuditRow)
    requires HexDigest(sha) && Linked(sha, rows) && WfRows(rows) && WfContent(r.content)
    requires k < |rows| && p < |rows|
    ensures var rest := Drop(rows, k); Reported(sha, rows, k, p, r, rest[..p] + [r] + rest[p..])
  {
    Landed(rows, k, p, r);
    hide ComputeHash, RowPreimage;
    var rest := Drop(rows, k);
    var out := rest[..p] + [r] + rest[p..];
    hide Drop;
    if p > k {
      assert LinkOk(sha, rows, k + 1);
      MisplacedNext(sha, rows, k, out);
    } else if p < k {
      MovedUp(sha, rows, p, r, out);
    } else {
      assert LinkOk(sha, rows, k);
      EditExact(sha, rows, k, r);
    }
  }

  /** What verification reports after any change of one row of a valid chain, for every row put in its place. The
    * row drops out of sight, stays, moves up or moves down; only the last row of a chain can drop out unseen,
    * and only a row whose hash fits its place and its successor can stay unseen. */
  lemma EditReported(sha: Digest, table: seq<AuditRow>, org: string, k: nat, i: nat, r: AuditRow)
    requires HexDigest(sha) && WfRows(table) && WfContent(r.content)
    requires IdsDiffer(table) && StandsAt(table, org, k, i) && IdsDiffer(table[i := r])
    requires Linked(sha, ChainOf(table, org))
    ensures
      var rows, chain := ChainOf(table, org), ChainOf(table[i := r], org);
      if InQuery(r, org) then Reported(sha, rows, k, Place(r, Drop(rows, k)), r, chain)
      else if k + 1 == |rows| then Linked(sha, chain)
      else BreaksAt(sha, chain, k) || Collision(sha, rows)
  {
    var rows := ChainOf(table, org);
    ChainAfterRowEdit(table, org, k, i, r);
    ChainWf(table, org);
    hide ChainOf, Place, ComputeHash, RowPreimage, Reported, Linked, BreaksAt, Collision, RowLeq;
    if InQuery(r, org) {
      LandedReported(sha, rows, k, Place(r, Drop(rows, k)), r);
    } else {
      Dropped(sha, rows, k);
    }
  }

  lemma ChainWf(table: seq<AuditRow>, org: string)
    requires WfRows(table)
    ensures WfRows(ChainOf(table, org))
  {
    ChainOrder(table, org);
  }

  lemma Dropped(sha: Digest, rows: seq<AuditRow>, k: nat)
    requires HexDigest(sha) && Linked(sha, rows) && WfRows(rows) && k < |rows|
    ensures if k + 1 == |rows| then Linked(sha, Drop(rows, k)) else BreaksAt(sha, Drop(rows, k), k) || Collision(sha, rows)
  {
    hide ComputeHash, RowPreimage;
    if k + 1 == |rows| {
      LinkedPrefix(sha, rows, k);
      assert Drop(rows, k) == rows[..k];
    } else {
      RemovalDetected(sha, rows, k);
    }
  }

  // ---------------------------------------------------------------- tampering with what a row says

  /** Rewriting what a row says, createdAt and organization included. In the chain it is reported where the row
    * went or where it was, whichever comes first; only when the last row is given to another organization does
    * this organization's verification see nothing. */
  lemma ContentEditReported(sha: Digest, table: seq<AuditRow>, org: string, k: nat, i: nat, c: Content)
    requires HexDigest(sha) && WfRows(table) && WfContent(c) && IdsDiffer(table) && StandsAt(table, org, k, i)
    requires Linked(sha, ChainOf(table, org)) && !SameContent(table[i].content, c)
    ensures
      var rows, r := ChainOf(table, org), Rewritten(table[i], c);
      var chain, p := ChainOf(table[i := r], org), Place(r, Drop(rows, k));
      || Collision(sha, rows) || Collision(sha, [table[i], r])
      || if c.organizationId == org then BreaksAt(sha, chain, if p < k then p else k)
         else if k + 1 < |rows| then BreaksAt(sha, chain, k)
         else Linked(sha, chain)
  {
    var rows, r := ChainOf(table, org), Rewritten(table[i], c);
    assert forall j | 0 <= j < |table| :: table[i := r][j].id == table[j].id;
    EditReported(sha, table, org, k, i, r);
    ChainWf(table, org);
    RewrittenMisfits(sha, rows, k, c);
    ChainOrder(table, org);
    assert rows[k] in rows;
    hide ChainOf, Place, Follows, Linked, BreaksAt, Collision, RowLeq, Ordered, SameContent, WfContent;
  }

  /** But then the verification of that organization does: the row breaks the chain it was put into. */
  lemma MovedRowReportedThere(sha: Digest, table: seq<AuditRow>, org: string, k: nat, i: nat, c: Content)
    requires HexDigest(sha) && WfRows(table) && WfContent(c) && IdsDiffer(table) && StandsAt(table, org, k, i)
    requires Linked(sha, ChainOf(table, org)) && Linked(sha, ChainOf(table, c.organizationId))
    requires c.organizationId != org
    ensures
      var other, r := ChainOf(table, c.organizationId), Rewritten(table[i], c);
      BreaksAt(sha, ChainOf(table[i := r], c.organizationId), Place(r, other)) || Collision(sha, [table[i], r])
  {
    hide ChainOf, ComputeHash, RowPreimage, RowLeq, Collision, Place, Linked, BreaksAt, IdsDiffer, SameContent, WfContent;
    var other, r := ChainOf(table, c.organizationId), Rewritten(table[i], c);
    ChainAfterArrival(table, org, k, i, c);
    ChainWf(table, org);
    StandsInQuery(table, org, k, i);
    OtherOrganization(table[i].content, c);
    RewrittenMisfits(sha, ChainOf(table, org), k, c);
    if r.hash != Some(ComputeHash(sha, r.previousHash, r.content)) {
      InsertedMisfit(sha, other, Place(r, other), r);
    }
  }

  lemma OtherOrganization(a: Content, b: Content)
    requires a.organizationId != b.organizationId
    ensures !SameContent(a, b)
  {}

  lemma StandsInQuery(table: seq<AuditRow>, org: string, k: nat, i: nat)
    requires StandsAt(table, org, k, i)
    ensures InQuery(table[i], org)
  {
    ChainOrder(table, org);
    assert ChainOf(table, org)[k] in ChainOf(table, org);
  }

  lemma ChainAfterArrival(table: seq<AuditRow>, org: string, k: nat, i: nat, c: Content)
    requires IdsDiffer(table) && StandsAt(table, org, k, i) && c.organizationId != org
    ensures
      var other, r := ChainOf(table, c.organizationId), Rewritten(table[i], c);
      ChainOf(table[i := r], c.organizationId) == InsertRow(r, other)
  {
    var r := Rewritten(table[i], c);
    assert forall j | 0 <= j < |table| :: table[i := r][j].id == table[j].id;
    StandsInQuery(table, org, k, i);
    hide ChainOf, RowLeq, Sorted, InsertRow;
    ChainSorted(table, c.organizationId);
    ChainAfterEdit(table, c.organizationId, i, r, ChainOf(table, c.organizationId));
  }

  lemma InsertedMisfit(sha: Digest, rows: seq<AuditRow>, p: nat, r: AuditRow)
    requires Linked(sha, rows) && p <= |rows|
    requires r.hash != Some(ComputeHash(sha, r.previousHash, r.content))
    ensures BreaksAt(sha, rows[..p] + [r] + rows[p..], p)
  {
    hide Preimage;
    SharedLinks(sha, rows, p, rows[..p] + [r] + rows[p..]);
  }

  // ---------------------------------------------------------------- tampering with which rows there are

  /** Deleting a row of the chain from the table is reported where it stood, unless it was the last. */
  lemma RemovalReported(sha: Digest, table: seq<AuditRow>, org: string, k: nat, i: nat)
    requires HexDigest(sha) && WfRows(table) && IdsDiffer(table) && StandsAt(table, org, k, i)
    requires Linked(sha, ChainOf(table, org))
    ensures
      var rows, chain := ChainOf(table, org), ChainOf(Drop(table, i), org);
      if k + 1 == |rows| then Linked(sha, chain) else BreaksAt(sha, chain, k) || Collision(sha, rows)
  {
    var rows := ChainOf(table, org);
    ChainAfterRemoval(table, org, k, i);
    ChainWf(table, org);
    Dropped(sha, rows, k);
  }

  lemma ChainAfterRemoval(table: seq<AuditRow>, org: string, k: nat, i: nat)
    requires IdsDiffer(table) && StandsAt(table, org, k, i)
    ensures ChainOf(Drop(table, i), org) == Drop(ChainOf(table, org), k)
  {
    var rows, left := ChainOf(table, org), Drop(table, i);
    assert forall j | 0 <= j < |left| :: left[j] == table[if j < i then j else j + 1];
    forall x ensures x in left <==> x in table && x != table[i] { RemovalHolds(table, i, x); }
    hide RowLeq, ChainOf, Sorted, Drop;
    ChainSorted(table, org);
    ChainSorted(left, org);
    DropSorted(rows, k);
    forall x ensures x in Drop(rows, k) <==> x in rows && x != rows[k] { DropHolds(rows, k, x); }
    SortedUnique(ChainOf(left, org), Drop(rows, k));
  }

  lemma RemovalHolds(table: seq<AuditRow>, i: nat, x: AuditRow)
    requires IdsDiffer(table) && i < |table|
    ensures x in Drop(table, i) <==> x in table && x != table[i]
  {
    var left := Drop(table, i);
    assert forall j | 0 <= j < |left| :: left[j] == table[if j < i then j else j + 1];
    if x in table && x != table[i] {
      var j :| 0 <= j < |table| && table[j] == x;
      assert left[if j < i then j else j - 1] == x;
    }
  }

  /** Adding a forged row to the table. It is reported where it lands unless it was made to fit there; then the row
    * after it is; only one that fits at the end of the chain is accepted, as a written row is. */
  lemma ForgeryReported(sha: Digest, table: seq<AuditRow>, org: string, r: AuditRow)
    requires HexDigest(sha) && WfRows(table) && WfContent(r.content) && Linked(sha, ChainOf(table, org))
    ensures
      var rows, chain := ChainOf(table, org), ChainOf(table + [r], org);
      var p := Place(r, rows);
      if !InQuery(r, org) then chain == rows
      else if !Follows(sha, rows, p, r) then BreaksAt(sha, chain, p)
      else if p < |rows| then BreaksAt(sha, chain, p + 1) || Collision(sha, rows + [r])
      else Linked(sha, chain)
  {
    assert (table + [r])[..|table|] == table;
    ChainWf(table, org);
    hide ChainOf, Place, ComputeHash, RowPreimage, RowLeq, Collision, BreaksAt, Linked, WfRows;
    if InQuery(r, org) {
      var rows := ChainOf(table, org);
      ChainAfterWrite(table, r);
      ForgedAt(sha, rows, Place(r, rows), r);
    } else {
      ChainUnseen(table, org, r);
    }
  }

  lemma ChainUnseen(table: seq<AuditRow>, org: string, r: AuditRow)
    requires !InQuery(r, org)
    ensures ChainOf(table + [r], org) == ChainOf(table, org)
  {
    assert (table + [r])[..|table|] == table;
  }

  lemma ForgedAt(sha: Digest, rows: seq<AuditRow>, p: nat, r: AuditRow)
    requires HexDigest(sha) && Linked(sha, rows) && WfRows(rows) && WfContent(r.content) && p <= |rows|
    ensures var out := rows[..p] + [r] + rows[p..];
      if !Follows(sha, rows, p, r) then BreaksAt(sha, out, p)
      else if p < |rows| then BreaksAt(sha, out, p + 1) || Collision(sha, rows + [r])
      else Linked(sha, out)
  {
    hide Preimage;
    var out := rows[..p] + [r] + rows[p..];
    assert out[..p] == rows[..p] && out[p] == r;
    SharedLinks(sha, rows, p, out);
    if p > 0 { assert out[p-1] == rows[p-1]; }
    assert LinkOk(sha, out, p) <==> Follows(sha, rows, p, r);
    if p < |rows| {
      assert out[p+1] == rows[p];
      MovedUp(sha, rows, p, r, out);
    }
  }

  /** Row `b` in the place of row `a`: under a's key and creation time. */
  function InPlaceOf(b: AuditRow, a: AuditRow): AuditRow {
    b.(id := a.id, content := b.content.(createdAt := a.content.createdAt))
  }

  /** Two neighbouring rows of the chain that change places are reported at the first of them. */
  lemma SwapReported(sha: Digest, table: seq<AuditRow>, org: string, k: nat, i: nat, j: nat)
    requires HexDigest(sha) && WfRows(table) && IdsDiffer(table)
    requires StandsAt(table, org, k, i) && StandsAt(table, org, k + 1, j)
    requires Linked(sha, ChainOf(table, org))
    ensures
      var swapped := table[i := InPlaceOf(table[j], table[i])][j := InPlaceOf(table[i], table[j])];
      BreaksAt(sha, ChainOf(swapped, org), k) || Collision(sha, ChainOf(table, org))
  {
    var rows := ChainOf(table, org);
    ChainAfterSwap(table, org, k, i, j);
    ChainWf(table, org);
    hide ChainOf, ComputeHash, RowPreimage, BreaksAt, Collision;
    var other := rows[k := InPlaceOf(rows[k+1], rows[k])][k + 1 := InPlaceOf(rows[k], rows[k+1])];
    assert LinkOk(sha, rows, k + 1);
    assert other[..k] == rows[..k];
    MisplacedNext(sha, rows, k, other);
  }

  lemma ChainAfterSwap(table: seq<AuditRow>, org: string, k: nat, i: nat, j: nat)
    requires IdsDiffer(table) && StandsAt(table, org, k, i) && StandsAt(table, org, k + 1, j)
    ensures
      var rows := ChainOf(table, org);
      ChainOf(table[i := InPlaceOf(table[j], table[i])][j := InPlaceOf(table[i], table[j])], org) ==
        rows[k := InPlaceOf(rows[k+1], rows[k])][k + 1 := InPlaceOf(rows[k], rows[k+1])]
  {
    hide ChainOf, RowLeq;
    var rows := ChainOf(table, org);
    var a, b := InPlaceOf(rows[k+1], rows[k]), InPlaceOf(rows[k], rows[k+1]);
    var swapped, other := table[i := a][j := b], rows[k := a][k + 1 := b];
    ChainSorted(table, org);
    assert Sorted(other) by { SameKeysSorted(rows, other); }
    assert rows[k] in rows && rows[k+1] in rows;
    assert i != j by { RowOrder(rows[k], rows[k], rows[k]); }
    forall x ensures x in swapped <==> x == a || x == b || (x in table && x != table[i] && x != table[j]) {
      TwoEdits(table, i, j, a, b, x);
    }
    forall x ensures x in other <==> x == a || x == b || (x in rows && x != rows[k] && x != rows[k+1]) {
      assert RowsDiffer(rows) by { SortedRowsDiffer(rows); }
      TwoReplaced(rows, k, k + 1, a, b, x);
    }
    hide Sorted;
    ChainSorted(swapped, org);
    SortedUnique(ChainOf(swapped, org), other);
  }

  predicate RowsDiffer(rows: seq<AuditRow>) {
    forall i, j | 0 <= i < j < |rows| :: rows[i] != rows[j]
  }

  lemma SortedRowsDiffer(rows: seq<AuditRow>)
    requires Sorted(rows)
    ensures RowsDiffer(rows)
  {
    hide RowLeq;
    forall i, j | 0 <= i < j < |rows| ensures rows[i] != rows[j] { RowOrder(rows[i], rows[i], rows[i]); }
  }

  lemma TwoReplaced(rows: seq<AuditRow>, i: nat, j: nat, a: AuditRow, b: AuditRow, x: AuditRow)
    requires RowsDiffer(rows) && i < |rows| && j < |rows| && i != j
    ensures x in rows[i := a][j := b] <==> x == a || x == b || (x in rows && x != rows[i] && x != rows[j])
  {
    var out := rows[i := a][j := b];
    assert out[i] == a && out[j] == b;
    if x in rows && x != rows[i] && x != rows[j] {
      var n :| 0 <= n < |rows| && rows[n] == x;
      assert out[n] == x;
    }
  }

  lemma TwoEdits(table: seq<AuditRow>, i: nat, j: nat, a: AuditRow, b: AuditRow, x: AuditRow)
    requires IdsDiffer(table) && i < |table| && j < |table| && i != j
    ensures x in table[i := a][j := b] <==> x == a || x == b || (x in table && x != table[i] && x != table[j])
  {
    TwoReplaced(table, i, j, a, b, x);
  }

  lemma SameKeysSorted(rows: seq<AuditRow>, other: seq<AuditRow>)
    requires Sorted(rows) && |rows| == |other|
    requires forall i | 0 <= i < |rows| :: OrderKey(other[i]) == OrderKey(rows[i])
    ensures Sorted(other)
  {}
}
