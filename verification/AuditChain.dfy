/** Chains of audit rows: what `verifyChain` (backend/src/modules/audit/audit.repository.ts)
  * decides, and what an accepted chain says about the history behind it. A result that could
  * fail only through SHA-256 names two rows at hand whose different inputs share a digest. */
module AuditChain {
  import opened JsonValues
  import opened CanonicalJson
  import opened AuditHash

  function RowPreimage(r: AuditRow): string {
    Preimage(r.previousHash, r.content)
  }

  /** Two rows of `rows` with different digest inputs and one digest. */
  ghost predicate Collision(sha: Digest, rows: seq<AuditRow>) {
    exists i, j :: 0 <= i < |rows| && 0 <= j < |rows|
      && RowPreimage(rows[i]) != RowPreimage(rows[j])
      && sha(RowPreimage(rows[i])) == sha(RowPreimage(rows[j]))
  }

  predicate WfRows(rows: seq<AuditRow>) {
    forall r :: r in rows ==> WfContent(r.content)
  }

  /** The hash the row at `i` must name as its predecessor's. */
  function ExpectedPrevious(rows: seq<AuditRow>, i: nat): Option<string>
    requires i <= |rows|
  {
    if i == 0 then None else rows[i-1].hash
  }

  predicate LinkOk(sha: Digest, rows: seq<AuditRow>, i: nat)
    requires i < |rows|
  {
    && rows[i].previousHash == ExpectedPrevious(rows, i)
    && rows[i].hash == Some(ComputeHash(sha, rows[i].previousHash, rows[i].content))
  }

  /** The rows are one chain starting from nothing. */
  ghost predicate Linked(sha: Digest, rows: seq<AuditRow>) {
    forall i :: 0 <= i < |rows| ==> LinkOk(sha, rows, i)
  }

  /** Each row names the hash of the row before it, the first none, and carries the digest of that hash and its payload. */
  lemma LinkedExactly(sha: Digest, rows: seq<AuditRow>)
    ensures Linked(sha, rows) <==> forall i :: 0 <= i < |rows| ==>
      var expected := if i == 0 then None else rows[i-1].hash;
      rows[i].previousHash == expected &&
      rows[i].hash == Some(sha((if expected.Some? then expected.value else "") + StableStringify(Payload(rows[i].content))))
  {
    hide StableStringify, Payload;
    forall i | 0 <= i < |rows|
      ensures LinkOk(sha, rows, i) <==>
        var expected := if i == 0 then None else rows[i-1].hash;
        rows[i].previousHash == expected &&
        rows[i].hash == Some(sha((if expected.Some? then expected.value else "") + StableStringify(Payload(rows[i].content))))
    {}
  }

  /** The least index whose link fails. */
  ghost predicate BreaksAt(sha: Digest, rows: seq<AuditRow>, k: nat) {
    k < |rows| && !LinkOk(sha, rows, k) && forall i :: 0 <= i < k ==> LinkOk(sha, rows, i)
  }

  // ---------------------------------------------------------------- digests in a chain

  lemma HashIsDigest(sha: Digest, rows: seq<AuditRow>, i: nat)
    requires HexDigest(sha) && Linked(sha, rows) && i < |rows|
    ensures rows[i].hash == Some(sha(RowPreimage(rows[i])))
    ensures LinkText(rows[i].previousHash) && LinkText(rows[i].hash)
    ensures rows[i].previousHash.None? <==> i == 0
  {
    hide Preimage;
    assert LinkOk(sha, rows, i);
    if i > 0 { assert LinkOk(sha, rows, i - 1); }
  }

  /** Rows with one digest came from one input, or are a collision. */
  lemma EqualHashes(sha: Digest, a: seq<AuditRow>, i: nat, b: seq<AuditRow>, j: nat)
    requires HexDigest(sha) && Linked(sha, a) && Linked(sha, b) && WfRows(a) && WfRows(b)
    requires i < |a| && j < |b| && a[i].hash == b[j].hash
    ensures Collision(sha, a + b)
         || (a[i].previousHash == b[j].previousHash && SameContent(a[i].content, b[j].content))
  {
    hide Preimage;
    HashIsDigest(sha, a, i);
    HashIsDigest(sha, b, j);
    assert a[i] in a && b[j] in b;
    if RowPreimage(a[i]) == RowPreimage(b[j]) {
      PreimageSplits(a[i].previousHash, a[i].content, b[j].previousHash, b[j].content);
    } else {
      assert (a + b)[i] == a[i] && (a + b)[|a| + j] == b[j];
    }
  }

  lemma CollisionWider(sha: Digest, rows: seq<AuditRow>, wider: seq<AuditRow>)
    requires Collision(sha, rows) && forall r :: r in rows ==> r in wider
    ensures Collision(sha, wider)
  {
    hide Preimage;
    var i, j :| 0 <= i < |rows| && 0 <= j < |rows|
      && RowPreimage(rows[i]) != RowPreimage(rows[j])
      && sha(RowPreimage(rows[i])) == sha(RowPreimage(rows[j]));
    assert rows[i] in wider && rows[j] in wider;
    var k :| 0 <= k < |wider| && wider[k] == rows[i];
    var l :| 0 <= l < |wider| && wider[l] == rows[j];
  }

  lemma LinkedPrefix(sha: Digest, rows: seq<AuditRow>, n: nat)
    requires Linked(sha, rows) && n <= |rows|
    ensures Linked(sha, rows[..n])
  {
    hide Preimage;
    forall i | 0 <= i < n ensures LinkOk(sha, rows[..n], i) {
      assert LinkOk(sha, rows, i);
    }
  }

  /** The last hash binds the whole history: chains ending in one hash have one length and agree
    * in every hashed field of every row. */
  lemma {:induction false} LastHashBindsHistory(sha: Digest, a: seq<AuditRow>, b: seq<AuditRow>)
    requires HexDigest(sha) && Linked(sha, a) && Linked(sha, b) && WfRows(a) && WfRows(b)
    requires a != [] && b != [] && a[|a|-1].hash == b[|b|-1].hash
    ensures Collision(sha, a + b)
         || (|a| == |b| && forall i :: 0 <= i < |a| ==>
               && SameContent(a[i].content, b[i].content)
               && a[i].previousHash == b[i].previousHash
               && a[i].hash == b[i].hash)
    decreases |a|
  {
    hide Preimage;
    var m, n := |a| - 1, |b| - 1;
    EqualHashes(sha, a, m, b, n);
    HashIsDigest(sha, a, m);
    HashIsDigest(sha, b, n);
    if !Collision(sha, a + b) && m > 0 {
      assert LinkOk(sha, a, m) && LinkOk(sha, b, n);
      LinkedPrefix(sha, a, m);
      LinkedPrefix(sha, b, n);
      LastHashBindsHistory(sha, a[..m], b[..n]);
      if Collision(sha, a[..m] + b[..n]) {
        CollisionWider(sha, a[..m] + b[..n], a + b);
      } else {
        forall i | 0 <= i < |a|
          ensures SameContent(a[i].content, b[i].content)
          ensures a[i].previousHash == b[i].previousHash && a[i].hash == b[i].hash
        {
          if i < m { assert a[i] == a[..m][i] && b[i] == b[..n][i]; }
        }
      }
    }
  }

  /** In a chain no two rows carry one digest, */
  lemma {:induction false} DigestsDistinct(sha: Digest, rows: seq<AuditRow>, i: nat, j: nat)
    requires HexDigest(sha) && Linked(sha, rows) && WfRows(rows)
    requires i < j < |rows|
    ensures Collision(sha, rows) || rows[i].hash != rows[j].hash
    decreases i
  {
    hide Preimage;
    if rows[i].hash == rows[j].hash {
      EqualHashes(sha, rows, i, rows, j);
      if Collision(sha, rows + rows) { CollisionWider(sha, rows + rows, rows); }
      HashIsDigest(sha, rows, i);
      HashIsDigest(sha, rows, j);
      if !Collision(sha, rows) && i > 0 {
        assert LinkOk(sha, rows, i) && LinkOk(sha, rows, j);
        DigestsDistinct(sha, rows, i - 1, j - 1);
      }
    }
  }

  /** and no two rows claim one predecessor: the chain does not fork. */
  lemma ChainDoesNotFork(sha: Digest, rows: seq<AuditRow>, i: nat, j: nat)
    requires HexDigest(sha) && Linked(sha, rows) && WfRows(rows)
    requires i < j < |rows|
    ensures Collision(sha, rows)
         || (rows[i].hash != rows[j].hash && rows[i].previousHash != rows[j].previousHash)
  {
    hide Preimage;
    DigestsDistinct(sha, rows, i, j);
    HashIsDigest(sha, rows, i);
    HashIsDigest(sha, rows, j);
    if i > 0 {
      assert LinkOk(sha, rows, i) && LinkOk(sha, rows, j);
      DigestsDistinct(sha, rows, i - 1, j - 1);
    }
  }

  // ---------------------------------------------------------------- tampering

  /** What becomes of a valid list of rows when row `k` is replaced in it by `r`, whatever `r` is. */
  lemma EditExact(sha: Digest, rows: seq<AuditRow>, k: nat, r: AuditRow)
    requires Linked(sha, rows) && k < |rows|
    ensures var edited := rows[k := r];
      if r.previousHash != rows[k].previousHash || r.hash != Some(ComputeHash(sha, r.previousHash, r.content)) then
        BreaksAt(sha, edited, k)
      else if k + 1 < |rows| && r.hash != rows[k].hash then BreaksAt(sha, edited, k + 1)
      else Linked(sha, edited)
  {
    hide Preimage;
    var edited := rows[k := r];
    assert LinkOk(sha, rows, k);
    forall i | 0 <= i < |rows| && i != k && i != k + 1 ensures LinkOk(sha, edited, i) {
      assert LinkOk(sha, rows, i);
    }
    if k + 1 < |rows| { assert LinkOk(sha, rows, k + 1); }
  }

  /** Row `r` after its content was replaced, its stored hashes left alone. */
  function Rewritten(r: AuditRow, c: Content): AuditRow {
    r.(content := c)
  }

  /** A row with other content does not carry its own digest any more. */
  lemma RewrittenMisfits(sha: Digest, rows: seq<AuditRow>, k: nat, c: Content)
    requires HexDigest(sha) && Linked(sha, rows) && WfRows(rows) && k < |rows| && WfContent(c)
    requires !SameContent(rows[k].content, c)
    ensures rows[k].hash != Some(ComputeHash(sha, rows[k].previousHash, c))
         || Collision(sha, [rows[k], Rewritten(rows[k], c)])
  {
    hide Preimage;
    var r := Rewritten(rows[k], c);
    HashIsDigest(sha, rows, k);
    assert rows[k] in rows;
    PreimageSplits(r.previousHash, rows[k].content, r.previousHash, c);
    var two := [rows[k], r];
    assert RowPreimage(two[0]) != RowPreimage(two[1]);
  }

  /** In a list of rows, taking out row `k`, unless it is the last, breaks the chain at `k`. */
  lemma RemovalDetected(sha: Digest, rows: seq<AuditRow>, k: nat)
    requires HexDigest(sha) && Linked(sha, rows) && WfRows(rows) && k + 1 < |rows|
    ensures BreaksAt(sha, rows[..k] + rows[k+1..], k) || Collision(sha, rows)
  {
    hide Preimage;
    assert LinkOk(sha, rows, k + 1);
    MisplacedNext(sha, rows, k, rows[..k] + rows[k+1..]);
  }

  /** A list that agrees with the chain up to `k` and has there a row that names row `k` as its predecessor
    * breaks at `k`. */
  lemma MisplacedNext(sha: Digest, rows: seq<AuditRow>, k: nat, other: seq<AuditRow>)
    requires HexDigest(sha) && Linked(sha, rows) && WfRows(rows) && k < |rows|
    requires k < |other| && other[..k] == rows[..k] && other[k].previousHash == rows[k].hash
    ensures BreaksAt(sha, other, k) || Collision(sha, rows)
  {
    hide Preimage;
    HashIsDigest(sha, rows, k);
    if k > 0 {
      DigestsDistinct(sha, rows, k - 1, k);
      assert other[k-1] == other[..k][k-1] == rows[..k][k-1];
    }
    SharedLinks(sha, rows, k, other);
  }

  lemma SharedLinks(sha: Digest, rows: seq<AuditRow>, k: nat, other: seq<AuditRow>)
    requires Linked(sha, rows) && k <= |rows| && k <= |other| && other[..k] == rows[..k]
    ensures forall i :: 0 <= i < k ==> LinkOk(sha, other, i)
  {
    hide Preimage;
    forall i | 0 <= i < k ensures LinkOk(sha, other, i) {
      assert LinkOk(sha, rows, i);
      assert other[i] == other[..k][i] == rows[..k][i];
      if i > 0 { assert other[i-1] == other[..k][i-1] == rows[..k][i-1]; }
    }
  }

  lemma {:induction false} LinkedRearrangement(sha: Digest, rows: seq<AuditRow>, other: seq<AuditRow>)
    requires HexDigest(sha) && Linked(sha, rows) && WfRows(rows)
    requires Linked(sha, other) && forall r :: r in other ==> r in rows
    ensures Collision(sha, rows) || other <= rows
    decreases |other|
  {
    hide Preimage;
    if other != [] {
      var n := |other| - 1;
      LinkedPrefix(sha, other, n);
      LinkedRearrangement(sha, rows, other[..n]);
      if !Collision(sha, rows) {
        assert other[n] in rows && LinkOk(sha, other, n);
        var k :| 0 <= k < |rows| && rows[k] == other[n];
        HashIsDigest(sha, rows, k);
        HashIsDigest(sha, other, n);
        assert LinkOk(sha, rows, k);
        if n > 0 {
          assert other[n-1] == other[..n][n-1] == rows[n-1];
          if k < n { DigestsDistinct(sha, rows, k - 1, n - 1); }
          if k > n { DigestsDistinct(sha, rows, n - 1, k - 1); }
        }
        assert k == n;
        assert other == other[..n] + [rows[n]];
      }
    }
  }

  /** However the rows of a valid chain are dropped, repeated or reordered, the result is
    * accepted exactly when it is the chain with a suffix dropped. */
  lemma RearrangementIsPrefix(sha: Digest, rows: seq<AuditRow>, other: seq<AuditRow>)
    requires HexDigest(sha) && Linked(sha, rows) && WfRows(rows)
    requires forall r :: r in other ==> r in rows
    ensures Collision(sha, rows) || (Linked(sha, other) <==> other <= rows)
  {
    hide Preimage;
    if other <= rows {
      LinkedPrefix(sha, rows, |other|);
      assert other == rows[..|other|];
    }
    if Linked(sha, other) { LinkedRearrangement(sha, rows, other); }
  }
}
