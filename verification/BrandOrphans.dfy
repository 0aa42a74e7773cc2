/** Objects that no theme names: exactly when uploads that all run to their end leave one behind
  * (backend/src/modules/branding/brand-theme.service.ts:108-121). */
module BrandOrphans {
  import opened JsonValues
  import opened BrandTheme
  import opened BrandAssets

  ghost predicate Named(rows: map<string, Theme>, key: string) {
    exists o, a :: Ref(rows, o, a) == Some(key)
  }

  predicate InSlot(p: Phase, org: string, asset: Asset) {
    p.org == org && p.asset == asset
  }

  /** The upload of this slot has read the row and not yet written it. */
  predicate Writing(p: Phase, org: string, asset: Asset) {
    !p.Wrote? && InSlot(p, org, asset)
  }

  function ReadingOf(p: Phase): Reading {
    Reading(p.org, p.asset, p.previous)
  }

  /** No two uploads of one asset found the same key in the row. */
  ghost predicate AllReadingsDiffer(s: State) {
    forall i, j | 0 <= i < j < |s.readings| :: s.readings[i] != s.readings[j]
  }

  // ---------------------------------------------------------------- what the readings say

  ghost predicate ReadingOk(s: State, r: Reading) {
    (r.previous.Some? ==>
       r.previous.value in s.issued && Ref(s.rows, r.org, r.asset).Some? &&
       (forall u | u in s.uploads && s.uploads[u].Stored? :: s.uploads[u].key != r.previous.value)) &&
    (r.previous == Ref(s.rows, r.org, r.asset) ==>
       exists u :: u in s.uploads && !s.uploads[u].Wrote? && ReadingOf(s.uploads[u]) == r)
  }

  /** Every open upload's reading is recorded, and while the row still holds what an upload found, that upload
    * has yet to write. */
  ghost predicate Tracked(s: State) {
    (forall u | u in s.uploads :: ReadingOf(s.uploads[u]) in s.readings) &&
    (forall r | r in s.readings :: ReadingOk(s, r))
  }

  lemma TrackStep(s: State, a: Action)
    requires Inv(s) && Tracked(s) && Enabled(s, a) && !a.Stop?
    ensures Tracked(Next(s, a))
  {
    hide Upserted, AssetChange, IsDto, Ref, Inv;
    var s' := Next(s, a);
    match a
    case Begin(u, org, asset) => TrackBegin(s, u, org, asset);
    case Store(u, key) =>
      forall r | r in s'.readings ensures ReadingOk(s', r) {
        assert ReadingOk(s, r);
        if v :| v in s.uploads && !s.uploads[v].Wrote? && ReadingOf(s.uploads[v]) == r {
          assert ReadingOf(s'.uploads[v]) == r;
        }
      }
    case WriteRow(u, freshId, now) => TrackWrite(s, u, freshId, now);
    case DeleteOld(u) =>
      forall r | r in s'.readings ensures ReadingOk(s', r) {
        assert ReadingOk(s, r);
        if v :| v in s.uploads && !s.uploads[v].Wrote? && ReadingOf(s.uploads[v]) == r {
          assert v in s'.uploads;
        }
      }
    case UpdateRow(org, dto, freshId, now) =>
      UpdateMovesNoSlot(s.rows, org, dto, freshId, now);
      forall r | r in s'.readings ensures ReadingOk(s', r) { assert ReadingOk(s, r); }
  }

  lemma TrackBegin(s: State, u: nat, org: string, asset: Asset)
    requires Inv(s) && Tracked(s) && Enabled(s, Begin(u, org, asset))
    ensures Tracked(Next(s, Begin(u, org, asset)))
  {
    hide Ref;
    var s' := Next(s, Begin(u, org, asset));
    var mine := Reading(org, asset, Ref(s.rows, org, asset));
    assert ReadingOf(s'.uploads[u]) == mine;
    forall r | r in s'.readings ensures ReadingOk(s', r) {
      if r != mine {
        assert r in s.readings && ReadingOk(s, r);
        if v :| v in s.uploads && !s.uploads[v].Wrote? && ReadingOf(s.uploads[v]) == r {
          assert s'.uploads[v] == s.uploads[v];
        }
      } else {
        forall v | v in s.uploads && s.uploads[v].Stored? && mine.previous.Some?
          ensures s.uploads[v].key != mine.previous.value
        {
          assert UploadOk(s, v);
        }
      }
    }
  }

  lemma TrackWrite(s: State, u: nat, freshId: string, now: int)
    requires Inv(s) && Tracked(s) && Enabled(s, WriteRow(u, freshId, now))
    ensures Tracked(Next(s, WriteRow(u, freshId, now)))
  {
    hide Upserted, AssetChange, Ref, Inv;
    var p, s' := s.uploads[u], Next(s, WriteRow(u, freshId, now));
    WriteMovesOneSlot(s.rows, p.org, p.asset, p.key, freshId, now);
    assert ReadingOf(s'.uploads[u]) == ReadingOf(p);
    forall r | r in s'.readings ensures ReadingOk(s', r) {
      assert ReadingOk(s, r);
      if r.previous == Ref(s'.rows, r.org, r.asset) {
        assert (r.org, r.asset) != (p.org, p.asset);
        var v :| v in s.uploads && !s.uploads[v].Wrote? && ReadingOf(s.uploads[v]) == r;
        assert s'.uploads[v] == s.uploads[v];
      }
    }
  }

  // ---------------------------------------------------------------- different readings leave no orphan

  predicate Pending(p: Phase, key: string) {
    (p.Stored? && p.key == key) || (p.Wrote? && p.previous == Some(key))
  }

  /** An asset is being written by one upload at most, which replaces what the row holds, and every stored object
    * is named by a theme or about to be named or deleted. */
  ghost predicate Accounted(s: State) {
    (forall u | u in s.uploads && !s.uploads[u].Wrote? :: MayWrite(s, u)) &&
    forall key | key in s.storage ::
      Named(s.rows, key) || exists u :: u in s.uploads && Pending(s.uploads[u], key)
  }

  ghost predicate MayWrite(s: State, u: nat)
    requires u in s.uploads
  {
    var p := s.uploads[u];
    p.previous == Ref(s.rows, p.org, p.asset) &&
    forall v | v in s.uploads && Writing(s.uploads[v], p.org, p.asset) :: v == u
  }

  /** The action abandons no upload, and begins one only of an asset that no open upload has yet to write. */
  predicate Calm(s: State, a: Action) {
    !a.Stop? && (a.Begin? ==> forall u | u in s.uploads :: !Writing(s.uploads[u], a.org, a.asset))
  }

  lemma CalmStep(s: State, a: Action)
    requires Inv(s) && Accounted(s) && Enabled(s, a) && Calm(s, a)
    ensures Accounted(Next(s, a))
  {
    hide Upserted, AssetChange, IsDto, Ref, Inv;
    var s' := Next(s, a);
    match a
    case Begin(u, org, asset) =>
      forall v | v in s'.uploads && !s'.uploads[v].Wrote? ensures MayWrite(s', v) {
        if v != u { assert MayWrite(s, v); }
      }
      forall k | k in s'.storage ensures Named(s'.rows, k) || exists v :: v in s'.uploads && Pending(s'.uploads[v], k) {
        if v :| v in s.uploads && Pending(s.uploads[v], k) { assert Pending(s'.uploads[v], k); }
      }
    case Store(u, key) => CalmStore(s, u, key);
    case WriteRow(u, freshId, now) => CalmWrite(s, u, freshId, now);
    case DeleteOld(u) =>
      forall v | v in s'.uploads && !s'.uploads[v].Wrote? ensures MayWrite(s', v) { assert MayWrite(s, v); }
      forall k | k in s'.storage ensures Named(s'.rows, k) || exists v :: v in s'.uploads && Pending(s'.uploads[v], k) {
        if v :| v in s.uploads && Pending(s.uploads[v], k) { assert v != u && Pending(s'.uploads[v], k); }
      }
    case UpdateRow(org, dto, freshId, now) =>
      UpdateMovesNoSlot(s.rows, org, dto, freshId, now);
      forall v | v in s'.uploads && !s'.uploads[v].Wrote? ensures MayWrite(s', v) { assert MayWrite(s, v); }
      forall k | Named(s.rows, k) ensures Named(s'.rows, k) {
        var o, b :| Ref(s.rows, o, b) == Some(k);
        assert Ref(s'.rows, o, b) == Some(k);
      }
  }

  lemma CalmStore(s: State, u: nat, key: string)
    requires Accounted(s) && Enabled(s, Store(u, key))
    ensures Accounted(Next(s, Store(u, key)))
  {
    hide Ref;
    var s' := Next(s, Store(u, key));
    forall v | v in s'.uploads && !s'.uploads[v].Wrote? ensures MayWrite(s', v) { assert MayWrite(s, v); }
    forall k | k in s'.storage ensures Named(s'.rows, k) || exists v :: v in s'.uploads && Pending(s'.uploads[v], k) {
      if k == key {
        assert Pending(s'.uploads[u], key);
      } else if v :| v in s.uploads && Pending(s.uploads[v], k) {
        assert Pending(s'.uploads[v], k);
      }
    }
  }

  lemma CalmWrite(s: State, u: nat, freshId: string, now: int)
    requires Inv(s) && Accounted(s) && Enabled(s, WriteRow(u, freshId, now))
    ensures Accounted(Next(s, WriteRow(u, freshId, now)))
  {
    hide Upserted, AssetChange, Ref, Inv;
    var p, s' := s.uploads[u], Next(s, WriteRow(u, freshId, now));
    WriteMovesOneSlot(s.rows, p.org, p.asset, p.key, freshId, now);
    assert MayWrite(s, u);
    forall v | v in s'.uploads && !s'.uploads[v].Wrote? ensures MayWrite(s', v) { assert MayWrite(s, v); }
    forall k | k in s'.storage ensures Named(s'.rows, k) || exists v :: v in s'.uploads && Pending(s'.uploads[v], k) {
      if Some(k) == p.previous {
        assert Pending(s'.uploads[u], k);
      } else if o, b :| Ref(s.rows, o, b) == Some(k) {
        assert Ref(s'.rows, o, b) == Some(k);
      } else if k == p.key {
        assert Ref(s'.rows, p.org, p.asset) == Some(k);
      } else {
        var v :| v in s.uploads && Pending(s.uploads[v], k);
        assert v != u && Pending(s'.uploads[v], k);
      }
    }
  }

  /** An upload whose reading differs from all earlier ones begins when nobody has yet to write the asset. */
  lemma DifferentReadingIsCalm(s: State, a: Action)
    requires Tracked(s) && Accounted(s) && Enabled(s, a) && !a.Stop? && AllReadingsDiffer(Next(s, a))
    ensures Calm(s, a)
  {
    hide Ref, ReadingOk;
    if a.Begin? {
      LastReadingDiffers(s, a);
      forall u | u in s.uploads ensures !Writing(s.uploads[u], a.org, a.asset) {
        assert !s.uploads[u].Wrote? ==> MayWrite(s, u);
      }
    }
  }

  lemma LastReadingDiffers(s: State, a: Action)
    requires Enabled(s, a) && a.Begin? && AllReadingsDiffer(Next(s, a))
    ensures Reading(a.org, a.asset, Ref(s.rows, a.org, a.asset)) !in s.readings
  {
    hide Ref;
    var readings := Next(s, a).readings;
    forall i | 0 <= i < |s.readings| ensures s.readings[i] != Reading(a.org, a.asset, Ref(s.rows, a.org, a.asset)) {
      assert readings[i] == s.readings[i] && readings[i] != readings[|s.readings|];
    }
  }

  // ---------------------------------------------------------------- a shared reading leaves one

  /** Stored, named by no theme, and held by no open upload. */
  ghost predicate Orphan(s: State, key: string) {
    key in s.storage && key in s.issued && Unreferenced(s.rows, key) &&
    forall u | u in s.uploads :: !(s.uploads[u].Stored? && s.uploads[u].key == key) && s.uploads[u].previous != Some(key)
  }

  /** An upload that has yet to write will not replace what it found: the row has moved on, or another upload
    * of the asset is about to write as well. */
  ghost predicate Doomed(s: State, u: nat) {
    u in s.uploads && !s.uploads[u].Wrote? && !MayWrite(s, u)
  }

  ghost predicate Lossy(s: State) {
    (exists u :: Doomed(s, u)) || (exists key :: Orphan(s, key))
  }

  lemma OrphanStays(s: State, a: Action, key: string)
    requires Inv(s) && Orphan(s, key) && Enabled(s, a)
    ensures Orphan(Next(s, a), key)
  {
    hide Upserted, AssetChange, IsDto, Ref, Inv;
    match a
    case WriteRow(u, freshId, now) =>
      var p := s.uploads[u];
      WriteMovesOneSlot(s.rows, p.org, p.asset, p.key, freshId, now);
    case UpdateRow(org, dto, freshId, now) =>
      UpdateMovesNoSlot(s.rows, org, dto, freshId, now);
    case _ =>
  }

  lemma DoomedStays(s: State, a: Action, u: nat)
    requires Inv(s) && Doomed(s, u) && Enabled(s, a) && !a.Stop? && !a.WriteRow?
    ensures Doomed(Next(s, a), u)
  {
    hide Upserted, AssetChange, IsDto, Ref, Inv;
    var p, s' := s.uploads[u], Next(s, a);
    if a.UpdateRow? { UpdateMovesNoSlot(s.rows, a.org, a.dto, a.freshId, a.now); }
    if v :| v in s.uploads && Writing(s.uploads[v], p.org, p.asset) && v != u {
      assert v in s'.uploads && Writing(s'.uploads[v], p.org, p.asset);
    }
  }

  /** A write that replaces something else than it found, or runs against another, leaves an upload that will do
    * so in turn, or an object nobody will delete. */
  lemma LossyWrite(s: State, u: nat, freshId: string, now: int)
    requires Inv(s) && Tracked(s) && Lossy(s) && Enabled(s, WriteRow(u, freshId, now))
    ensures Lossy(Next(s, WriteRow(u, freshId, now)))
  {
    var p, s' := s.uploads[u], Next(s, WriteRow(u, freshId, now));
    if key :| Orphan(s, key) {
      OrphanStays(s, WriteRow(u, freshId, now), key);
    } else if v :| v in s.uploads && v != u && Writing(s.uploads[v], p.org, p.asset) {
      LeftBehind(s, u, v, freshId, now);
    } else {
      var d :| Doomed(s, d);
      if d == u { ReplacedIsOrphan(s, u, freshId, now); } else { DoomedElsewhere(s, u, d, freshId, now); }
    }
  }

  lemma LeftBehind(s: State, u: nat, v: nat, freshId: string, now: int)
    requires Inv(s) && Enabled(s, WriteRow(u, freshId, now)) && v in s.uploads && v != u
    requires Writing(s.uploads[v], s.uploads[u].org, s.uploads[u].asset)
    ensures Doomed(Next(s, WriteRow(u, freshId, now)), v)
  {
    hide Upserted, AssetChange, Ref;
    var p := s.uploads[u];
    WriteMovesOneSlot(s.rows, p.org, p.asset, p.key, freshId, now);
    assert UploadOk(s, v);
  }

  lemma DoomedElsewhere(s: State, u: nat, d: nat, freshId: string, now: int)
    requires Inv(s) && Enabled(s, WriteRow(u, freshId, now)) && Doomed(s, d) && d != u
    requires !Writing(s.uploads[d], s.uploads[u].org, s.uploads[u].asset)
    ensures Doomed(Next(s, WriteRow(u, freshId, now)), d)
  {
    hide Upserted, AssetChange, Ref, Inv;
    var p, q, s' := s.uploads[u], s.uploads[d], Next(s, WriteRow(u, freshId, now));
    WriteMovesOneSlot(s.rows, p.org, p.asset, p.key, freshId, now);
    if v :| v in s.uploads && Writing(s.uploads[v], q.org, q.asset) && v != d {
      assert v in s'.uploads && Writing(s'.uploads[v], q.org, q.asset);
    }
  }

  lemma ReplacedIsOrphan(s: State, u: nat, freshId: string, now: int)
    requires Inv(s) && Tracked(s) && Enabled(s, WriteRow(u, freshId, now)) && Doomed(s, u)
    requires forall v | v in s.uploads && Writing(s.uploads[v], s.uploads[u].org, s.uploads[u].asset) :: v == u
    ensures exists key :: Orphan(Next(s, WriteRow(u, freshId, now)), key)
  {
    hide Upserted, AssetChange, Ref;
    var p, s' := s.uploads[u], Next(s, WriteRow(u, freshId, now));
    WriteMovesOneSlot(s.rows, p.org, p.asset, p.key, freshId, now);
    var was := Ref(s.rows, p.org, p.asset);
    assert ReadingOk(s, ReadingOf(p)) && UploadOk(s, u);
    assert was != p.previous;
    FirstReadingIsFirst(s, u);
    assert was.Some?;
    forall v | v in s'.uploads
      ensures !(s'.uploads[v].Stored? && s'.uploads[v].key == was.value) && s'.uploads[v].previous != was
    {
      assert UploadOk(s, v);
    }
    assert Orphan(s', was.value);
  }

  lemma FirstReadingIsFirst(s: State, u: nat)
    requires Tracked(s) && u in s.uploads
    requires s.uploads[u].previous != Ref(s.rows, s.uploads[u].org, s.uploads[u].asset)
    ensures Ref(s.rows, s.uploads[u].org, s.uploads[u].asset).Some?
  {
    hide Ref;
    assert ReadingOk(s, ReadingOf(s.uploads[u]));
  }

  lemma LossyStep(s: State, a: Action)
    requires Inv(s) && Tracked(s) && Lossy(s) && Enabled(s, a) && !a.Stop?
    ensures Lossy(Next(s, a))
  {
    hide Inv, Tracked, Enabled, Next, Doomed, Orphan;
    if a.WriteRow? {
      LossyWrite(s, a.upload, a.freshId, a.now);
    } else if key :| Orphan(s, key) {
      OrphanStays(s, a, key);
    } else {
      var u :| Doomed(s, u);
      DoomedStays(s, a, u);
    }
  }

  /** The second upload to find the same key begins while the first has yet to write. */
  lemma SharedReadingIsLossy(s: State, a: Action)
    requires Tracked(s) && Enabled(s, a) && AllReadingsDiffer(s) && !AllReadingsDiffer(Next(s, a))
    ensures Lossy(Next(s, a))
  {
    hide Ref;
    var s' := Next(s, a);
    assert a.Begin?;
    var mine := Reading(a.org, a.asset, Ref(s.rows, a.org, a.asset));
    var i, j :| 0 <= i < j < |s'.readings| && s'.readings[i] == s'.readings[j];
    assert j == |s.readings| && s.readings[i] == mine;
    assert ReadingOk(s, mine);
    var v :| v in s.uploads && !s.uploads[v].Wrote? && ReadingOf(s.uploads[v]) == mine;
    assert Writing(s'.uploads[v], a.org, a.asset) && v != a.upload;
    assert Doomed(s', a.upload);
  }

  // ---------------------------------------------------------------- whole runs

  ghost predicate Balance(s: State) {
    Inv(s) && Tracked(s) && if AllReadingsDiffer(s) then Accounted(s) else Lossy(s)
  }

  lemma BalanceStep(s: State, a: Action)
    requires Balance(s) && Enabled(s, a) && !a.Stop?
    ensures Balance(Next(s, a))
  {
    StepKeeps(s, a);
    TrackStep(s, a);
    ReadingsGrow(s, a);
    hide Inv, Tracked, Enabled, Next, Accounted, Lossy, Calm, AllReadingsDiffer;
    if AllReadingsDiffer(Next(s, a)) {
      DifferentReadingIsCalm(s, a);
      CalmStep(s, a);
    } else if AllReadingsDiffer(s) {
      SharedReadingIsLossy(s, a);
    } else {
      LossyStep(s, a);
    }
  }

  lemma ReadingsGrow(s: State, a: Action)
    requires Enabled(s, a)
    ensures AllReadingsDiffer(Next(s, a)) ==> AllReadingsDiffer(s)
  {
    var s' := Next(s, a);
    assert forall i | 0 <= i < |s.readings| :: s'.readings[i] == s.readings[i];
  }

  ghost predicate NoStop(acts: seq<Action>) {
    forall a: Action | a in acts :: !a.Stop?
  }

  lemma {:induction false} BalanceKept(s: State, acts: seq<Action>)
    requires Balance(s) && CanRun(s, acts) && NoStop(acts)
    ensures Balance(After(s, acts))
    decreases |acts|
  {
    if acts != [] {
      hide Balance, Enabled, Next;
      BalanceStep(s, acts[0]);
      BalanceKept(Next(s, acts[0]), acts[1..]);
    }
  }

  /** Storage holds exactly the keys the themes refer to. */
  ghost predicate Exact(s: State) {
    forall key :: key in s.storage <==> Named(s.rows, key)
  }

  /** Uploads that all run to their end, however they interleave, leave in storage exactly the keys the themes
    * refer to if and only if no two uploads of one asset found the same key in the row. */
  lemma StorageExactly(acts: seq<Action>)
    requires CanRun(EMPTY, acts) && NoStop(acts) && After(EMPTY, acts).uploads == map[]
    ensures Exact(After(EMPTY, acts)) <==> AllReadingsDiffer(After(EMPTY, acts))
  {
    hide Ref;
    StartOk();
    BalanceKept(EMPTY, acts);
    var s := After(EMPTY, acts);
    if AllReadingsDiffer(s) {
      forall key ensures key in s.storage <==> Named(s.rows, key) {}
    } else {
      var key :| Orphan(s, key);
      assert !Named(s.rows, key);
    }
  }

  ghost predicate CalmRun(s: State, acts: seq<Action>)
    requires CanRun(s, acts)
    decreases |acts|
  {
    acts == [] || (Calm(s, acts[0]) && CalmRun(Next(s, acts[0]), acts[1..]))
  }

  lemma {:induction false} CalmKeeps(s: State, acts: seq<Action>)
    requires Inv(s) && Accounted(s) && CanRun(s, acts) && CalmRun(s, acts)
    ensures Accounted(After(s, acts)) && Inv(After(s, acts))
    decreases |acts|
  {
    if acts != [] {
      hide Inv, Accounted, Enabled, Next, Calm;
      StepKeeps(s, acts[0]);
      CalmStep(s, acts[0]);
      CalmKeeps(Next(s, acts[0]), acts[1..]);
    }
  }

  /** In particular when no upload of an asset begins while another has yet to write it, whatever uploads of
    * other assets and organizations do. */
  lemma CalmRunsLeaveReferencedKeys(acts: seq<Action>)
    requires CanRun(EMPTY, acts) && CalmRun(EMPTY, acts) && After(EMPTY, acts).uploads == map[]
    ensures Exact(After(EMPTY, acts))
  {
    hide Ref;
    StartOk();
    CalmKeeps(EMPTY, acts);
  }

  // ---------------------------------------------------------------- a run that leaves an orphan

  lemma Last(s: State, a: Action)
    requires Enabled(s, a)
    ensures CanRun(s, [a]) && After(s, [a]) == Next(s, a)
  {
    assert [a][1..] == [];
  }

  lemma Cons(s: State, a: Action, rest: seq<Action>)
    requires Enabled(s, a) && CanRun(Next(s, a), rest)
    ensures CanRun(s, [a] + rest) && After(s, [a] + rest) == After(Next(s, a), rest)
  {
    assert ([a] + rest)[1..] == rest;
  }

  /** What a step does to the uploads, the readings and the issued keys. */
  lemma Advances(s: State, a: Action)
    requires Enabled(s, a)
    ensures var s' := Next(s, a);
      match a
      case Begin(u, org, asset) =>
        s'.uploads == s.uploads[u := Read(org, asset, Ref(s.rows, org, asset))] && s'.rows == s.rows &&
        s'.readings == s.readings + [Reading(org, asset, Ref(s.rows, org, asset))] && s'.issued == s.issued
      case Store(u, key) =>
        var p := s.uploads[u];
        s'.uploads == s.uploads[u := Phase.Stored(p.org, p.asset, p.previous, key)] &&
        s'.readings == s.readings && s'.issued == s.issued + {key}
      case WriteRow(u, _, _) =>
        var p := s.uploads[u];
        s'.uploads == s.uploads[u := Wrote(p.org, p.asset, p.previous)] && s'.readings == s.readings
      case DeleteOld(u) => s'.uploads == s.uploads - {u} && s'.readings == s.readings
      case _ => true
  {
    hide Upserted, Ref;
  }

  const DELETES: seq<Action> := [DeleteOld(1)] + [DeleteOld(2)]
  const WRITES: seq<Action> := [WriteRow(1, "row", 0)] + ([WriteRow(2, "row", 0)] + DELETES)
  const STORES: seq<Action> := [Store(1, "1")] + ([Store(2, "2")] + WRITES)

  lemma Deletes(s: State, org: string)
    requires s.uploads == map[1 := Wrote(org, Logo, None), 2 := Wrote(org, Logo, None)]
    ensures CanRun(s, DELETES) && After(s, DELETES).uploads == map[] && After(s, DELETES).readings == s.readings
  {
    hide Next, CanRun, After;
    var s1 := Next(s, DeleteOld(1));
    Advances(s, DeleteOld(1));
    Advances(s1, DeleteOld(2));
    assert s1.uploads - {2} == map[];
    Last(s1, DeleteOld(2));
    Cons(s, DeleteOld(1), [DeleteOld(2)]);
  }

  lemma Writes(s: State, org: string)
    requires s.uploads == map[1 := Phase.Stored(org, Logo, None, "1"), 2 := Phase.Stored(org, Logo, None, "2")]
    ensures CanRun(s, WRITES) && After(s, WRITES).uploads == map[] && After(s, WRITES).readings == s.readings
  {
    hide Next, CanRun, After;
    var s1 := Next(s, WriteRow(1, "row", 0));
    Advances(s, WriteRow(1, "row", 0));
    var s2 := Next(s1, WriteRow(2, "row", 0));
    Advances(s1, WriteRow(2, "row", 0));
    Deletes(s2, org);
    Cons(s1, WriteRow(2, "row", 0), DELETES);
    Cons(s, WriteRow(1, "row", 0), [WriteRow(2, "row", 0)] + DELETES);
  }

  lemma Stores(s: State, org: string)
    requires s.uploads == map[1 := Read(org, Logo, None), 2 := Read(org, Logo, None)] && s.issued == {}
    ensures CanRun(s, STORES) && After(s, STORES).uploads == map[] && After(s, STORES).readings == s.readings
  {
    hide Next, CanRun, After;
    var s1 := Next(s, Store(1, "1"));
    Advances(s, Store(1, "1"));
    assert "2" !in s1.issued;
    var s2 := Next(s1, Store(2, "2"));
    Advances(s1, Store(2, "2"));
    Writes(s2, org);
    Cons(s1, Store(2, "2"), WRITES);
    Cons(s, Store(1, "1"), [Store(2, "2")] + WRITES);
  }

  function Overlap(org: string): seq<Action> {
    [Begin(1, org, Logo)] + ([Begin(2, org, Logo)] + STORES)
  }

  lemma OverlapRuns(org: string)
    ensures CanRun(EMPTY, Overlap(org)) && After(EMPTY, Overlap(org)).uploads == map[]
    ensures After(EMPTY, Overlap(org)).readings == [Reading(org, Logo, None), Reading(org, Logo, None)]
  {
    assert Ref(EMPTY.rows, org, Logo) == None;
    hide Next, CanRun, After, Ref, STORES;
    var s1 := Next(EMPTY, Begin(1, org, Logo));
    Advances(EMPTY, Begin(1, org, Logo));
    var s2 := Next(s1, Begin(2, org, Logo));
    Advances(s1, Begin(2, org, Logo));
    Stores(s2, org);
    Cons(s1, Begin(2, org, Logo), STORES);
    Cons(EMPTY, Begin(1, org, Logo), [Begin(2, org, Logo)] + STORES);
  }

  lemma OverlapHasNoStop(org: string)
    ensures NoStop(Overlap(org))
  {
    assert NoStop(DELETES) && NoStop(WRITES);
    assert NoStop(STORES);
  }

  /** Two first uploads of one logo that overlap and both succeed leave an orphan. */
  lemma OverlapLeavesOrphan(org: string)
    ensures CanRun(EMPTY, Overlap(org)) && NoStop(Overlap(org)) && After(EMPTY, Overlap(org)).uploads == map[]
    ensures !Exact(After(EMPTY, Overlap(org)))
  {
    OverlapRuns(org);
    OverlapHasNoStop(org);
    hide Overlap, CanRun, After, Exact;
    var readings := After(EMPTY, Overlap(org)).readings;
    assert readings[0] == readings[1];
    StorageExactly(Overlap(org));
  }
}
