/** Uploads of brand assets that interleave and may stop between any two steps
  * (backend/src/modules/branding/brand-theme.service.ts:108-121): no theme ever names an object that
  * is not in storage. */
module BrandAssets {
  import opened JsonValues
  import opened BrandTheme

  /** Where an upload stands: it has read the row, stored the new object, or written the row. */
  datatype Phase =
    | Read(org: string, asset: Asset, previous: Option<string>)
    | Stored(org: string, asset: Asset, previous: Option<string>, key: string)
    | Wrote(org: string, asset: Asset, previous: Option<string>)

  /** An upload of an asset found this storage key in the row when it began. */
  datatype Reading = Reading(org: string, asset: Asset, previous: Option<string>)

  /** `issued` are the storage keys generated so far, and `readings` what each upload begun so far found. */
  datatype State = State(rows: map<string, Theme>, storage: set<string>, uploads: map<nat, Phase>, issued: set<string>,
                         readings: seq<Reading>)

  datatype Action =
    | Begin(upload: nat, org: string, asset: Asset)
    | Store(upload: nat, key: string)
    | WriteRow(upload: nat, freshId: string, now: int)
    | DeleteOld(upload: nat)
    | Stop(upload: nat)
    | UpdateRow(org: string, dto: Upsert, freshId: string, now: int)

  predicate Enabled(s: State, a: Action) {
    match a
    case Begin(u, _, _) => u !in s.uploads
    case Store(u, key) => u in s.uploads && s.uploads[u].Read? && key !in s.issued
    case WriteRow(u, _, _) => u in s.uploads && s.uploads[u].Stored?
    case DeleteOld(u) => u in s.uploads && s.uploads[u].Wrote?
    case Stop(u) => u in s.uploads
    case UpdateRow(_, dto, _, _) => IsDto(dto)
  }

  function Next(s: State, a: Action): State
    requires Enabled(s, a)
  {
    match a
    case Begin(u, org, asset) =>
      var previous := Ref(s.rows, org, asset);
      s.(uploads := s.uploads[u := Read(org, asset, previous)], readings := s.readings + [Reading(org, asset, previous)])
    case Store(u, key) =>
      var p := s.uploads[u];
      s.(storage := s.storage + {key}, issued := s.issued + {key},
         uploads := s.uploads[u := Phase.Stored(p.org, p.asset, p.previous, key)])
    case WriteRow(u, freshId, now) =>
      var p := s.uploads[u];
      s.(rows := s.rows[p.org := Upserted(s.rows, p.org, AssetChange(p.asset, p.key), freshId, now)],
         uploads := s.uploads[u := Wrote(p.org, p.asset, p.previous)])
    case DeleteOld(u) =>
      var p := s.uploads[u];
      s.(storage := if p.previous.Some? then s.storage - {p.previous.value} else s.storage,
         uploads := s.uploads - {u})
    case Stop(u) => s.(uploads := s.uploads - {u})
    case UpdateRow(org, dto, freshId, now) =>
      s.(rows := s.rows[org := Upserted(s.rows, org, dto, freshId, now)])
  }

  /** Nothing in between: the steps of one upload do what an undisturbed one does, and one that stops before it has written
    * its row leaves the rows alone. */
  lemma StepsAreUpload(s: State, u: nat, org: string, asset: Asset, key: string, freshId: string, now: int)
    requires u !in s.uploads && key !in s.issued
    ensures
      var begun := Next(s, Begin(u, org, asset));
      Enabled(begun, Store(u, key)) &&
      var stored := Next(begun, Store(u, key));
      Enabled(stored, WriteRow(u, freshId, now)) && key in stored.storage && stored.rows == s.rows &&
      Enabled(stored, Stop(u)) && Next(stored, Stop(u)) == stored.(uploads := s.uploads) &&
      var wrote := Next(stored, WriteRow(u, freshId, now));
      Enabled(wrote, DeleteOld(u)) && wrote.storage == stored.storage &&
      var done := Next(wrote, DeleteOld(u));
      done.rows == s.rows[org := Upserted(s.rows, org, AssetChange(asset, key), freshId, now)] &&
      done.storage == s.storage + {key} - OldKey(s.rows, org, asset) && done.uploads == s.uploads
  {
    hide Upserted, AssetChange, Ref;
    var done := Next(Next(Next(Next(s, Begin(u, org, asset)), Store(u, key)), WriteRow(u, freshId, now)), DeleteOld(u));
    assert done.uploads == s.uploads;
    assert Next(Next(Next(s, Begin(u, org, asset)), Store(u, key)), Stop(u)).uploads == s.uploads;
  }

  /** And the step of an update writes the organization's row and nothing else. */
  lemma StepIsUpdate(s: State, org: string, dto: Upsert, freshId: string, now: int)
    requires IsDto(dto)
    ensures Next(s, UpdateRow(org, dto, freshId, now)) == s.(rows := s.rows[org := Upserted(s.rows, org, dto, freshId, now)])
  {}

  /** No slot refers to `key`, except possibly (`org`, `asset`). */
  ghost predicate OnlyIn(rows: map<string, Theme>, key: string, org: string, asset: Asset) {
    forall o, a | Ref(rows, o, a) == Some(key) :: o == org && a == asset
  }

  ghost predicate Unreferenced(rows: map<string, Theme>, key: string) {
    forall o, a :: Ref(rows, o, a) != Some(key)
  }

  /** What an open upload may rely on: its new object is stored and still its own, and the object it
    * replaces is named by no slot but the one it is replacing, and by none once it has written. */
  ghost predicate UploadOk(s: State, u: nat)
    requires u in s.uploads
  {
    var p := s.uploads[u];
    (p.previous.Some? ==>
       p.previous.value in s.issued && OnlyIn(s.rows, p.previous.value, p.org, p.asset) &&
       (forall v | v in s.uploads && s.uploads[v].Stored? :: s.uploads[v].key != p.previous.value)) &&
    (p.Stored? ==>
       p.key in s.storage && p.key in s.issued && Unreferenced(s.rows, p.key) &&
       (forall v | v in s.uploads && v != u && s.uploads[v].Stored? :: s.uploads[v].key != p.key)) &&
    (p.Wrote? && p.previous.Some? ==> Unreferenced(s.rows, p.previous.value))
  }

  ghost predicate Inv(s: State) {
    NoDangling(s.rows, s.storage) && Unshared(s.rows) &&
    (forall o, a | Ref(s.rows, o, a).Some? :: Ref(s.rows, o, a).value in s.issued) &&
    forall u | u in s.uploads :: UploadOk(s, u)
  }

  /** Writing one asset moves that slot to the new key and no other. */
  lemma WriteMovesOneSlot(rows: map<string, Theme>, org: string, asset: Asset, key: string, freshId: string, now: int)
    ensures var rows' := rows[org := Upserted(rows, org, AssetChange(asset, key), freshId, now)];
      Ref(rows', org, asset) == Some(key) &&
      forall o, a | (o, a) != (org, asset) :: Ref(rows', o, a) == Ref(rows, o, a)
  {}

  lemma UpdateMovesNoSlot(rows: map<string, Theme>, org: string, dto: Upsert, freshId: string, now: int)
    requires IsDto(dto)
    ensures var rows' := rows[org := Upserted(rows, org, dto, freshId, now)];
      forall o, a :: Ref(rows', o, a) == Ref(rows, o, a)
  {}

  lemma StepKeeps(s: State, a: Action)
    requires Inv(s) && Enabled(s, a)
    ensures Inv(Next(s, a))
  {
    hide Upserted, AssetChange, IsDto, Ref;
    match a
    case Begin(u, org, asset) =>
    case Store(u, key) =>
    case WriteRow(u, freshId, now) => WriteKeeps(s, u, freshId, now);
    case DeleteOld(u) => DeleteKeeps(s, u);
    case Stop(u) =>
    case UpdateRow(org, dto, freshId, now) =>
      UpdateMovesNoSlot(s.rows, org, dto, freshId, now);
  }

  lemma WriteKeeps(s: State, u: nat, freshId: string, now: int)
    requires Inv(s) && Enabled(s, WriteRow(u, freshId, now))
    ensures Inv(Next(s, WriteRow(u, freshId, now)))
  {
    hide Upserted, AssetChange, Ref;
    var p, s' := s.uploads[u], Next(s, WriteRow(u, freshId, now));
    assert UploadOk(s, u);
    WriteMovesOneSlot(s.rows, p.org, p.asset, p.key, freshId, now);
    forall v | v in s'.uploads ensures UploadOk(s', v) { assert UploadOk(s, v); }
  }

  lemma DeleteKeeps(s: State, u: nat)
    requires Inv(s) && Enabled(s, DeleteOld(u))
    ensures Inv(Next(s, DeleteOld(u)))
  {}

  // ---------------------------------------------------------------- whole runs

  ghost predicate CanRun(s: State, acts: seq<Action>)
    decreases |acts|
  {
    acts == [] || (Enabled(s, acts[0]) && CanRun(Next(s, acts[0]), acts[1..]))
  }

  ghost function After(s: State, acts: seq<Action>): State
    requires CanRun(s, acts)
    decreases |acts|
  {
    if acts == [] then s else After(Next(s, acts[0]), acts[1..])
  }

  const EMPTY := State(map[], {}, map[], {}, [])

  lemma {:induction false} RunKeeps(s: State, acts: seq<Action>)
    requires Inv(s) && CanRun(s, acts)
    ensures Inv(After(s, acts))
    decreases |acts|
  {
    hide Inv, Enabled, Next;
    if acts != [] {
      StepKeeps(s, acts[0]);
      RunKeeps(Next(s, acts[0]), acts[1..]);
    }
  }

  /** However uploads and updates interleave, and wherever they stop, every key a theme refers to is
    * in storage. */
  lemma NeverDangles(acts: seq<Action>)
    requires CanRun(EMPTY, acts)
    ensures NoDangling(After(EMPTY, acts).rows, After(EMPTY, acts).storage)
  {
    hide Ref;
    assert Inv(EMPTY) by { StartOk(); }
    RunKeeps(EMPTY, acts);
  }

  lemma StartOk()
    ensures Inv(EMPTY)
  {}
}
