/** `BrandThemeService` over its repository, cache and object storage
  * (backend/src/modules/branding/brand-theme.service.ts:60-191), one call at a time. */
module BrandTheme {
  import opened JsonValues
  import opened MemoryCache

  const THEME_CACHE_TTL_MS := 300000
  const MAX_IMAGE_SIZE_BYTES := 5242880

  const ALLOWED_IMAGE_MIME_TYPES := {"image/png", "image/jpeg", "image/webp", "image/svg+xml"}
  const ALLOWED_FAVICON_MIME_TYPES := {"image/png", "image/x-icon", "image/vnd.microsoft.icon"}

  datatype Asset = Logo | Favicon | LoginBackground

  datatype Theme = Theme(
    id: string,
    organizationId: string,
    logoStorageKey: Option<string>,
    faviconStorageKey: Option<string>,
    loginBackgroundStorageKey: Option<string>,
    primaryColor: Option<string>,
    secondaryColor: Option<string>,
    accentColor: Option<string>,
    loginHeadline: Option<string>,
    loginSubtext: Option<string>,
    emailTemplateOverrides: Json,
    createdAt: int,
    updatedAt: int)

  /** A field of a partial update: left out, or given (possibly as null). */
  datatype Change<T> = Keep | To(value: Option<T>)

  datatype Upsert = Upsert(
    primaryColor: Change<string>,
    secondaryColor: Change<string>,
    accentColor: Change<string>,
    loginHeadline: Change<string>,
    loginSubtext: Change<string>,
    emailTemplateOverrides: Option<Json>,
    logoStorageKey: Change<string>,
    faviconStorageKey: Change<string>,
    loginBackgroundStorageKey: Change<string>)

  datatype Rejection = UnsupportedType | TooLarge

  datatype Outcome = Stored(theme: Theme) | Rejected(why: Rejection)

  function ThemeKey(org: string): string {
    "brand-theme:" + org
  }

  function ThemeTag(org: string): string {
    "brand-theme:" + org
  }

  function DefaultTheme(org: string): Theme {
    Theme("", org, None, None, None, None, None, None, None, None, Obj([]), 0, 0)
  }

  /** What the database says about `org`. */
  function Current(rows: map<string, Theme>, org: string): Theme {
    if org in rows then rows[org] else DefaultTheme(org)
  }

  function Changed<T>(was: Option<T>, c: Change<T>): Option<T> {
    if c.Keep? then was else c.value
  }

  function StorageKey(t: Theme, asset: Asset): Option<string> {
    match asset
    case Logo => t.logoStorageKey
    case Favicon => t.faviconStorageKey
    case LoginBackground => t.loginBackgroundStorageKey
  }

  /** `upsert` (backend/src/modules/branding/brand-theme.repository.ts:32-62) over the row there is,
    * or over an empty one. */
  function Upserted(rows: map<string, Theme>, org: string, data: Upsert, freshId: string, now: int): Theme {
    var base := if org in rows then rows[org] else DefaultTheme(org).(id := freshId, createdAt := now);
    base.(primaryColor := Changed(base.primaryColor, data.primaryColor),
          secondaryColor := Changed(base.secondaryColor, data.secondaryColor),
          accentColor := Changed(base.accentColor, data.accentColor),
          loginHeadline := Changed(base.loginHeadline, data.loginHeadline),
          loginSubtext := Changed(base.loginSubtext, data.loginSubtext),
          emailTemplateOverrides :=
            if data.emailTemplateOverrides.Some? then data.emailTemplateOverrides.value else base.emailTemplateOverrides,
          logoStorageKey := Changed(base.logoStorageKey, data.logoStorageKey),
          faviconStorageKey := Changed(base.faviconStorageKey, data.faviconStorageKey),
          loginBackgroundStorageKey := Changed(base.loginBackgroundStorageKey, data.loginBackgroundStorageKey),
          updatedAt := now)
  }

  /** The text fields of a theme, by name. */
  datatype Field =
    | LogoStorageKey | FaviconStorageKey | LoginBackgroundStorageKey
    | PrimaryColor | SecondaryColor | AccentColor | LoginHeadline | LoginSubtext

  function Get(t: Theme, f: Field): Option<string> {
    match f
    case LogoStorageKey => t.logoStorageKey
    case FaviconStorageKey => t.faviconStorageKey
    case LoginBackgroundStorageKey => t.loginBackgroundStorageKey
    case PrimaryColor => t.primaryColor
    case SecondaryColor => t.secondaryColor
    case AccentColor => t.accentColor
    case LoginHeadline => t.loginHeadline
    case LoginSubtext => t.loginSubtext
  }

  function Given(data: Upsert, f: Field): Change<string> {
    match f
    case LogoStorageKey => data.logoStorageKey
    case FaviconStorageKey => data.faviconStorageKey
    case LoginBackgroundStorageKey => data.loginBackgroundStorageKey
    case PrimaryColor => data.primaryColor
    case SecondaryColor => data.secondaryColor
    case AccentColor => data.accentColor
    case LoginHeadline => data.loginHeadline
    case LoginSubtext => data.loginSubtext
  }

  /** A field that is given takes its value and one left out keeps its own, nulls included, or is null in a new row; the
    * identity and the creation time of a row never change, and giving the same again changes only `updatedAt`. */
  lemma UpsertMerges(rows: map<string, Theme>, org: string, data: Upsert, freshId: string, now: int, later: int)
    ensures var t := Upserted(rows, org, data, freshId, now);
      (forall f :: Given(data, f).To? ==> Get(t, f) == Given(data, f).value) &&
      (forall f :: Given(data, f).Keep? ==> Get(t, f) == if org in rows then Get(rows[org], f) else None) &&
      (data.emailTemplateOverrides.Some? ==> t.emailTemplateOverrides == data.emailTemplateOverrides.value) &&
      (data.emailTemplateOverrides.None? ==>
         t.emailTemplateOverrides == if org in rows then rows[org].emailTemplateOverrides else Obj([])) &&
      t.updatedAt == now &&
      (org in rows ==> (t.id, t.organizationId, t.createdAt) == (rows[org].id, rows[org].organizationId, rows[org].createdAt)) &&
      (org !in rows ==> (t.id, t.organizationId, t.createdAt) == (freshId, org, now)) &&
      Upserted(rows[org := t], org, data, freshId, later) == t.(updatedAt := later)
  {}

  const NO_CHANGE := Upsert(Keep, Keep, Keep, Keep, Keep, None, Keep, Keep, Keep)

  function AssetChange(asset: Asset, key: string): Upsert {
    match asset
    case Logo => NO_CHANGE.(logoStorageKey := To(Some(key)))
    case Favicon => NO_CHANGE.(faviconStorageKey := To(Some(key)))
    case LoginBackground => NO_CHANGE.(loginBackgroundStorageKey := To(Some(key)))
  }

  /** The body of an update request, which carries no storage key. */
  predicate IsDto(data: Upsert) {
    data.logoStorageKey.Keep? && data.faviconStorageKey.Keep? && data.loginBackgroundStorageKey.Keep?
  }

  /** The storage key a slot refers to. */
  function Ref(rows: map<string, Theme>, org: string, asset: Asset): Option<string> {
    if org in rows then StorageKey(rows[org], asset) else None
  }

  ghost predicate NoDangling(rows: map<string, Theme>, storage: set<string>) {
    forall org, asset | Ref(rows, org, asset).Some? :: Ref(rows, org, asset).value in storage
  }

  ghost predicate Unshared(rows: map<string, Theme>) {
    forall org, asset, org', asset' | Ref(rows, org, asset).Some? && Ref(rows, org, asset) == Ref(rows, org', asset') ::
      org == org' && asset == asset'
  }

  /** Nothing is stored that no theme refers to. */
  ghost predicate Tidy(rows: map<string, Theme>, storage: set<string>) {
    forall key | key in storage :: exists org, asset :: Ref(rows, org, asset) == Some(key)
  }

  /** Every cached theme is the current one, and the tag of its organization would drop it. */
  ghost predicate Coherent(rows: map<string, Theme>, s: Store<Theme>) {
    forall org | ThemeKey(org) in s.entries ::
      s.entries[ThemeKey(org)].value == Current(rows, org) && ThemeKey(org) in Members(s.tags, ThemeTag(org))
  }

  lemma ThemeKeysDiffer(org: string, org': string)
    requires ThemeKey(org) == ThemeKey(org')
    ensures org == org'
  {
    assert org == ThemeKey(org)[12..] && org' == ThemeKey(org')[12..];
  }

  /** Filling the cache with the current theme keeps it coherent. */
  lemma FillKeepsCoherent(rows: map<string, Theme>, s: Store<Theme>, org: string, now: int)
    requires Coherent(rows, s)
    ensures Coherent(rows, SetAt(s, ThemeKey(org), Current(rows, org), THEME_CACHE_TTL_MS, [ThemeTag(org)], now))
  {
    hide ThemeKey, ThemeTag;
    forall o ensures ThemeKey(o) == ThemeKey(org) ==> o == org {
      if ThemeKey(o) == ThemeKey(org) { ThemeKeysDiffer(o, org); }
    }
  }

  /** Changing one row and then invalidating its tag keeps the cache coherent. */
  lemma InvalidationKeepsCoherent(rows: map<string, Theme>, s: Store<Theme>, org: string, row: Theme)
    requires Coherent(rows, s)
    ensures Coherent(rows[org := row], WithoutTag(s, ThemeTag(org)))
  {}

  /** The theme differs from the organization's row, or from an empty one, in nothing a caller gives but the one slot. */
  ghost predicate OnlySlot(rows: map<string, Theme>, theme: Theme, org: string, asset: Asset) {
    var slot := match asset case Logo => LogoStorageKey case Favicon => FaviconStorageKey case _ => LoginBackgroundStorageKey;
    (forall f | f != slot :: Get(theme, f) == if org in rows then Get(rows[org], f) else None) &&
    theme.emailTemplateOverrides == if org in rows then rows[org].emailTemplateOverrides else Obj([])
  }

  class BrandThemeService {
    var rows: map<string, Theme>
    var storage: set<string>
    const cache: InMemoryCacheService<Theme>

    ghost predicate Valid()
      reads this, cache
    {
      NoDangling(rows, storage) && Unshared(rows) && Coherent(rows, cache.State())
    }

    constructor ()
      ensures Valid() && fresh(cache)
      ensures rows == map[] && storage == {}
    {
      rows := map[];
      storage := {};
      cache := new InMemoryCacheService<Theme>();
    }

    /** Answers the current theme whether or not it came from the cache. */
    method GetOrDefault(org: string, now: int) returns (theme: Theme)
      requires Valid()
      modifies cache
      ensures Valid()
      ensures theme == Current(rows, org)
      ensures org in rows ==> theme == rows[org]
      ensures org !in rows ==>
        theme.organizationId == org && theme.id == "" && (forall f :: Get(theme, f).None?) &&
        theme.emailTemplateOverrides == Obj([]) && theme.createdAt == 0 && theme.updatedAt == 0
      ensures GetAt(cache.State(), ThemeKey(org), now) == Some(theme)
      ensures var key := "brand-theme:" + org;
        cache.State() ==
        if GetAt(old(cache.State()), key, now).Some? then old(cache.State())
        else SetAt(old(cache.State()), key, theme, 300000, [key], now)
    {
      var cached := cache.Get(ThemeKey(org), now);
      if cached.Some? { return cached.value; }
      theme := if org in rows then rows[org] else DefaultTheme(org);
      FillKeepsCoherent(rows, cache.State(), org, now);
      cache.Set(ThemeKey(org), theme, THEME_CACHE_TTL_MS, [ThemeTag(org)], now);
    }

    method Update(org: string, dto: Upsert, freshId: string, now: int) returns (theme: Theme)
      requires Valid() && IsDto(dto)
      modifies this, cache
      ensures Valid()
      ensures theme == Upserted(old(rows), org, dto, freshId, now)
      ensures rows == old(rows)[org := theme] && storage == old(storage)
      ensures cache.State() == WithoutTag(old(cache.State()), "brand-theme:" + org)
      ensures forall o, a :: Ref(rows, o, a) == Ref(old(rows), o, a)
    {
      theme := Upserted(rows, org, dto, freshId, now);
      InvalidationKeepsCoherent(rows, cache.State(), org, theme);
      rows := rows[org := theme];
      assert forall o, a :: Ref(rows, o, a) == Ref(old(rows), o, a);
      cache.InvalidateTag(ThemeTag(org));
    }

    /** Replaces one asset. The new object is stored before the row names it, and the old one is
      * deleted after; a failed deletion is swallowed. */
    method UploadAsset(org: string, asset: Asset, mimetype: string, size: nat, newKey: string, freshId: string,
                       deleteFails: bool, now: int)
      returns (outcome: Outcome)
      requires Valid()
      requires newKey !in storage
      modifies this, cache
      ensures Valid()
      ensures outcome == Rejected(UnsupportedType) <==>
        mimetype !in (if asset == Favicon then {"image/png", "image/x-icon", "image/vnd.microsoft.icon"}
                      else {"image/png", "image/jpeg", "image/webp", "image/svg+xml"})
      ensures outcome == Rejected(TooLarge) ==> size > 5 * 1024 * 1024
      ensures outcome.Stored? ==> size <= 5 * 1024 * 1024
      ensures outcome.Rejected? ==> rows == old(rows) && storage == old(storage) && cache.State() == old(cache.State())
      ensures outcome.Stored? ==>
        rows == old(rows)[org := outcome.theme] &&
        outcome.theme == Upserted(old(rows), org, AssetChange(asset, newKey), freshId, now) &&
        cache.State() == WithoutTag(old(cache.State()), "brand-theme:" + org) &&
        Ref(rows, org, asset) == Some(newKey) && OnlySlot(old(rows), outcome.theme, org, asset) &&
        (forall o, a | (o, a) != (org, asset) :: Ref(rows, o, a) == Ref(old(rows), o, a)) &&
        storage == old(storage) + {newKey} - (if deleteFails then {} else OldKey(old(rows), org, asset))
      ensures Tidy(old(rows), old(storage)) && !deleteFails ==> Tidy(rows, storage)
    {
      var allowed := if asset == Favicon then ALLOWED_FAVICON_MIME_TYPES else ALLOWED_IMAGE_MIME_TYPES;
      if mimetype !in allowed { return Rejected(UnsupportedType); }
      if size > MAX_IMAGE_SIZE_BYTES { return Rejected(TooLarge); }
      var previous := if org in rows then StorageKey(rows[org], asset) else None;
      storage := storage + {newKey};
      var theme := Upserted(rows, org, AssetChange(asset, newKey), freshId, now);
      InvalidationKeepsCoherent(rows, cache.State(), org, theme);
      UploadKeepsRefs(rows, old(storage), org, asset, theme, newKey, deleteFails);
      rows := rows[org := theme];
      if previous.Some? && !deleteFails { storage := storage - {previous.value}; }
      cache.InvalidateTag(ThemeTag(org));
      return Stored(theme);
    }
  }

  function OldKey(rows: map<string, Theme>, org: string, asset: Asset): set<string> {
    if Ref(rows, org, asset).Some? then {Ref(rows, org, asset).value} else {}
  }

  /** One slot moves to a key nothing used before: no other slot changes, no reference dangles, and a
    * storage that held only referenced keys still does once the old key is gone. */
  lemma UploadKeepsRefs(rows: map<string, Theme>, storage: set<string>, org: string, asset: Asset, theme: Theme,
                        newKey: string, deleteFails: bool)
    requires NoDangling(rows, storage) && Unshared(rows) && newKey !in storage
    requires StorageKey(theme, asset) == Some(newKey)
    requires forall a | a != asset :: StorageKey(theme, a) == Ref(rows, org, a)
    ensures
      var rows' := rows[org := theme];
      var storage' := storage + {newKey} - (if deleteFails then {} else OldKey(rows, org, asset));
      (forall o, a | (o, a) != (org, asset) :: Ref(rows', o, a) == Ref(rows, o, a)) &&
      NoDangling(rows', storage') && Unshared(rows') &&
      (Tidy(rows, storage) && !deleteFails ==> Tidy(rows', storage'))
  {
    var rows' := rows[org := theme];
    var storage' := storage + {newKey} - (if deleteFails then {} else OldKey(rows, org, asset));
    forall o, a | (o, a) != (org, asset) ensures Ref(rows', o, a) == Ref(rows, o, a) {}
    assert Ref(rows', org, asset) == Some(newKey);
    if Tidy(rows, storage) && !deleteFails {
      forall key | key in storage' ensures exists o, a :: Ref(rows', o, a) == Some(key) {
        if key != newKey {
          var o, a :| Ref(rows, o, a) == Some(key);
          assert Ref(rows', o, a) == Some(key);
        }
      }
    }
  }
}
