/** `computeAuditLogHash` (backend/src/modules/audit/audit-hash.util.ts). SHA-256 is a function
  * parameter of which only the shape of its hex result is assumed; it is never taken to be
  * injective. */
module AuditHash {
  import opened JsonValues
  import opened CanonicalJson

  // ---------------------------------------------------------------- instants

  /** A Date by its UTC calendar fields. */
  datatype Instant = Instant(year: int, month: nat, day: nat, hour: nat, minute: nat, second: nat, milli: nat)
  {
    predicate Valid() {
      && -999999 <= year <= 999999
      && 1 <= month <= 12 && 1 <= day <= 31
      && hour < 24 && minute < 60 && second < 60 && milli < 1000
    }

    /** Earlier instants have smaller fields, compared from the year down. */
    function Fields(): seq<int> { [year, month, day, hour, minute, second, milli] }
  }

  function Digit(n: nat): char { ('0' as int + n % 10) as char }

  function Pad2(n: nat): string { [Digit(n / 10), Digit(n)] }
  function Pad3(n: nat): string { [Digit(n / 100)] + Pad2(n % 100) }
  function Pad4(n: nat): string { Pad2(n / 100) + Pad2(n % 100) }
  function Pad6(n: nat): string { Pad2(n / 10000) + Pad4(n % 10000) }

  function YearText(year: int): string {
    if 0 <= year <= 9999 then Pad4(year)
    else if year < 0 then "-" + Pad6(-year)
    else "+" + Pad6(year)
  }

  function ClockText(t: Instant): string {
    Pad2(t.hour) + (":" + (Pad2(t.minute) + (":" + (Pad2(t.second) + ("." + (Pad3(t.milli) + "Z"))))))
  }

  function DayText(t: Instant): string {
    "-" + (Pad2(t.month) + ("-" + (Pad2(t.day) + ("T" + ClockText(t)))))
  }

  /** `Date.prototype.toISOString`. */
  function IsoString(t: Instant): string {
    YearText(t.year) + DayText(t)
  }

  /** The number a text of decimal digits spells. */
  function Decimal(s: string): int {
    if s == "" then 0 else Decimal(s[..|s|-1]) * 10 + (s[|s|-1] as int - '0' as int)
  }

  predicate Spells(s: string, n: int) {
    (forall c :: c in s ==> IsDigit(c)) && Decimal(s) == n
  }

  /** Where each field of an instant stands in its text, and how it is spelled: the year first, in four digits or as
    * a sign and six, then the rest in two digits each, three for the milliseconds, at fixed places after it. */
  lemma IsoStringLayout(t: Instant)
    requires t.Valid()
    ensures var s := IsoString(t);
      var y := if 0 <= t.year <= 9999 then 4 else 7;
      && |s| == y + 20
      && (0 <= t.year <= 9999 ==> Spells(s[..y], t.year))
      && (t.year > 9999 ==> s[0] == '+' && Spells(s[1..y], t.year))
      && (t.year < 0 ==> s[0] == '-' && Spells(s[1..y], -t.year))
      && DayIs(s[y..], t)
  {
    YearLayout(t.year);
    DayLayout(t);
    hide Spells, DayIs, YearText, DayText;
    var s, y := IsoString(t), |YearText(t.year)|;
    assert s[..y] == YearText(t.year) && s[y..] == DayText(t);
    assert s[0] == s[..y][0] && s[1..y] == s[..y][1..];
  }

  predicate DayIs(s: string, t: Instant) {
    && |s| == 20 && (s[0], s[3], s[6], s[9], s[12], s[15], s[19]) == ('-', '-', 'T', ':', ':', '.', 'Z')
    && Spells(s[1..3], t.month) && Spells(s[4..6], t.day) && Spells(s[7..9], t.hour)
    && Spells(s[10..12], t.minute) && Spells(s[13..15], t.second) && Spells(s[16..19], t.milli)
  }

  lemma SpellsOne(n: nat)
    requires n < 10
    ensures Spells([Digit(n)], n)
  {
    assert [Digit(n)][..0] == "";
  }

  lemma SpellsTwo(n: nat)
    requires n < 100
    ensures Spells(Pad2(n), n)
  {
    SpellsOne(n / 10);
    assert Pad2(n)[..1] == [Digit(n / 10)];
  }

  lemma SpellsPair(s: string, m: nat, n: nat)
    requires Spells(s, m) && n < 100
    ensures Spells(s + Pad2(n), m * 100 + n)
  {
    var t := s + Pad2(n);
    assert t[..|s|+1][..|s|] == s;
    assert t[..|t|-1] == t[..|s|+1];
    assert Decimal(t[..|s|+1]) == m * 10 + n / 10;
  }

  lemma SpellsThree(n: nat)
    requires n < 1000
    ensures Spells(Pad3(n), n)
  {
    SpellsOne(n / 100);
    SpellsPair([Digit(n / 100)], n / 100, n % 100);
  }

  lemma SpellsFour(n: nat)
    requires n < 10000
    ensures Spells(Pad4(n), n)
  {
    SpellsTwo(n / 100);
    SpellsPair(Pad2(n / 100), n / 100, n % 100);
  }

  lemma SpellsSix(n: nat)
    requires n < 1000000
    ensures Spells(Pad6(n), n)
  {
    SpellsTwo(n / 10000);
    SpellsPair(Pad2(n / 10000), n / 10000, n % 10000 / 100);
    SpellsPair(Pad2(n / 10000) + Pad2(n % 10000 / 100), n / 100, n % 100);
    assert Pad6(n) == Pad2(n / 10000) + Pad2(n % 10000 / 100) + Pad2(n % 100);
  }

  lemma YearLayout(year: int)
    requires -999999 <= year <= 999999
    ensures var s := YearText(year);
      if 0 <= year <= 9999 then |s| == 4 && Spells(s, year)
      else |s| == 7 && s[0] == (if year < 0 then '-' else '+') && Spells(s[1..], if year < 0 then -year else year)
  {
    if 0 <= year <= 9999 {
      SpellsFour(year);
    } else {
      var n := if year < 0 then -year else year;
      SpellsSix(n);
      assert YearText(year)[1..] == Pad6(n);
    }
  }

  lemma DayPlaces(t: Instant)
    ensures var s := DayText(t);
      && |s| == 20 && (s[0], s[3], s[6], s[9], s[12], s[15], s[19]) == ('-', '-', 'T', ':', ':', '.', 'Z')
      && s[1..3] == Pad2(t.month) && s[4..6] == Pad2(t.day) && s[7..9] == Pad2(t.hour)
      && s[10..12] == Pad2(t.minute) && s[13..15] == Pad2(t.second) && s[16..19] == Pad3(t.milli)
  {
    hide Digit;
    var s, clock := DayText(t), ClockText(t);
    assert |clock| == 13 && clock[6..8] == Pad2(t.second) && clock[9..12] == Pad3(t.milli);
    assert s[7..] == clock;
    assert s[13..15] == clock[6..8] && s[16..19] == clock[9..12];
  }

  lemma DayLayout(t: Instant)
    requires t.Valid()
    ensures DayIs(DayText(t), t)
  {
    DayPlaces(t);
    SpellsTwo(t.month);
    SpellsTwo(t.day);
    SpellsTwo(t.hour);
    SpellsTwo(t.minute);
    SpellsTwo(t.second);
    SpellsThree(t.milli);
    hide Digit, Spells, Pad2, Pad3, DayText;
  }

  /** Two instants never print alike. */
  lemma IsoStringInjective(t: Instant, u: Instant)
    requires t.Valid() && u.Valid() && IsoString(t) == IsoString(u)
    ensures t == u
  {
    IsoStringLayout(t);
    IsoStringLayout(u);
  }

  // ---------------------------------------------------------------- the text's order is time's

  lemma DigitSorts(c: char, d: char)
    requires IsDigit(c) && IsDigit(d)
    ensures KeyLeq([c], [d]) <==> c <= d
  {
    KeyLeqHead([c], [d]);
    assert [c][1..] == "" && [d][1..] == "";
  }

  /** Digit texts of one length sort as the numbers they spell. */
  lemma {:induction false} DigitsSort(s: string, t: string)
    requires |s| == |t| && (forall c :: c in s || c in t ==> IsDigit(c))
    ensures KeyLeq(s, t) <==> Decimal(s) <= Decimal(t)
    decreases |s|
  {
    if s == "" {
      KeyOrder(s, t, s);
    } else {
      var k := |s| - 1;
      DigitsSort(s[..k], t[..k]);
      DigitsSort(t[..k], s[..k]);
      KeyLeqBlocks(s[..k], [s[k]], t[..k], [t[k]]);
      DigitSorts(s[k], t[k]);
      KeyOrder(s[..k], t[..k], s[..k]);
      hide KeyLeq;
      assert s == s[..k] + [s[k]] && t == t[..k] + [t[k]];
      assert IsDigit(s[k]) && IsDigit(t[k]);
    }
  }

  /** A field of fixed width in front decides first. */
  lemma FieldFirst(p: string, m: int, x: string, q: string, n: int, y: string)
    requires |p| == |q| && Spells(p, m) && Spells(q, n)
    ensures KeyLeq(p + x, q + y) <==> m < n || (m == n && KeyLeq(x, y))
  {
    DigitsSort(p, q);
    DigitsSort(q, p);
    KeyLeqBlocks(p, x, q, y);
    KeyOrder(p, q, p);
  }

  predicate ClockLeq(t: Instant, u: Instant) {
    t.hour < u.hour || (t.hour == u.hour &&
    (t.minute < u.minute || (t.minute == u.minute &&
    (t.second < u.second || (t.second == u.second && t.milli <= u.milli)))))
  }

  predicate DayLeq(t: Instant, u: Instant) {
    t.month < u.month || (t.month == u.month && (t.day < u.day || (t.day == u.day && ClockLeq(t, u))))
  }

  lemma ClockSorts(t: Instant, u: Instant)
    requires t.Valid() && u.Valid()
    ensures KeyLeq(ClockText(t), ClockText(u)) <==> ClockLeq(t, u)
  {
    SpellsTwo(t.hour); SpellsTwo(u.hour);
    SpellsTwo(t.minute); SpellsTwo(u.minute);
    SpellsTwo(t.second); SpellsTwo(u.second);
    SpellsThree(t.milli); SpellsThree(u.milli);
    hide Spells, KeyLeq, Pad3, Digit;
    var t3, u3 := Pad3(t.milli) + "Z", Pad3(u.milli) + "Z";
    var t2, u2 := Pad2(t.second) + ("." + t3), Pad2(u.second) + ("." + u3);
    var t1, u1 := Pad2(t.minute) + (":" + t2), Pad2(u.minute) + (":" + u2);
    FieldFirst(Pad2(t.hour), t.hour, ":" + t1, Pad2(u.hour), u.hour, ":" + u1);
    KeyLeqBlocks(":", t1, ":", u1);
    FieldFirst(Pad2(t.minute), t.minute, ":" + t2, Pad2(u.minute), u.minute, ":" + u2);
    KeyLeqBlocks(":", t2, ":", u2);
    FieldFirst(Pad2(t.second), t.second, "." + t3, Pad2(u.second), u.second, "." + u3);
    KeyLeqBlocks(".", t3, ".", u3);
    FieldFirst(Pad3(t.milli), t.milli, "Z", Pad3(u.milli), u.milli, "Z");
    KeyOrder("Z", "Z", "Z");
  }

  lemma DaySorts(t: Instant, u: Instant)
    requires t.Valid() && u.Valid()
    ensures KeyLeq(DayText(t), DayText(u)) <==> DayLeq(t, u)
  {
    SpellsTwo(t.month); SpellsTwo(u.month);
    SpellsTwo(t.day); SpellsTwo(u.day);
    ClockSorts(t, u);
    hide Spells, KeyLeq, ClockText, ClockLeq;
    var t2, u2 := Pad2(t.day) + ("T" + ClockText(t)), Pad2(u.day) + ("T" + ClockText(u));
    var t1, u1 := Pad2(t.month) + ("-" + t2), Pad2(u.month) + ("-" + u2);
    KeyLeqBlocks("-", t1, "-", u1);
    FieldFirst(Pad2(t.month), t.month, "-" + t2, Pad2(u.month), u.month, "-" + u2);
    KeyLeqBlocks("-", t2, "-", u2);
    FieldFirst(Pad2(t.day), t.day, "T" + ClockText(t), Pad2(u.day), u.day, "T" + ClockText(u));
    KeyLeqBlocks("T", ClockText(t), "T", ClockText(u));
  }

  /** ISO texts of one year, or of years of four digits, sort as the instants they spell. */
  lemma IsoStringSorts(t: Instant, u: Instant)
    requires t.Valid() && u.Valid()
    requires t.year == u.year || (0 <= t.year <= 9999 && 0 <= u.year <= 9999)
    ensures KeyLeq(IsoString(t), IsoString(u)) <==> t.year < u.year || (t.year == u.year && DayLeq(t, u))
  {
    DaySorts(t, u);
    YearLayout(t.year);
    YearLayout(u.year);
    hide DayText, DayLeq, Spells, KeyLeq, YearText;
    if t.year == u.year {
      KeyLeqBlocks(YearText(t.year), DayText(t), YearText(u.year), DayText(u));
    } else {
      FieldFirst(YearText(t.year), t.year, DayText(t), YearText(u.year), u.year, DayText(u));
    }
  }

  // ---------------------------------------------------------------- rows

  /** What a row says: every hashed field except the link to its predecessor. */
  datatype Content = Content(
    organizationId: string, userId: string, requestId: string, action: string, resource: string,
    resourceId: Option<string>, metadata: Json, supportSessionId: Option<string>, createdAt: Instant)

  datatype AuditRow = AuditRow(id: nat, content: Content, previousHash: Option<string>, hash: Option<string>)

  predicate WfContent(c: Content) {
    Wf(c.metadata) && c.createdAt.Valid()
  }

  /** Equal in every hashed field; metadata up to member order. */
  ghost predicate SameContent(a: Content, b: Content) {
    Same(a.metadata, b.metadata) && a.(metadata := b.metadata) == b
  }

  function OrNull(s: Option<string>): Json {
    if s.Some? then Str(s.value) else Null
  }

  function Payload(c: Content): Json {
    Obj([Member("organizationId", Str(c.organizationId)),
         Member("userId", Str(c.userId)),
         Member("requestId", Str(c.requestId)),
         Member("action", Str(c.action)),
         Member("resource", Str(c.resource)),
         Member("resourceId", OrNull(c.resourceId)),
         Member("metadata", c.metadata),
         Member("supportSessionId", OrNull(c.supportSessionId)),
         Member("createdAt", Str(IsoString(c.createdAt)))])
  }

  /** The text SHA-256 is applied to. */
  function Preimage(previousHash: Option<string>, c: Content): string {
    (if previousHash.Some? then previousHash.value else "") + StableStringify(Payload(c))
  }

  type Digest = string -> string

  predicate IsHex(s: string) {
    s != "" && forall c :: c in s ==> IsDigit(c) || 'a' <= c <= 'f'
  }

  /** All that is assumed of `createHash('sha256')...digest('hex')`. */
  ghost predicate HexDigest(sha: Digest) {
    forall text :: IsHex(sha(text))
  }

  function ComputeHash(sha: Digest, previousHash: Option<string>, c: Content): string {
    sha(Preimage(previousHash, c))
  }

  // ---------------------------------------------------------------- the preimage splits

  lemma PayloadKeysUnique(c: Content)
    ensures UniqueKeys(Payload(c).members)
  {
    var ms := Payload(c).members;
    assert ms[0].key[0] == 'o' && ms[1].key[0] == 'u' && ms[4].key[0] == 'r' && ms[6].key[0] == 'm';
    assert |ms[0].key| == 14 && |ms[1].key| == 6 && |ms[2].key| == 9 && |ms[3].key| == 6 && |ms[4].key| == 8
        && |ms[5].key| == 10 && |ms[6].key| == 8 && |ms[7].key| == 16 && |ms[8].key| == 9;
    assert ms[3].key[0] == 'a' && ms[2].key[0] == 'r' && ms[8].key[0] == 'c';
  }

  lemma PayloadWf(c: Content)
    requires WfContent(c)
    ensures Wf(Payload(c))
  {
    hide IsoString, UniqueKeys;
    PayloadKeysUnique(c);
  }

  lemma SameMembers(ms: seq<Member>, ns: seq<Member>)
    requires Same(Obj(ms), Obj(ns)) && UniqueKeys(ns)
    requires forall i :: 0 <= i < |ms| ==> ns[i].key == ms[i].key
    ensures forall i :: 0 <= i < |ms| ==> Same(ms[i].value, ns[i].value)
  {}

  lemma SameScalar(v: Json, w: Json)
    requires Same(v, w) && !v.Arr? && !v.Obj?
    ensures v == w
  {}

  lemma PayloadKeysFixed(a: Content, b: Content)
    ensures forall i :: 0 <= i < 9 ==> Payload(a).members[i].key == Payload(b).members[i].key
  {}

  lemma PayloadValues(c: Content)
    ensures Payload(c).Obj? && |Payload(c).members| == 9
    ensures Payload(c).members[0].value == Str(c.organizationId)
    ensures Payload(c).members[1].value == Str(c.userId)
    ensures Payload(c).members[2].value == Str(c.requestId)
    ensures Payload(c).members[3].value == Str(c.action)
    ensures Payload(c).members[4].value == Str(c.resource)
    ensures Payload(c).members[5].value == OrNull(c.resourceId)
    ensures Payload(c).members[6].value == c.metadata
    ensures Payload(c).members[7].value == OrNull(c.supportSessionId)
    ensures Payload(c).members[8].value == Str(IsoString(c.createdAt))
  {
  }

  /** Every field goes into the payload under its own name, and nothing else does. */
  lemma PayloadFields(c: Content)
    ensures var ms := Payload(c).members;
      && |ms| == 9
      && Lookup(ms, "organizationId") == Some(Str(c.organizationId))
      && Lookup(ms, "userId") == Some(Str(c.userId))
      && Lookup(ms, "requestId") == Some(Str(c.requestId))
      && Lookup(ms, "action") == Some(Str(c.action))
      && Lookup(ms, "resource") == Some(Str(c.resource))
      && Lookup(ms, "resourceId") == Some(if c.resourceId.Some? then Str(c.resourceId.value) else Null)
      && Lookup(ms, "metadata") == Some(c.metadata)
      && Lookup(ms, "supportSessionId") == Some(if c.supportSessionId.Some? then Str(c.supportSessionId.value) else Null)
      && Lookup(ms, "createdAt") == Some(Str(IsoString(c.createdAt)))
  {
    hide IsoString, UniqueKeys, Lookup;
    var ms := Payload(c).members;
    PayloadKeysUnique(c);
    forall i | 0 <= i < |ms| ensures Lookup(ms, ms[i].key) == Some(ms[i].value) {
      LookupUnique(ms, ms[i]);
    }
    var _ := (ms[0], ms[1], ms[2], ms[3], ms[4], ms[5], ms[6], ms[7], ms[8]);
  }

  /** The payload determines every field of the row. */
  lemma PayloadBinds(a: Content, b: Content)
    requires WfContent(a) && WfContent(b) && Same(Payload(a), Payload(b))
    ensures SameContent(a, b)
  {
    hide Payload, Same, Wf, IsoString, Instant.Valid;
    PayloadValues(a);
    PayloadValues(b);
    var ms, ns := Payload(a).members, Payload(b).members;
    PayloadKeysUnique(b);
    PayloadKeysFixed(a, b);
    SameMembers(ms, ns);
    SameScalar(ms[0].value, ns[0].value);
    SameScalar(ms[1].value, ns[1].value);
    SameScalar(ms[2].value, ns[2].value);
    SameScalar(ms[3].value, ns[3].value);
    SameScalar(ms[4].value, ns[4].value);
    SameScalar(ms[5].value, ns[5].value);
    SameScalar(ms[7].value, ns[7].value);
    SameScalar(ms[8].value, ns[8].value);
    IsoStringInjective(a.createdAt, b.createdAt);
  }

  function BraceIndex(t: string): nat {
    if t == "" || t[0] == '{' then 0 else 1 + BraceIndex(t[1..])
  }

  lemma {:induction false} BraceAfter(g: string, s: string)
    requires '{' !in g && s != "" && s[0] == '{'
    ensures BraceIndex(g + s) == |g|
  {
    if g == "" {
      assert g + s == s;
    } else {
      BraceAfter(g[1..], s);
      assert (g + s)[1..] == g[1..] + s;
    }
  }

  lemma SplitAtBrace(g: string, s: string, h: string, t: string)
    requires g + s == h + t && s != "" && t != "" && s[0] == '{' && t[0] == '{'
    requires '{' !in g && '{' !in h
    ensures g == h && s == t
  {
    BraceAfter(g, s);
    BraceAfter(h, t);
    assert (g + s)[..|g|] == g && (h + t)[..|h|] == h;
    assert (g + s)[|g|..] == s && (h + t)[|h|..] == t;
  }

  lemma PayloadStart(c: Content)
    ensures StableStringify(Payload(c)) != "" && StableStringify(Payload(c))[0] == '{'
  {}

  predicate LinkText(previousHash: Option<string>) {
    previousHash.Some? ==> IsHex(previousHash.value)
  }

  /** What SHA-256 is given: the previous hash, if there is one, and then a text that reads as the payload with its
    * members sorted. */
  lemma PreimageReads(c: Content, h: string)
    requires WfContent(c)
    ensures ReadValue(Preimage(None, c)) == Some(Read(Canon(Payload(c)), ""))
    ensures h <= Preimage(Some(h), c) && ReadValue(Preimage(Some(h), c)[|h|..]) == Some(Read(Canon(Payload(c)), ""))
  {
    hide StableStringify, Payload, ReadValue, Canon, Wf;
    PayloadWf(c);
    StringifyDecodes(Payload(c), "");
    var s := StableStringify(Payload(c));
    assert s + "" == s && "" + s == s && (h + s)[|h|..] == s;
  }

  /** The digest input splits in one way only: equal inputs come from the same predecessor hash
    * and the same content. */
  lemma PreimageSplits(p: Option<string>, a: Content, q: Option<string>, b: Content)
    requires LinkText(p) && LinkText(q) && WfContent(a) && WfContent(b)
    ensures Preimage(p, a) == Preimage(q, b) <==> p == q && SameContent(a, b)
  {
    hide StableStringify, Payload;
    PayloadWf(a);
    PayloadWf(b);
    if Preimage(p, a) == Preimage(q, b) {
      var g := if p.Some? then p.value else "";
      var h := if q.Some? then q.value else "";
      PayloadStart(a);
      PayloadStart(b);
      SplitAtBrace(g, StableStringify(Payload(a)), h, StableStringify(Payload(b)));
      StringifyCanonical(Payload(a), Payload(b));
      PayloadBinds(a, b);
    }
    if p == q && SameContent(a, b) {
      SamePayload(a, b);
      StringifyCanonical(Payload(a), Payload(b));
    }
  }

  lemma SamePayload(a: Content, b: Content)
    requires SameContent(a, b)
    ensures Same(Payload(a), Payload(b))
  {
    hide Payload, IsoString, Same;
    PayloadValues(a);
    PayloadValues(b);
    PayloadKeysFixed(a, b);
    var ms, ns := Payload(a).members, Payload(b).members;
    SameSelf(ms[0].value);
    SameSelf(ms[1].value);
    SameSelf(ms[2].value);
    SameSelf(ms[3].value);
    SameSelf(ms[4].value);
    SameSelf(ms[5].value);
    SameSelf(ms[7].value);
    SameSelf(ms[8].value);
    SameMemberwise(ms, ns);
  }

  lemma SameSelf(v: Json)
    requires !v.Arr? && !v.Obj?
    ensures Same(v, v)
  {}

  lemma SameMemberwise(ms: seq<Member>, ns: seq<Member>)
    requires |ms| == |ns|
    requires forall i | 0 <= i < |ms| :: ms[i].key == ns[i].key && Same(ms[i].value, ns[i].value)
    ensures Same(Obj(ms), Obj(ns))
  {
    forall m | m in ms
      ensures exists n :: n in ns && n.key == m.key && Same(m.value, n.value)
    {
      var i :| 0 <= i < |ms| && ms[i] == m;
      assert ns[i] in ns;
    }
  }
}
