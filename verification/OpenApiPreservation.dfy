/** The rewriter of backend/src/config/openapi-3.1.util.ts keeps what every schema means: the
  * proof goes keyword by keyword and node by node, and ends in `Meaning`. */
module OpenApiPreservation {
  import opened JsonValues
  import opened OpenApi31
  import opened OpenApiMeaning

  function Before(voc: Vocabulary, document: Json): Context { Context(V30, voc, document) }

  function After(voc: Vocabulary, document: Json): Context { Context(V31, voc, ToOpenApi31(document)) }

  /** The keyword says the same before and after. */
  ghost predicate Kept31(voc: Vocabulary, document: Json, d: set<string>, m: Member, x: Json, fuel: nat) {
    Keyword(Before(voc, document), d, false, m, x, fuel) <==>
    Keyword(After(voc, document), d, false, Walked(m), x, fuel)
  }

  /** The schema says the same before and after. */
  ghost predicate SameMeaning(voc: Vocabulary, document: Json, s: Json, x: Json, fuel: nat) {
    Valid(Before(voc, document), s, x, fuel) <==> Valid(After(voc, document), ToOpenApi31(s), x, fuel)
  }

  ghost predicate Setting(voc: Vocabulary, document: Json) {
    VocabularyOk(voc) && DocumentInDomain(document)
  }

  // ---------------------------------------------------------------- one keyword

  lemma {:induction false} RefMeaning(voc: Vocabulary, document: Json, ref: Json, x: Json, fuel: nat)
    requires Setting(voc, document) && ref.Str?
    ensures RefOk(Before(voc, document), ref, x, fuel) <==> RefOk(After(voc, document), ref, x, fuel)
    decreases fuel, ref, 1
  {
    hide VocabularyOk, DocumentInDomain, Resolve, Valid, InDomain;
    if fuel > 0 {
      ResolveWalk(document, ref.s);
      var target := Resolve(document, ref.s);
      if target.Some? { SchemaMeaning(voc, document, target.value, x, fuel - 1); }
    }
  }

  lemma ForallItems(b: Context, a: Context, items: seq<Json>, walked: seq<Json>, x: Json, fuel: nat)
    requires |items| == |walked|
    requires forall i :: 0 <= i < |items| ==> (Valid(b, items[i], x, fuel) <==> Valid(a, walked[i], x, fuel))
    ensures (forall e :: e in items ==> Valid(b, e, x, fuel)) <==> (forall e :: e in walked ==> Valid(a, e, x, fuel))
  {
    hide Valid;
    if forall e :: e in items ==> Valid(b, e, x, fuel) {
      forall e | e in walked ensures Valid(a, e, x, fuel) {
        var i :| 0 <= i < |walked| && walked[i] == e;
        assert items[i] in items;
      }
    }
    if forall e :: e in walked ==> Valid(a, e, x, fuel) {
      forall e | e in items ensures Valid(b, e, x, fuel) {
        var i :| 0 <= i < |items| && items[i] == e;
        assert walked[i] in walked;
      }
    }
  }

  lemma ExistsItem(b: Context, a: Context, items: seq<Json>, walked: seq<Json>, x: Json, fuel: nat)
    requires |items| == |walked|
    requires forall i :: 0 <= i < |items| ==> (Valid(b, items[i], x, fuel) <==> Valid(a, walked[i], x, fuel))
    ensures (exists e :: e in items && Valid(b, e, x, fuel)) <==> (exists e :: e in walked && Valid(a, e, x, fuel))
  {
    hide Valid;
    if exists e :: e in items && Valid(b, e, x, fuel) {
      var e :| e in items && Valid(b, e, x, fuel);
      var i :| 0 <= i < |items| && items[i] == e;
      assert walked[i] in walked;
    }
    if exists e :: e in walked && Valid(a, e, x, fuel) {
      var e :| e in walked && Valid(a, e, x, fuel);
      var i :| 0 <= i < |walked| && walked[i] == e;
      assert items[i] in items;
    }
  }

  lemma OneItem(b: Context, a: Context, items: seq<Json>, walked: seq<Json>, x: Json, fuel: nat)
    requires |items| == |walked|
    requires forall i :: 0 <= i < |items| ==> (Valid(b, items[i], x, fuel) <==> Valid(a, walked[i], x, fuel))
    ensures ExactlyOne(b, items, x, fuel) ==> ExactlyOne(a, walked, x, fuel)
  {
    hide Valid;
    if ExactlyOne(b, items, x, fuel) {
      var i :| 0 <= i < |items| && Valid(b, items[i], x, fuel)
        && forall j :: 0 <= j < |items| && j != i ==> !Valid(b, items[j], x, fuel);
      forall j | 0 <= j < |walked| && j != i ensures !Valid(a, walked[j], x, fuel) {
        assert !Valid(b, items[j], x, fuel);
      }
      assert Valid(a, walked[i], x, fuel);
    }
  }

  lemma {:induction false} ItemsMeaning(voc: Vocabulary, document: Json, items: seq<Json>, x: Json, fuel: nat)
    requires Setting(voc, document) && forall e :: e in items ==> InDomain(e)
    ensures forall i :: 0 <= i < |items| ==>
      (Valid(Before(voc, document), items[i], x, fuel) <==> Valid(After(voc, document), WalkItems(items)[i], x, fuel))
    decreases fuel, items, 3
  {
    hide InDomain, Valid, Setting, Walk, WalkItems, SameMeaning;
    forall i | 0 <= i < |items|
      ensures Valid(Before(voc, document), items[i], x, fuel) <==> Valid(After(voc, document), WalkItems(items)[i], x, fuel)
    {
      assert items[i] in items;
      WalkItemsAt(items, i);
      SchemaMeaning(voc, document, items[i], x, fuel);
      SameValid(voc, document, items[i], x, fuel);
    }
  }

  lemma CompositionTransport(b: Context, a: Context, d: set<string>, m: Member, walked: seq<Json>, x: Json, fuel: nat)
    requires Composition(m.key) && m.value.Arr? && |m.value.items| == |walked|
    requires forall i :: 0 <= i < |walked| ==> (Valid(b, m.value.items[i], x, fuel) <==> Valid(a, walked[i], x, fuel))
    ensures Keyword(b, d, false, m, x, fuel) <==> Keyword(a, d, false, Member(m.key, Arr(walked)), x, fuel)
  {
    hide Valid, ExactlyOne, KindOf;
    ForallItems(b, a, m.value.items, walked, x, fuel);
    ExistsItem(b, a, m.value.items, walked, x, fuel);
    OneItem(b, a, m.value.items, walked, x, fuel);
    OneItem(a, b, walked, m.value.items, x, fuel);
  }

  lemma CompositionDomain(m: Member)
    requires MemberInDomain(m) && Composition(m.key)
    ensures m.value.Arr? && forall e :: e in m.value.items ==> InDomain(e)
    ensures Walk(m.value) == Arr(WalkItems(m.value.items))
  {}

  lemma {:induction false} CompositionMeaning(voc: Vocabulary, document: Json, d: set<string>, m: Member, x: Json, fuel: nat)
    requires Setting(voc, document) && MemberInDomain(m) && Composition(m.key)
    ensures Kept31(voc, document, d, m, x, fuel)
    decreases fuel, m, 1
  {
    hide InDomain, MemberInDomain, Composition, Valid, Keyword, Setting, Walk, WalkItems;
    CompositionDomain(m);
    ItemsMeaning(voc, document, m.value.items, x, fuel);
    CompositionTransport(Before(voc, document), After(voc, document), d, m, WalkItems(m.value.items), x, fuel);
  }

  lemma SameValid(voc: Vocabulary, document: Json, s: Json, x: Json, fuel: nat)
    requires SameMeaning(voc, document, s, x, fuel)
    ensures Valid(Before(voc, document), s, x, fuel) <==> Valid(After(voc, document), Walk(s), x, fuel)
  {}

  /** What the `properties` keyword asks of an object, in dialect-neutral words. */
  ghost predicate PropertiesOk(c: Context, ps: seq<Member>, qs: seq<Member>, fuel: nat) {
    forall p, q :: p in ps && q in qs && p.key == q.key ==> Valid(c, p.value, q.value, fuel)
  }

  lemma PropertiesTransport(b: Context, a: Context, ps: seq<Member>, qs: seq<Member>, fuel: nat)
    requires forall p, q :: p in ps && q in qs ==> (Valid(b, p.value, q.value, fuel) <==> Valid(a, Walk(p.value), q.value, fuel))
    ensures PropertiesOk(b, ps, qs, fuel) <==> PropertiesOk(a, WalkMembers(ps), qs, fuel)
  {
    hide Valid, Walk, WalkMembers;
    WalkedMembers(ps);
    if PropertiesOk(a, WalkMembers(ps), qs, fuel) {
      forall p, q | p in ps && q in qs && p.key == q.key ensures Valid(b, p.value, q.value, fuel) {
        assert Walked(p) in WalkMembers(ps);
        assert Walked(p).key == q.key;
      }
    }
    if PropertiesOk(b, ps, qs, fuel) {
      forall w, q | w in WalkMembers(ps) && q in qs && w.key == q.key ensures Valid(a, w.value, q.value, fuel) {
        var p :| p in ps && w == Walked(p);
      }
    }
  }

  lemma {:induction false} PropertiesMeaning(voc: Vocabulary, document: Json, d: set<string>, m: Member, x: Json, fuel: nat)
    requires Setting(voc, document) && MemberInDomain(m) && KindOf(m.key).Properties?
    ensures Kept31(voc, document, d, m, x, fuel)
    decreases fuel, m, 1
  {
    var ps := m.value.members;
    PropertiesObject(m);
    hide Setting, InDomain, Valid, IsNullable, KindOf, Walk, WalkMembers, SameMeaning, Keyword, Kept31, MemberInDomain;
    if x.Obj? {
      forall p, q | p in ps && q in x.members
        ensures Valid(Before(voc, document), p.value, q.value, fuel)
           <==> Valid(After(voc, document), Walk(p.value), q.value, fuel)
      {
        SchemaMeaning(voc, document, p.value, q.value, fuel);
        SameValid(voc, document, p.value, q.value, fuel);
      }
      PropertiesTransport(Before(voc, document), After(voc, document), ps, x.members, fuel);
    }
    PropertiesKeyword(voc, document, d, m, x, fuel);
  }

  lemma PropertiesObject(m: Member)
    requires MemberInDomain(m) && KindOf(m.key).Properties?
    ensures m.value.Obj? && !IsNullable(m.value.members)
    ensures forall p :: p in m.value.members ==> InDomain(p.value)
  {}

  /** The keyword keeps its meaning when what it asks of an object does. */
  lemma PropertiesKeyword(voc: Vocabulary, document: Json, d: set<string>, m: Member, x: Json, fuel: nat)
    requires KindOf(m.key).Properties? && m.value.Obj? && !IsNullable(m.value.members)
    requires x.Obj? ==>
      (PropertiesOk(Before(voc, document), m.value.members, x.members, fuel) <==>
       PropertiesOk(After(voc, document), WalkMembers(m.value.members), x.members, fuel))
    ensures Kept31(voc, document, d, m, x, fuel)
  {
    hide Valid, IsNullable, KindOf, Walk, WalkMembers;
    WalkNode(m.value.members);
  }

  lemma {:induction false} ChildMeaning(voc: Vocabulary, document: Json, d: set<string>, m: Member, x: Json, fuel: nat)
    requires Setting(voc, document) && MemberInDomain(m)
    requires KindOf(m.key).Not? || KindOf(m.key).Items? || KindOf(m.key).AdditionalProperties?
    ensures Kept31(voc, document, d, m, x, fuel)
    decreases fuel, m, 1
  {
    hide Setting, InDomain, Valid, KindOf, Walk, SameMeaning;
    SchemaMeaning(voc, document, m.value, x, fuel);
    SameValid(voc, document, m.value, x, fuel);
    if x.Arr? {
      forall e | e in x.items
        ensures Valid(Before(voc, document), m.value, e, fuel) <==> Valid(After(voc, document), Walk(m.value), e, fuel)
      {
        SchemaMeaning(voc, document, m.value, e, fuel);
        SameValid(voc, document, m.value, e, fuel);
      }
    }
    if x.Obj? {
      forall q | q in x.members
        ensures Valid(Before(voc, document), m.value, q.value, fuel) <==> Valid(After(voc, document), Walk(m.value), q.value, fuel)
      {
        SchemaMeaning(voc, document, m.value, q.value, fuel);
        SameValid(voc, document, m.value, q.value, fuel);
      }
    }
  }

  lemma StringsWalk(v: Json)
    requires v.Str? || (v.Arr? && forall t :: t in v.items ==> t.Str?)
    ensures Walk(v) == v
  {
    if v.Arr? { StringItems(v.items); }
    WalkIdentity(v);
  }

  lemma {:induction false} StringItems(items: seq<Json>)
    requires forall t :: t in items ==> t.Str?
    ensures ItemsNullables(items) == 0
  {
    if items != [] { StringItems(items[1..]); }
  }

  lemma {:induction false} KeywordMeaning(voc: Vocabulary, document: Json, d: set<string>, m: Member, x: Json, fuel: nat)
    requires Setting(voc, document) && MemberInDomain(m)
    ensures Kept31(voc, document, d, m, x, fuel)
    decreases fuel, m, 2
  {
    hide KindOf, Setting, InDomain, Valid, Walk, Nullables, RefOk;
    if Composition(m.key) {
      CompositionMeaning(voc, document, d, m, x, fuel);
    } else if KindOf(m.key).Properties? {
      PropertiesMeaning(voc, document, d, m, x, fuel);
    } else if KindOf(m.key).Not? || KindOf(m.key).Items? || KindOf(m.key).AdditionalProperties? {
      ChildMeaning(voc, document, d, m, x, fuel);
    } else if KindOf(m.key).Ref? {
      StringsWalk(m.value);
      RefMeaning(voc, document, m.value, x, fuel);
    } else if KindOf(m.key).Type? {
      StringsWalk(m.value);
    } else {
      WalkIdentity(m.value);
    }
  }

  // ---------------------------------------------------------------- the rewritten node's members

  lemma RestLookup(ms: seq<Member>, key: string)
    requires key != "nullable"
    ensures Lookup(Without(ms, "nullable"), key) == Lookup(ms, key)
    ensures HasKey(Without(ms, "nullable"), key) <==> HasKey(ms, key)
  {}

  /** The new `type` of a nullable node. */
  function NullableType(t: Json): Json
    requires t.Str? || t.Arr?
  {
    if t.Str? then Arr([t, Str("null")])
    else if Str("null") in t.items then t
    else Arr(t.items + [Str("null")])
  }

  predicate TypedMember(ms: seq<Member>, t: Json, m: Member)
    requires t.Str? || t.Arr?
  {
    m == Member("type", NullableType(t)) || (m in ms && m.key != "nullable" && m.key != "type")
  }

  lemma TypedMembers(ms: seq<Member>)
    requires UniqueKeys(ms) && IsNullable(ms) && Typed(ms)
    ensures forall m :: m in RewriteNullableNode(ms) <==> TypedMember(ms, Lookup(ms, "type").value, m)
  {
    hide Composed, WithoutComposition, OrNullSchema, HasKey, Put, UniqueKeys;
    var rest := Without(ms, "nullable");
    RestLookup(ms, "type");
    WithoutUnique(ms, "nullable");
    var t := Lookup(ms, "type").value;
    if t.Arr? && Str("null") in t.items {
      forall m | m in rest && m.key == "type" ensures m == Member("type", t) {
        LookupUnique(rest, m);
      }
    } else {
      PutUnique(rest, "type", NullableType(t));
    }
  }

  /** A member the rewriter neither drops nor wraps. */
  predicate Beside(m: Member) {
    m.key != "nullable" && m.key != "$ref" && m.key != "allOf" && m.key != "oneOf" && m.key != "anyOf"
  }

  lemma WithoutCompositionMembers(ms: seq<Member>)
    ensures forall m :: m in WithoutComposition(ms) <==>
      m in ms && m.key != "$ref" && m.key != "allOf" && m.key != "oneOf" && m.key != "anyOf"
  {}

  lemma ComposedMembers(ms: seq<Member>)
    requires UniqueKeys(ms) && IsNullable(ms) && !Typed(ms) && Composed(Without(ms, "nullable"))
    ensures forall m :: m in RewriteNullableNode(ms) <==>
      m == Member("anyOf", OrNullSchema(Kept(Without(ms, "nullable")))) || (m in ms && Beside(m))
  {
    hide Composed, OrNullSchema, HasKey, Put, UniqueKeys, WithoutComposition;
    var rest := Without(ms, "nullable");
    RestLookup(ms, "type");
    WithoutUnique(ms, "nullable");
    WithoutCompositionUnique(rest);
    WithoutCompositionMembers(rest);
    PutUnique(WithoutComposition(rest), "anyOf", OrNullSchema(Kept(rest)));
  }

  lemma BareMembers(ms: seq<Member>)
    requires IsNullable(ms) && !Typed(ms) && !Composed(Without(ms, "nullable"))
    ensures forall m :: m in RewriteNullableNode(ms) <==> m in ms && m.key != "nullable"
  {
    hide Composed, HasKey;
    RestLookup(ms, "type");
  }

  lemma SameLookup(a: seq<Member>, b: seq<Member>, key: string)
    requires UniqueKeys(a) && UniqueKeys(b)
    requires forall m: Member :: m.key == key ==> (m in a <==> m in b)
    ensures Lookup(a, key) == Lookup(b, key)
  {}

  lemma RewriteUnique(ms: seq<Member>)
    requires UniqueKeys(ms)
    ensures UniqueKeys(RewriteNullableNode(ms))
  {
    hide Composed, OrNullSchema, UniqueKeys, HasKey, Put, WithoutComposition;
    if IsNullable(ms) {
      var rest := Without(ms, "nullable");
      WithoutUnique(ms, "nullable");
      WithoutCompositionUnique(rest);
      match Lookup(rest, "type")
      case Some(Str(t)) => PutUnique(rest, "type", Arr([Str(t), Str("null")]));
      case Some(Arr(types)) => PutUnique(rest, "type", Arr(types + [Str("null")]));
      case _ => if Composed(rest) { PutUnique(WithoutComposition(rest), "anyOf", OrNullSchema(Kept(rest))); }
    }
  }

  lemma PropertiesKept(ms: seq<Member>)
    requires UniqueKeys(ms)
    ensures Lookup(RewriteNullableNode(ms), "properties") == Lookup(ms, "properties")
  {
    hide Composed, OrNullSchema, Typed, UniqueKeys, HasKey, RewriteNullableNode, Lookup, IsNullable, Without, NullableType;
    RewriteUnique(ms);
    if IsNullable(ms) {
      if Typed(ms) {
        TypedMembers(ms);
      } else if Composed(Without(ms, "nullable")) {
        ComposedMembers(ms);
      } else {
        BareMembers(ms);
      }
    } else {
      RewriteShrinks(ms);
    }
    SameLookup(RewriteNullableNode(ms), ms, "properties");
  }

  lemma NodeDomain(ms: seq<Member>)
    requires InDomain(Obj(ms))
    ensures UniqueKeys(ms) && forall m :: m in ms ==> MemberInDomain(m)
  {}

  lemma PropertiesDomain(m: Member)
    requires MemberInDomain(m) && m.key == "properties"
    ensures m.value.Obj? && !IsNullable(m.value.members)
  {
  }

  lemma KeysWalk(ms: seq<Member>)
    ensures (set m | m in WalkMembers(ms) :: m.key) == (set m | m in ms :: m.key)
  {
    hide WalkMembers;
    WalkedMembers(ms);
    var a, b := set m | m in ms :: m.key, set m | m in WalkMembers(ms) :: m.key;
    forall k | k in a ensures k in b {
      var m :| m in ms && m.key == k;
      assert Walked(m).key == k;
    }
  }

  /** Rewriting and walking a node leave its property names. */
  lemma DeclaredWalk(ms: seq<Member>)
    requires UniqueKeys(ms) && forall m :: m in ms ==> MemberInDomain(m)
    ensures Declared(WalkMembers(RewriteNullableNode(ms))) == Declared(ms)
  {
    hide RewriteNullableNode, IsNullable, MemberInDomain, Lookup, WalkMembers, UniqueKeys, Walk;
    var r := RewriteNullableNode(ms);
    PropertiesKept(ms);
    WalkMembersLookup(r, "properties");
    var ps := Lookup(ms, "properties");
    if ps.Some? {
      PropertiesDomain(Member("properties", ps.value));
      WalkNode(ps.value.members);
      KeysWalk(ps.value.members);
    }
  }

  // ---------------------------------------------------------------- single keywords and nodes

  lemma AnyOfPair(c: Context, d: set<string>, one: Json, two: Json, x: Json, fuel: nat)
    ensures Keyword(c, d, false, Member("anyOf", Arr([one, two])), x, fuel)
       <==> Valid(c, one, x, fuel) || Valid(c, two, x, fuel)
  {
    hide Valid, KindOf;
    Kinds("anyOf");
    var items := [one, two];
    assert items[0] in items && items[1] in items;
    assert forall e :: e in items ==> e == one || e == two;
  }

  lemma SingleMember(c: Context, m: Member, x: Json, fuel: nat)
    requires c.dialect.V31?
    ensures Valid(c, Obj([m]), x, fuel) <==> Keyword(c, Declared([m]), false, m, x, fuel)
  {}

  /** A composition does not look at its siblings. */
  lemma CompositionAlone(c: Context, d: set<string>, e: set<string>, m: Member, x: Json, fuel: nat)
    requires Composition(m.key) || KindOf(m.key).Ref?
    ensures Keyword(c, d, false, m, x, fuel) <==> Keyword(c, e, false, m, x, fuel)
  {}

  lemma NullSchemaMeaning(c: Context, x: Json, fuel: nat)
    requires c.dialect.V31?
    ensures Valid(c, NULL_SCHEMA, x, fuel) <==> x.Null?
  {
    var t := Member("type", Str("null"));
    SingleMember(c, t, x, fuel);
    hide Valid, KindOf;
    Kinds("type");
    assert HasType(c.voc, "null", x) <==> x.Null?;
    assert TypeOk(c.voc, Str("null"), x) <==> x.Null?;
  }

  lemma OrNullWalk(k: Member)
    requires k.key != "nullable"
    ensures Walk(OrNullSchema(k)) == Arr([Obj([Walked(k)]), NULL_SCHEMA])
  {
    var one := Obj([k]);
    assert !IsNullable([k]) by { assert Lookup([k], "nullable") == Lookup([], "nullable"); }
    WalkNode([k]);
    WalkMembersAt([k], 0);
    assert WalkMembers([k]) == [Walked(k)];
    OneMemberNullables(Member("type", Str("null")));
    WalkIdentity(NULL_SCHEMA);
    WalkItemsAt([one, NULL_SCHEMA], 0);
    WalkItemsAt([one, NULL_SCHEMA], 1);
    assert WalkItems([one, NULL_SCHEMA]) == [Obj([Walked(k)]), NULL_SCHEMA];
  }

  /** `anyOf: [{ kept }, { type: 'null' }]` reads "kept, or null". */
  lemma OrNullMeaning(c: Context, d: set<string>, k: Member, x: Json, fuel: nat)
    requires c.dialect.V31? && k.key in ["$ref", "allOf", "oneOf", "anyOf"]
    ensures Keyword(c, d, false, Walked(Member("anyOf", OrNullSchema(k))), x, fuel)
       <==> Keyword(c, d, false, Walked(k), x, fuel) || x.Null?
  {
    hide Valid, KindOf, Keyword, Walk, OrNullSchema;
    Kinds(k.key);
    OrNullWalk(k);
    AnyOfPair(c, d, Obj([Walked(k)]), NULL_SCHEMA, x, fuel);
    SingleMember(c, Walked(k), x, fuel);
    CompositionAlone(c, d, Declared([Walked(k)]), Walked(k), x, fuel);
    NullSchemaMeaning(c, x, fuel);
  }

  lemma NullableTypeMeaning(voc: Vocabulary, t: Json, x: Json)
    requires t.Str? || (t.Arr? && forall e :: e in t.items ==> e.Str?)
    ensures TypeOk(voc, Walk(NullableType(t)), x) <==> TypeOk(voc, t, x) || x.Null?
  {
    hide Walk;
    var n := NullableType(t);
    assert HasType(voc, "null", x) <==> x.Null?;
    assert forall e :: e in n.items <==> e == Str("null") || (t.Str? && e == t) || (t.Arr? && e in t.items) by {
      if t.Str? {
        assert n.items[0] == t && n.items[1] == Str("null");
      }
    }
    hide HasType;
    StringsWalk(n);
    if x.Null? { assert Str("null") in n.items; }
    if t.Str? { assert t in n.items; }
  }

  // ---------------------------------------------------------------- a whole node

  lemma ListMeaning(voc: Vocabulary, document: Json, d: set<string>, ms: seq<Member>, x: Json, fuel: nat)
    requires forall m :: m in ms ==> Kept31(voc, document, d, m, x, fuel)
    ensures AllKeywords(Before(voc, document), d, ms, false, x, fuel)
       <==> AllKeywords(After(voc, document), d, WalkMembers(ms), false, x, fuel)
  {
    hide Keyword, WalkMembers, Walk;
    WalkedMembers(ms);
    if AllKeywords(After(voc, document), d, WalkMembers(ms), false, x, fuel) {
      forall m | m in ms ensures Keyword(Before(voc, document), d, false, m, x, fuel) {
        assert Walked(m) in WalkMembers(ms);
      }
    }
  }

  lemma OrNullMatters(c: Context, d: set<string>, m: Member, x: Json, fuel: nat)
    ensures m.key != "type" ==> (Keyword(c, d, true, m, x, fuel) <==> Keyword(c, d, false, m, x, fuel))
    ensures m.key == "type" ==> (Keyword(c, d, true, m, x, fuel) <==> TypeOk(c.voc, m.value, x) || x.Null?)
    ensures m.key == "type" ==> (Keyword(c, d, false, m, x, fuel) <==> TypeOk(c.voc, m.value, x))
    ensures m.key == "nullable" ==> Keyword(c, d, true, m, x, fuel)
  {
    hide KindOf, Valid, RefOk, ExactlyOne, TypeOk;
    Kinds(m.key);
  }

  lemma TypedKeywords(b: Context, a: Context, d: set<string>, ms: seq<Member>, r: seq<Member>, o: Member, n: Member, x: Json, fuel: nat)
    requires o in ms && o.key == "type"
    requires forall m :: m in ms && m.key == "type" ==> m == o
    requires forall m :: m in r <==> m == n || (m in ms && m.key != "nullable" && m.key != "type")
    requires Keyword(b, d, true, o, x, fuel) <==> Keyword(a, d, false, Walked(n), x, fuel)
    requires forall m :: m in ms && m.key != "type" ==>
      (Keyword(b, d, true, m, x, fuel) <==> Keyword(a, d, false, Walked(m), x, fuel))
    requires forall m :: m in ms && m.key == "nullable" ==> Keyword(b, d, true, m, x, fuel)
    ensures AllKeywords(b, d, ms, true, x, fuel) <==> AllKeywords(a, d, WalkMembers(r), false, x, fuel)
  {
    hide Keyword, Walk, WalkMembers;
    WalkedMembers(r);
    if AllKeywords(a, d, WalkMembers(r), false, x, fuel) {
      assert n in r && Walked(n) in WalkMembers(r);
      forall m | m in ms ensures Keyword(b, d, true, m, x, fuel) {
        if m.key != "type" && m.key != "nullable" {
          assert m in r && Walked(m) in WalkMembers(r);
        }
      }
    }
    if AllKeywords(b, d, ms, true, x, fuel) {
      forall w | w in WalkMembers(r) ensures Keyword(a, d, false, w, x, fuel) {
        var m :| m in r && w == Walked(m);
      }
    }
  }

  lemma TypedMeaning(voc: Vocabulary, document: Json, ms: seq<Member>, x: Json, fuel: nat)
    requires UniqueKeys(ms) && IsNullable(ms) && Typed(ms) && forall m :: m in ms ==> MemberInDomain(m)
    requires forall m :: m in ms ==> Kept31(voc, document, Declared(ms), m, x, fuel)
    ensures AllKeywords(Before(voc, document), Declared(ms), ms, true, x, fuel)
       <==> AllKeywords(After(voc, document), Declared(ms), WalkMembers(RewriteNullableNode(ms)), false, x, fuel)
  {
    var t := Lookup(ms, "type").value;
    hide Keyword, IsNullable, Typed, UniqueKeys, RewriteNullableNode, WalkMembers, Walk, Declared, MemberInDomain,
         Lookup, NullableType, TypeOk, AllKeywords, HasKey;
    var b, a, d := Before(voc, document), After(voc, document), Declared(ms);
    var o, n := Member("type", t), Member("type", NullableType(t));
    TypeDomain(o);
    TypedMembers(ms);
    NullableTypeMeaning(voc, t, x);
    OrNullMatters(b, d, o, x, fuel);
    OrNullMatters(a, d, Walked(n), x, fuel);
    forall m | m in ms && m.key == "type" ensures m == o {
      LookupUnique(ms, m);
    }
    forall m | m in ms && m.key != "type"
      ensures Keyword(b, d, true, m, x, fuel) <==> Keyword(a, d, false, Walked(m), x, fuel)
      ensures m.key == "nullable" ==> Keyword(b, d, true, m, x, fuel)
    {
      OrNullMatters(b, d, m, x, fuel);
    }
    TypedKeywords(b, a, d, ms, RewriteNullableNode(ms), o, n, x, fuel);
  }

  lemma TypeDomain(m: Member)
    requires MemberInDomain(m) && m.key == "type"
    ensures m.value.Str? || (m.value.Arr? && forall t :: t in m.value.items ==> t.Str?)
  {}

  /** Where nothing gives a type, every keyword that is not a composition accepts null. */
  lemma SiblingAcceptsNull(voc: Vocabulary, document: Json, d: set<string>, ms: seq<Member>, m: Member, fuel: nat)
    requires VocabularyOk(voc) && MemberInDomain(m) && m in ms && UniqueKeys(ms)
    requires SiblingsAcceptNull(ms) && !Typed(ms) && !Composition(m.key) && m.key != "$ref"
    ensures Keyword(Before(voc, document), d, false, m, Null, fuel)
  {
    if m.key == "type" {
      LookupUnique(ms, m);
      TypeDomain(m);
    }
    hide Valid, RefOk, ExactlyOne, KindOf, MemberInDomain;
    Kinds(m.key);
    assert Same(Null, Null);
  }

  lemma ComposedInDomain(ms: seq<Member>)
    requires UniqueKeys(ms) && forall m :: m in ms ==> MemberInDomain(m)
    ensures var rest := Without(ms, "nullable");
      && (Composed(rest) <==> HasKey(ms, "$ref") || HasKey(ms, "allOf") || HasKey(ms, "oneOf") || HasKey(ms, "anyOf"))
      && (Composed(rest) ==> Kept(rest) in ms)
      && (HasKey(ms, "$ref") ==> Composed(rest) && Kept(rest).key == "$ref")
  {
    var rest := Without(ms, "nullable");
    RestLookup(ms, "$ref");
    TruthyComposition(ms, "allOf");
    TruthyComposition(ms, "oneOf");
    TruthyComposition(ms, "anyOf");
    hide Truthy, MemberInDomain, UniqueKeys, Lookup;
    if Composed(rest) {
      var k := Kept(rest);
      assert Member(k.key, k.value) in rest;
    }
  }

  lemma TruthyComposition(ms: seq<Member>, key: string)
    requires UniqueKeys(ms) && forall m :: m in ms ==> MemberInDomain(m)
    requires key in ["allOf", "oneOf", "anyOf"]
    ensures Truthy(Lookup(Without(ms, "nullable"), key)) <==> HasKey(ms, key)
  {
    hide UniqueKeys, KindOf;
    RestLookup(ms, key);
    Kinds(key);
    if HasKey(ms, key) {
      var m := Member(key, Lookup(ms, key).value);
      assert m in ms && MemberInDomain(m);
    }
  }

  lemma ComposedKeywords(b: Context, a: Context, d: set<string>, ms: seq<Member>, r: seq<Member>, k: Member, x: Json, fuel: nat)
    requires k in ms
    requires forall m :: m in r <==> m == Member("anyOf", OrNullSchema(k)) || (m in ms && Beside(m))
    requires forall m :: m in ms ==> (Keyword(b, d, false, m, x, fuel) <==> Keyword(a, d, false, Walked(m), x, fuel))
    requires Keyword(a, d, false, Walked(Member("anyOf", OrNullSchema(k))), x, fuel)
        <==> Keyword(a, d, false, Walked(k), x, fuel) || x.Null?
    ensures AllKeywords(a, d, WalkMembers(r), false, x, fuel)
       <==> (forall m :: m in ms && Beside(m) ==> Keyword(b, d, false, m, x, fuel))
            && (Keyword(b, d, false, k, x, fuel) || x.Null?)
  {
    hide Keyword, OrNullSchema, Beside, WalkMembers, Walk;
    var n := Member("anyOf", OrNullSchema(k));
    WalkedMembers(r);
    assert Walked(n) in WalkMembers(r);
    if AllKeywords(a, d, WalkMembers(r), false, x, fuel) {
      forall m | m in ms && Beside(m) ensures Keyword(b, d, false, m, x, fuel) {
        assert Walked(m) in WalkMembers(r);
      }
      assert Keyword(a, d, false, Walked(n), x, fuel);
    }
    if (forall m :: m in ms && Beside(m) ==> Keyword(b, d, false, m, x, fuel))
       && (Keyword(b, d, false, k, x, fuel) || x.Null?) {
      forall w | w in WalkMembers(r) ensures Keyword(a, d, false, w, x, fuel) {
        var m :| m in r && w == Walked(m);
      }
    }
  }

  /** The 3.0 reading of a nullable `$ref` node: the reference, or null. */
  lemma RefNodeReading(c: Context, ms: seq<Member>, k: Member, x: Json, fuel: nat)
    requires c.dialect.V30? && UniqueKeys(ms) && k in ms && k.key == "$ref" && IsNullable(ms) && RefNode(ms)
    ensures Valid(c, Obj(ms), x, fuel) <==> Keyword(c, Declared(ms), false, k, x, fuel) || x.Null?
    ensures forall m :: m in ms && Beside(m) ==> Keyword(c, Declared(ms), false, m, x, fuel)
  {
    LookupUnique(ms, k);
    Kinds(k.key);
    hide KindOf, RefOk, Declared, IsNullable, UniqueKeys, ExactlyOne;
    assert HasKey(ms, "$ref");
    forall m | m in ms && Beside(m) ensures Keyword(c, Declared(ms), false, m, x, fuel) {
      Kinds(m.key);
    }
  }

  /** The 3.0 reading of a nullable node with one composition and no type: the composition, or
    * null, beside keywords that accept null. */
  lemma CompositionNodeReading(voc: Vocabulary, document: Json, ms: seq<Member>, k: Member, x: Json, fuel: nat)
    requires VocabularyOk(voc) && UniqueKeys(ms) && forall m :: m in ms ==> MemberInDomain(m)
    requires IsNullable(ms) && !Typed(ms) && !HasKey(ms, "$ref") && AtMostOneComposition(ms) && SiblingsAcceptNull(ms)
    requires k in ms && Composition(k.key)
    ensures var b, d := Before(voc, document), Declared(ms);
      Valid(b, Obj(ms), x, fuel) <==>
        && (forall m :: m in ms && Beside(m) ==> Keyword(b, d, false, m, x, fuel))
        && (Keyword(b, d, false, k, x, fuel) || x.Null?)
  {
    hide KindOf, Keyword, Typed, UniqueKeys, MemberInDomain, SiblingsAcceptNull, Declared, VocabularyOk, RefOk;
    var b, d := Before(voc, document), Declared(ms);
    forall m | m in ms ensures Beside(m) ==> !Composition(m.key) && m.key != "$ref" {
      Kinds(m.key);
    }
    forall m | m in ms && !Beside(m) ensures m == k || Keyword(b, d, false, m, x, fuel) {
      Kinds(m.key);
      OrNullMatters(b, d, m, x, fuel);
    }
    if x.Null? {
      forall m | m in ms && Beside(m) ensures Keyword(b, d, false, m, x, fuel) {
        SiblingAcceptsNull(voc, document, d, ms, m, fuel);
      }
    }
    Kinds(k.key);
    assert Valid(b, Obj(ms), x, fuel) <==> x.Null? || AllKeywords(b, d, ms, false, x, fuel);
  }

  lemma BareNodeReading(voc: Vocabulary, document: Json, ms: seq<Member>, x: Json, fuel: nat)
    requires VocabularyOk(voc) && UniqueKeys(ms) && forall m :: m in ms ==> MemberInDomain(m)
    requires IsNullable(ms) && !Typed(ms) && SiblingsAcceptNull(ms)
    requires !HasKey(ms, "$ref") && !HasKey(ms, "allOf") && !HasKey(ms, "oneOf") && !HasKey(ms, "anyOf")
    ensures Valid(Before(voc, document), Obj(ms), x, fuel)
       <==> AllKeywords(Before(voc, document), Declared(ms), ms, false, x, fuel)
  {
    hide KindOf, Keyword, Typed, UniqueKeys, MemberInDomain, SiblingsAcceptNull, Declared, VocabularyOk, RefOk;
    if x.Null? {
      forall m | m in ms ensures Keyword(Before(voc, document), Declared(ms), false, m, x, fuel) {
        Kinds(m.key);
        SiblingAcceptsNull(voc, document, Declared(ms), ms, m, fuel);
      }
    }
  }

  lemma BareKeywords(b: Context, a: Context, d: set<string>, ms: seq<Member>, r: seq<Member>, x: Json, fuel: nat)
    requires forall m :: m in r <==> m in ms && m.key != "nullable"
    requires forall m :: m in ms ==> (Keyword(b, d, false, m, x, fuel) <==> Keyword(a, d, false, Walked(m), x, fuel))
    ensures AllKeywords(b, d, ms, false, x, fuel) <==> AllKeywords(a, d, WalkMembers(r), false, x, fuel)
  {
    hide Keyword, WalkMembers, Walk;
    WalkedMembers(r);
    if AllKeywords(a, d, WalkMembers(r), false, x, fuel) {
      forall m | m in ms ensures Keyword(b, d, false, m, x, fuel) {
        OrNullMatters(b, d, m, x, fuel);
        if m.key != "nullable" { assert Walked(m) in WalkMembers(r); }
      }
    }
    if AllKeywords(b, d, ms, false, x, fuel) {
      forall w | w in WalkMembers(r) ensures Keyword(a, d, false, w, x, fuel) {
        var m :| m in r && w == Walked(m);
      }
    }
  }

  lemma ComposedMeaning(voc: Vocabulary, document: Json, ms: seq<Member>, k: Member, x: Json, fuel: nat)
    requires UniqueKeys(ms) && IsNullable(ms) && !Typed(ms) && Composed(Without(ms, "nullable"))
    requires k == Kept(Without(ms, "nullable")) && k in ms
    requires forall m :: m in ms ==> Kept31(voc, document, Declared(ms), m, x, fuel)
    ensures AllKeywords(After(voc, document), Declared(ms), WalkMembers(RewriteNullableNode(ms)), false, x, fuel)
       <==> (forall m :: m in ms && Beside(m) ==> Keyword(Before(voc, document), Declared(ms), false, m, x, fuel))
            && (Keyword(Before(voc, document), Declared(ms), false, k, x, fuel) || x.Null?)
  {
    hide IsNullable, Typed, Keyword, RewriteNullableNode, Without, WalkMembers, Walk, UniqueKeys, Composed, OrNullSchema,
         Declared, AllKeywords, HasKey;
    ComposedMembers(ms);
    OrNullMeaning(After(voc, document), Declared(ms), k, x, fuel);
    ComposedKeywords(Before(voc, document), After(voc, document), Declared(ms), ms, RewriteNullableNode(ms), k, x, fuel);
  }

  lemma BareMeaning(voc: Vocabulary, document: Json, ms: seq<Member>, x: Json, fuel: nat)
    requires IsNullable(ms) && !Typed(ms) && !Composed(Without(ms, "nullable"))
    requires forall m :: m in ms ==> Kept31(voc, document, Declared(ms), m, x, fuel)
    ensures AllKeywords(Before(voc, document), Declared(ms), ms, false, x, fuel)
       <==> AllKeywords(After(voc, document), Declared(ms), WalkMembers(RewriteNullableNode(ms)), false, x, fuel)
  {
    hide IsNullable, Typed, Keyword, RewriteNullableNode, Without, WalkMembers, Walk, Composed, Declared, AllKeywords, HasKey;
    BareMembers(ms);
    BareKeywords(Before(voc, document), After(voc, document), Declared(ms), ms, RewriteNullableNode(ms), x, fuel);
  }

  lemma UntypedDomain(ms: seq<Member>)
    requires InDomain(Obj(ms)) && IsNullable(ms) && !Typed(ms)
    ensures HasKey(ms, "$ref") ==> RefNode(ms)
    ensures !HasKey(ms, "$ref") ==> AtMostOneComposition(ms) && SiblingsAcceptNull(ms)
  {}

  /** A nullable node without a type. */
  lemma UntypedMeaning(voc: Vocabulary, document: Json, ms: seq<Member>, x: Json, fuel: nat)
    requires VocabularyOk(voc) && InDomain(Obj(ms)) && IsNullable(ms) && !Typed(ms)
    requires forall m :: m in ms ==> Kept31(voc, document, Declared(ms), m, x, fuel)
    ensures Valid(Before(voc, document), Obj(ms), x, fuel)
       <==> AllKeywords(After(voc, document), Declared(ms), WalkMembers(RewriteNullableNode(ms)), false, x, fuel)
  {
    hide InDomain, IsNullable, Typed, Keyword, Valid, VocabularyOk, RewriteNullableNode, Without, WalkMembers, Walk,
         UniqueKeys, Composed, MemberInDomain, Declared, RefNode, SiblingsAcceptNull, AtMostOneComposition, HasKey,
         Kept31, AllKeywords, Beside, KindOf;
    NodeDomain(ms);
    UntypedDomain(ms);
    ComposedInDomain(ms);
    if Composed(Without(ms, "nullable")) {
      var k := Kept(Without(ms, "nullable"));
      ComposedMeaning(voc, document, ms, k, x, fuel);
      if HasKey(ms, "$ref") {
        RefNodeReading(Before(voc, document), ms, k, x, fuel);
      } else {
        KeptNotRef(ms, k);
        CompositionNodeReading(voc, document, ms, k, x, fuel);
      }
    } else {
      BareMeaning(voc, document, ms, x, fuel);
      BareNodeReading(voc, document, ms, x, fuel);
    }
  }

  lemma KeptNotRef(ms: seq<Member>, k: Member)
    requires k in ms && !HasKey(ms, "$ref") && k.key in ["$ref", "allOf", "oneOf", "anyOf"]
    ensures Composition(k.key)
  {}

  /** Where a node has a `$ref` and is not nullable, its other members are annotations. */
  lemma PlainRefMeaning(c: Context, ms: seq<Member>, x: Json, fuel: nat)
    requires c.dialect.V30? && UniqueKeys(ms) && HasKey(ms, "$ref") && !IsNullable(ms) && RefNode(ms)
    ensures Valid(c, Obj(ms), x, fuel) <==> AllKeywords(c, Declared(ms), ms, false, x, fuel)
  {
    var k := Member("$ref", Lookup(ms, "$ref").value);
    assert k in ms;
    hide KindOf, RefOk, Declared, IsNullable, UniqueKeys, ExactlyOne, Lookup;
    Kinds("$ref");
    forall m | m in ms ensures m == k || Keyword(c, Declared(ms), false, m, x, fuel) {
      Kinds(m.key);
      if m.key == "$ref" { LookupUnique(ms, m); }
    }
    assert Keyword(c, Declared(ms), false, k, x, fuel) <==> RefOk(c, k.value, x, fuel);
  }

  lemma NullableNodeMeaning(voc: Vocabulary, document: Json, ms: seq<Member>, x: Json, fuel: nat)
    requires VocabularyOk(voc) && InDomain(Obj(ms)) && IsNullable(ms)
    requires forall m :: m in ms ==> Kept31(voc, document, Declared(ms), m, x, fuel)
    ensures Valid(Before(voc, document), Obj(ms), x, fuel) <==> Valid(After(voc, document), Walk(Obj(ms)), x, fuel)
  {
    NodeDomain(ms);
    hide InDomain, Keyword, AllKeywords, Declared, IsNullable, Typed, RewriteNullableNode, WalkMembers, Walk, UniqueKeys,
         MemberInDomain, VocabularyOk, RefOk;
    WalkNode(ms);
    DeclaredWalk(ms);
    RewriteShrinks(ms);
    if Typed(ms) {
      NodeRef(ms);
      TypedMeaning(voc, document, ms, x, fuel);
    } else {
      UntypedMeaning(voc, document, ms, x, fuel);
    }
  }

  lemma NodeMeaning(voc: Vocabulary, document: Json, ms: seq<Member>, x: Json, fuel: nat)
    requires VocabularyOk(voc) && InDomain(Obj(ms))
    requires forall m :: m in ms ==> Kept31(voc, document, Declared(ms), m, x, fuel)
    ensures Valid(Before(voc, document), Obj(ms), x, fuel) <==> Valid(After(voc, document), Walk(Obj(ms)), x, fuel)
  {
    if IsNullable(ms) {
      hide *;
      NullableNodeMeaning(voc, document, ms, x, fuel);
    } else {
      NodeDomain(ms);
      hide InDomain, Keyword, AllKeywords, Declared, IsNullable, Typed, RewriteNullableNode, WalkMembers, Walk, UniqueKeys,
           MemberInDomain, VocabularyOk, RefOk;
      WalkNode(ms);
      DeclaredWalk(ms);
      RewriteShrinks(ms);
      NodeRef(ms);
      ListMeaning(voc, document, Declared(ms), ms, x, fuel);
      if HasKey(ms, "$ref") { PlainRefMeaning(Before(voc, document), ms, x, fuel); }
    }
  }

  lemma NodeRef(ms: seq<Member>)
    requires InDomain(Obj(ms))
    ensures HasKey(ms, "$ref") ==> RefNode(ms)
    ensures Typed(ms) ==> !HasKey(ms, "$ref")
  {}

  lemma {:induction false} SchemaMeaning(voc: Vocabulary, document: Json, s: Json, x: Json, fuel: nat)
    requires Setting(voc, document) && InDomain(s)
    ensures SameMeaning(voc, document, s, x, fuel)
    decreases fuel, s, 2
  {
    hide Valid, Keyword, Declared, MemberInDomain, VocabularyOk, DocumentInDomain;
    if s.Obj? {
      var ms := s.members;
      NodeDomain(ms);
      forall m | m in ms ensures Kept31(voc, document, Declared(ms), m, x, fuel) {
        KeywordMeaning(voc, document, Declared(ms), m, x, fuel);
      }
      NodeMeaning(voc, document, ms, x, fuel);
    } else {
      BoolMeaning(voc, document, s, x, fuel);
    }
  }

  lemma BoolMeaning(voc: Vocabulary, document: Json, s: Json, x: Json, fuel: nat)
    requires InDomain(s) && !s.Obj?
    ensures SameMeaning(voc, document, s, x, fuel)
  {}

  /** The rewriter preserves meaning: at every depth and through references, an instance is valid
    * under the 3.0 reading of a schema exactly when it is valid under the 3.1 reading of the
    * rewritten schema in the rewritten document. */
  lemma Meaning(voc: Vocabulary, document: Json, s: Json, x: Json, fuel: nat)
    requires VocabularyOk(voc) && DocumentInDomain(document) && InDomain(s)
    ensures Valid(Context(V30, voc, document), s, x, fuel)
       <==> Valid(Context(V31, voc, ToOpenApi31(document)), ToOpenApi31(s), x, fuel)
  {
    hide Valid, VocabularyOk, DocumentInDomain, InDomain;
    SchemaMeaning(voc, document, s, x, fuel);
  }

  // ---------------------------------------------------------------- where the domain ends

  /** Exactly when a nullable, untyped node without `$ref` keeps its meaning at an instance. For
    * null: when the keywords that are not compositions accept null. For any other instance: when
    * the compositions the rewriter drops were not needed to reject it. */
  lemma UntypedExact(voc: Vocabulary, document: Json, ms: seq<Member>, x: Json, fuel: nat)
    requires Setting(voc, document) && UniqueKeys(ms) && forall m :: m in ms ==> MemberInDomain(m)
    requires IsNullable(ms) && !Typed(ms) && !HasKey(ms, "$ref")
    ensures var b, d, rest := Before(voc, document), Declared(ms), Without(ms, "nullable");
      SameMeaning(voc, document, Obj(ms), x, fuel) <==>
        if x.Null? then
          forall m :: m in ms && Beside(m) ==> Keyword(b, d, false, m, x, fuel)
        else if (forall m :: m in ms && (Beside(m) || (Composed(rest) && m == Kept(rest))) ==> Keyword(b, d, false, m, x, fuel)) then
          forall m :: m in ms && Composition(m.key) ==> Keyword(b, d, false, m, x, fuel)
        else true
  {
    var b, d, rest := Before(voc, document), Declared(ms), Without(ms, "nullable");
    UntypedReading(b, ms, x, fuel);
    hide IsNullable, Typed, Keyword, Valid, RewriteNullableNode, Without, WalkMembers, Walk, UniqueKeys, Composed,
         MemberInDomain, Declared, HasKey, AllKeywords, Beside, KindOf;
    forall m | m in ms ensures Kept31(voc, document, d, m, x, fuel) {
      KeywordMeaning(voc, document, d, m, x, fuel);
    }
    UntypedWalked(voc, document, ms, x, fuel);
    ComposedInDomain(ms);
    forall m | m in ms
      ensures Beside(m) || Composition(m.key) || m.key == "nullable"
      ensures m.key == "nullable" ==> Keyword(b, d, false, m, x, fuel)
    {
      Sorts(ms, m);
      OrNullMatters(b, d, m, x, fuel);
    }
    if Composed(rest) {
      ComposedMeaning(voc, document, ms, Kept(rest), x, fuel);
    } else {
      BareMeaning(voc, document, ms, x, fuel);
      NoCompositions(ms);
    }
    KeywordList(b, d, ms, x, fuel);
  }

  lemma KeywordList(c: Context, d: set<string>, ms: seq<Member>, x: Json, fuel: nat)
    ensures AllKeywords(c, d, ms, false, x, fuel) <==> forall m :: m in ms ==> Keyword(c, d, false, m, x, fuel)
  {}

  lemma UntypedReading(c: Context, ms: seq<Member>, x: Json, fuel: nat)
    requires c.dialect.V30? && IsNullable(ms) && !Typed(ms) && !HasKey(ms, "$ref")
    ensures Valid(c, Obj(ms), x, fuel) <==> x.Null? || AllKeywords(c, Declared(ms), ms, false, x, fuel)
  {}

  lemma UntypedWalked(voc: Vocabulary, document: Json, ms: seq<Member>, x: Json, fuel: nat)
    requires UniqueKeys(ms) && forall m :: m in ms ==> MemberInDomain(m)
    ensures Valid(After(voc, document), Walk(Obj(ms)), x, fuel)
       <==> AllKeywords(After(voc, document), Declared(ms), WalkMembers(RewriteNullableNode(ms)), false, x, fuel)
  {
    hide AllKeywords, Declared, Walk, WalkMembers, RewriteNullableNode, MemberInDomain, UniqueKeys;
    WalkNode(ms);
    DeclaredWalk(ms);
  }

  lemma Sorts(ms: seq<Member>, m: Member)
    requires m in ms && !HasKey(ms, "$ref")
    ensures Beside(m) || Composition(m.key) || m.key == "nullable"
    ensures Beside(m) ==> !Composition(m.key)
  {}

  lemma NoCompositions(ms: seq<Member>)
    requires !HasKey(ms, "allOf") && !HasKey(ms, "oneOf") && !HasKey(ms, "anyOf")
    ensures forall m :: m in ms ==> !Composition(m.key)
  {}

  /** The comment at line 42 holds only for nodes whose other keywords accept null: an untyped
    * nullable enum keeps null exactly when null is one of its values. */
  lemma EnumExact(voc: Vocabulary, document: Json, values: seq<Json>, fuel: nat)
    requires Setting(voc, document) && ItemsNullables(values) == 0
    ensures var node := Obj([Member("nullable", Bool(true)), Member("enum", Arr(values))]);
      (forall x :: SameMeaning(voc, document, node, x, fuel)) <==> Null in values
  {
    var node := Obj([Member("nullable", Bool(true)), Member("enum", Arr(values))]);
    EnumNode(values);
    hide InDomain, Setting, SameMeaning;
    if Null in values {
      forall x ensures SameMeaning(voc, document, node, x, fuel) {
        SchemaMeaning(voc, document, node, x, fuel);
      }
    } else {
      EnumLosesNull(voc, document, values, fuel);
    }
  }

  lemma EnumLosesNull(voc: Vocabulary, document: Json, values: seq<Json>, fuel: nat)
    requires Setting(voc, document) && ItemsNullables(values) == 0 && Null !in values
    ensures var node := Obj([Member("nullable", Bool(true)), Member("enum", Arr(values))]);
      !SameMeaning(voc, document, node, Null, fuel)
  {
    var e := Member("enum", Arr(values));
    var ms := [Member("nullable", Bool(true)), e];
    EnumNode(values);
    EnumRejectsNull(Before(voc, document), Declared(ms), values, fuel);
    hide Setting, SameMeaning, MemberInDomain, IsNullable, Typed, HasKey, UniqueKeys, KindOf, Declared, Keyword, Composed, Kept;
    assert ms[1] == e && Beside(e);
    UntypedExact(voc, document, ms, Null, fuel);
  }

  lemma EnumRejectsNull(c: Context, d: set<string>, values: seq<Json>, fuel: nat)
    requires Null !in values
    ensures !Keyword(c, d, false, Member("enum", Arr(values)), Null, fuel)
  {
    Kinds("enum");
    hide KindOf, Valid;
  }

  lemma EnumNode(values: seq<Json>)
    requires ItemsNullables(values) == 0
    ensures var ms := [Member("nullable", Bool(true)), Member("enum", Arr(values))];
      && UniqueKeys(ms) && IsNullable(ms) && !Typed(ms) && !HasKey(ms, "$ref")
      && (forall m :: m in ms ==> MemberInDomain(m))
      && (Null in values ==> InDomain(Obj(ms)))
  {
    var ms := [Member("nullable", Bool(true)), Member("enum", Arr(values))];
    assert ms[1..] == [Member("enum", Arr(values))];
    assert Lookup(ms, "type") == Lookup(ms[1..], "type") == Lookup(ms[1..][1..], "type");
    Kinds("nullable");
    Kinds("enum");
  }

  lemma LookupThree(n: Member, p: Member, q: Member, key: string)
    ensures Lookup([n, p, q], key) ==
      if n.key == key then Some(n.value) else if p.key == key then Some(p.value)
      else if q.key == key then Some(q.value) else None
  {}

  lemma LostNode(n: Member, p: Member, q: Member)
    requires n == Member("nullable", Bool(true)) && p == Member("allOf", Arr([])) && q == Member("anyOf", Arr([]))
    ensures var ms := [n, p, q];
      && UniqueKeys(ms) && IsNullable(ms) && !Typed(ms) && !HasKey(ms, "$ref")
      && Composed(Without(ms, "nullable")) && Kept(Without(ms, "nullable")) == p
  {
    hide Lookup, Without;
    var ms := [n, p, q];
    LookupThree(n, p, q, "nullable");
    LookupThree(n, p, q, "type");
    LookupThree(n, p, q, "allOf");
    RestLookup(ms, "allOf");
    RestLookup(ms, "$ref");
  }

  lemma LostDomain(n: Member, p: Member, q: Member)
    requires n == Member("nullable", Bool(true)) && p == Member("allOf", Arr([])) && q == Member("anyOf", Arr([]))
    ensures MemberInDomain(n) && MemberInDomain(p) && MemberInDomain(q)
    ensures Composition(q.key) && !Beside(n) && !Beside(p) && !Beside(q)
  {
    Kinds("nullable");
    Kinds("allOf");
    Kinds("anyOf");
  }

  lemma LostKeywords(c: Context, d: set<string>, p: Member, q: Member, x: Json, fuel: nat)
    requires p == Member("allOf", Arr([])) && q == Member("anyOf", Arr([]))
    ensures Keyword(c, d, false, p, x, fuel) && !Keyword(c, d, false, q, x, fuel)
  {
    hide KindOf;
    Kinds("allOf");
    Kinds("anyOf");
  }

  /** Of two compositions at a nullable, untyped node the second is lost: here `anyOf: []`, which
    * nothing satisfies in 3.0, and which is gone in 3.1. */
  lemma SecondCompositionLost(voc: Vocabulary, document: Json, fuel: nat)
    requires Setting(voc, document)
    ensures var node := Obj([Member("nullable", Bool(true)), Member("allOf", Arr([])), Member("anyOf", Arr([]))]);
      !SameMeaning(voc, document, node, Bool(true), fuel)
  {
    hide Setting, SameMeaning, MemberInDomain, IsNullable, Typed, HasKey, UniqueKeys, KindOf, Declared, Composed, Kept,
         Keyword, Without, Composition, Beside;
    var n, p, q := Member("nullable", Bool(true)), Member("allOf", Arr([])), Member("anyOf", Arr([]));
    var ms := [n, p, q];
    assert ms[0] == n && ms[1] == p && ms[2] == q;
    LostNode(n, p, q);
    LostDomain(n, p, q);
    LostKeywords(Before(voc, document), Declared(ms), p, q, Bool(true), fuel);
    UntypedExact(voc, document, ms, Bool(true), fuel);
    assert q in ms;
  }

  // ---------------------------------------------------------------- beside a reference

  lemma RefMember(c: Context, d: set<string>, ms: seq<Member>, x: Json, fuel: nat)
    requires UniqueKeys(ms) && HasKey(ms, "$ref")
    ensures forall m :: m in ms && m.key == "$ref" ==> m == Member("$ref", Lookup(ms, "$ref").value)
    ensures Member("$ref", Lookup(ms, "$ref").value) in ms
    ensures var ref := Lookup(ms, "$ref").value;
      forall orNull :: (Keyword(c, d, orNull, Member("$ref", ref), x, fuel) <==> RefOk(c, ref, x, fuel))
  {
    hide RefOk, KindOf, UniqueKeys, Lookup;
    Kinds("$ref");
    forall m | m in ms && m.key == "$ref" ensures m == Member("$ref", Lookup(ms, "$ref").value) {
      LookupUnique(ms, m);
    }
  }

  /** What 3.0 reads at a node with a `$ref`. */
  lemma RefReading(c: Context, ms: seq<Member>, x: Json, fuel: nat)
    requires c.dialect.V30? && HasKey(ms, "$ref")
    ensures Valid(c, Obj(ms), x, fuel) <==> RefOk(c, Lookup(ms, "$ref").value, x, fuel) || (IsNullable(ms) && x.Null?)
  {}

  lemma PlainRefExact(voc: Vocabulary, document: Json, ms: seq<Member>, x: Json, fuel: nat)
    requires UniqueKeys(ms) && forall m :: m in ms ==> MemberInDomain(m)
    requires HasKey(ms, "$ref") && !IsNullable(ms)
    requires forall m :: m in ms ==> Kept31(voc, document, Declared(ms), m, x, fuel)
    ensures var b, d := Before(voc, document), Declared(ms);
      SameMeaning(voc, document, Obj(ms), x, fuel) <==>
      (RefOk(b, Lookup(ms, "$ref").value, x, fuel) ==>
       forall m :: m in ms && m.key != "$ref" ==> Keyword(b, d, false, m, x, fuel))
  {
    var b, d := Before(voc, document), Declared(ms);
    RefReading(b, ms, x, fuel);
    RefMember(b, d, ms, x, fuel);
    hide Valid, Keyword, RefOk, AllKeywords, Declared, Walk, WalkMembers, RewriteNullableNode, MemberInDomain, UniqueKeys,
         Lookup, HasKey, IsNullable;
    UntypedWalked(voc, document, ms, x, fuel);
    RewriteShrinks(ms);
    ListMeaning(voc, document, d, ms, x, fuel);
    KeywordList(b, d, ms, x, fuel);
  }

  lemma NullableRefExact(voc: Vocabulary, document: Json, ms: seq<Member>, x: Json, fuel: nat)
    requires UniqueKeys(ms) && forall m :: m in ms ==> MemberInDomain(m)
    requires HasKey(ms, "$ref") && IsNullable(ms) && !Typed(ms)
    requires forall m :: m in ms ==> Kept31(voc, document, Declared(ms), m, x, fuel)
    ensures var b, d := Before(voc, document), Declared(ms);
      SameMeaning(voc, document, Obj(ms), x, fuel) <==>
      (RefOk(b, Lookup(ms, "$ref").value, x, fuel) || x.Null? ==>
       forall m :: m in ms && Beside(m) ==> Keyword(b, d, false, m, x, fuel))
  {
    var b, d := Before(voc, document), Declared(ms);
    RefReading(b, ms, x, fuel);
    RefMember(b, d, ms, x, fuel);
    ComposedInDomain(ms);
    hide Valid, Keyword, RefOk, AllKeywords, Declared, Walk, WalkMembers, RewriteNullableNode, MemberInDomain, UniqueKeys,
         Lookup, HasKey, IsNullable, Typed, Composed, Without, Beside;
    UntypedWalked(voc, document, ms, x, fuel);
    ComposedMeaning(voc, document, ms, Kept(Without(ms, "nullable")), x, fuel);
  }

  lemma TypedRefExact(voc: Vocabulary, document: Json, ms: seq<Member>, x: Json, fuel: nat)
    requires UniqueKeys(ms) && forall m :: m in ms ==> MemberInDomain(m)
    requires HasKey(ms, "$ref") && IsNullable(ms) && Typed(ms)
    requires forall m :: m in ms ==> Kept31(voc, document, Declared(ms), m, x, fuel)
    ensures var b, d, ref := Before(voc, document), Declared(ms), Lookup(ms, "$ref").value;
      SameMeaning(voc, document, Obj(ms), x, fuel) <==>
      (RefOk(b, ref, x, fuel) || x.Null? ==>
       RefOk(b, ref, x, fuel) && forall m :: m in ms && m.key != "$ref" ==> Keyword(b, d, true, m, x, fuel))
  {
    var b, d := Before(voc, document), Declared(ms);
    RefReading(b, ms, x, fuel);
    hide Valid, Keyword, RefOk, AllKeywords, Declared, Walk, WalkMembers, RewriteNullableNode, MemberInDomain, UniqueKeys,
         Lookup, HasKey, IsNullable, Typed;
    UntypedWalked(voc, document, ms, x, fuel);
    TypedMeaning(voc, document, ms, x, fuel);
    TypedRefList(b, d, ms, x, fuel);
  }

  lemma TypedRefList(c: Context, d: set<string>, ms: seq<Member>, x: Json, fuel: nat)
    requires UniqueKeys(ms) && HasKey(ms, "$ref")
    ensures AllKeywords(c, d, ms, true, x, fuel) <==>
      RefOk(c, Lookup(ms, "$ref").value, x, fuel) && forall m :: m in ms && m.key != "$ref" ==> Keyword(c, d, true, m, x, fuel)
  {
    RefMember(c, d, ms, x, fuel);
    hide Keyword, RefOk, UniqueKeys, Lookup, HasKey;
  }

  /** Exactly when a node with a `$ref` keeps its meaning at an instance: 3.0 ignores what stands beside the
    * reference and 3.1 does not, so whatever the reference, or null, accepts the rest must accept as well. With
    * `nullable` and no type the rewriter drops the compositions first; with a type it adds null there and
    * not to the reference, so null is kept only when the reference accepts it. */
  lemma RefExact(voc: Vocabulary, document: Json, ms: seq<Member>, x: Json, fuel: nat)
    requires Setting(voc, document) && UniqueKeys(ms) && forall m :: m in ms ==> MemberInDomain(m)
    requires HasKey(ms, "$ref")
    ensures var b, d := Before(voc, document), Declared(ms);
      var refOk := RefOk(b, Lookup(ms, "$ref").value, x, fuel);
      SameMeaning(voc, document, Obj(ms), x, fuel) <==>
        if !IsNullable(ms) then
          refOk ==> forall m :: m in ms && m.key != "$ref" ==> Keyword(b, d, false, m, x, fuel)
        else if !Typed(ms) then
          refOk || x.Null? ==> forall m :: m in ms && Beside(m) ==> Keyword(b, d, false, m, x, fuel)
        else
          refOk || x.Null? ==> refOk && forall m :: m in ms && m.key != "$ref" ==> Keyword(b, d, true, m, x, fuel)
  {
    hide SameMeaning, Keyword, RefOk, Declared, MemberInDomain, UniqueKeys, Lookup, HasKey, IsNullable, Typed, Beside,
         VocabularyOk, DocumentInDomain;
    forall m | m in ms ensures Kept31(voc, document, Declared(ms), m, x, fuel) {
      KeywordMeaning(voc, document, Declared(ms), m, x, fuel);
    }
    if !IsNullable(ms) {
      PlainRefExact(voc, document, ms, x, fuel);
    } else if !Typed(ms) {
      NullableRefExact(voc, document, ms, x, fuel);
    } else {
      TypedRefExact(voc, document, ms, x, fuel);
    }
  }

  const ONE_COMPONENT := Obj([Member("components", Obj([Member("schemas", Obj([Member("A", Obj([]))]))]))])

  lemma OneComponent()
    ensures DocumentInDomain(ONE_COMPONENT)
    ensures Resolve(ONE_COMPONENT, REF_PREFIX + "A") == Some(Obj([]))
  {
    LookupOne("components", Obj([Member("schemas", Obj([Member("A", Obj([]))]))]), "nullable");
    LookupOne("schemas", Obj([Member("A", Obj([]))]), "nullable");
    LookupOne("A", Obj([]), "nullable");
    assert (REF_PREFIX + "A")[|REF_PREFIX|..] == "A";
    assert InDomain(Obj([])) by { EmptySchema(); }
  }

  lemma LookupOne(name: string, value: Json, key: string)
    ensures Lookup([Member(name, value)], key) == if name == key then Some(value) else None
  {}

  lemma EmptySchema()
    ensures InDomain(Obj([]))
    ensures forall c: Context, x, fuel: nat :: Valid(c, Obj([]), x, fuel)
  {
    assert Lookup([], "nullable") == None;
    forall c: Context, x, fuel: nat ensures Valid(c, Obj([]), x, fuel) {
      assert AllKeywords(c, Declared([]), [], false, x, fuel);
    }
  }

  /** A keyword beside a reference comes into force though nothing is nullable: 3.0 accepts `true` here, where the
    * component accepts everything, and 3.1 wants one of the enum's values. */
  lemma RefSiblingComesIntoForce(voc: Vocabulary)
    requires VocabularyOk(voc)
    ensures var node := Obj([Member("$ref", Str(REF_PREFIX + "A")), Member("enum", Arr([Null]))]);
      DocumentInDomain(ONE_COMPONENT) && Nullables(node) == 0 &&
      !SameMeaning(voc, ONE_COMPONENT, node, Bool(true), 1)
  {
    var r, e := Member("$ref", Str(REF_PREFIX + "A")), Member("enum", Arr([Null]));
    var ms := [r, e];
    var b := Before(voc, ONE_COMPONENT);
    OneComponent();
    SiblingNode(r, e);
    assert RefOk(b, r.value, Bool(true), 1) by { EmptySchema(); }
    Kinds("enum");
    assert e in ms && !Keyword(b, Declared(ms), false, e, Bool(true), 1);
    hide Setting, SameMeaning, DocumentInDomain, Keyword, RefOk, Resolve, Declared, Typed, IsNullable, MemberInDomain,
         UniqueKeys, Nullables, VocabularyOk;
    assert Setting(voc, ONE_COMPONENT) by { InSetting(voc, ONE_COMPONENT); }
    RefExact(voc, ONE_COMPONENT, ms, Bool(true), 1);
  }

  lemma InSetting(voc: Vocabulary, document: Json)
    requires VocabularyOk(voc) && DocumentInDomain(document)
    ensures Setting(voc, document)
  {}

  lemma SiblingNode(r: Member, e: Member)
    requires r == Member("$ref", Str(REF_PREFIX + "A")) && e == Member("enum", Arr([Null]))
    ensures var ms := [r, e];
      && UniqueKeys(ms) && !IsNullable(ms) && HasKey(ms, "$ref") && Lookup(ms, "$ref") == Some(r.value)
      && (forall m :: m in ms ==> MemberInDomain(m)) && Nullables(Obj(ms)) == 0
  {
    var ms := [r, e];
    assert ms[0] == r && ms[1] == e && ms[1..] == [e] && [e][1..] == [];
    Kinds("$ref");
    Kinds("enum");
    assert Lookup(ms, "nullable") == Lookup([e], "nullable") == Lookup([], "nullable");
    assert Nullables(e.value) == 0 by { assert [Null][1..] == []; }
    assert MembersNullables([e]) == Nullables(e.value) + MembersNullables([]);
    assert MembersNullables(ms) == Nullables(r.value) + MembersNullables([e]);
  }
}
