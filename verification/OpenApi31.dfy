/** `toOpenApi31` (backend/src/config/openapi-3.1.util.ts): rewrites every `nullable: true` node
  * of an OpenAPI 3.0 document into JSON Schema 2020-12 shape. */
module OpenApi31 {
  import opened JsonValues

  // ---------------------------------------------------------------- object literals

  /** `const { [key]: _, ...rest } = ms`. */
  function Without(ms: seq<Member>, key: string): (r: seq<Member>)
    ensures forall m :: m in r <==> m in ms && m.key != key
  {
    if ms == [] then []
    else
      assert ms == [ms[0]] + ms[1..];
      if ms[0].key == key then Without(ms[1..], key) else [ms[0]] + Without(ms[1..], key)
  }

  /** `{ ...ms, [key]: value }`, and `ms[key] = value`: in place when the key is there, else last. */
  function Put(ms: seq<Member>, key: string, value: Json): seq<Member> {
    if ms == [] then [Member(key, value)]
    else if ms[0].key == key then [Member(key, value)] + ms[1..]
    else [ms[0]] + Put(ms[1..], key, value)
  }

  /** What `if (value)` tests. */
  predicate Truthy(v: Option<Json>) {
    v.Some? && v.value != Null && v.value != Bool(false) && v.value != Str("")
    && v.value != Num("0") && v.value != Num("-0")
  }

  // ---------------------------------------------------------------- the rewriter

  predicate IsNullable(ms: seq<Member>) {
    Lookup(ms, "nullable") == Some(Bool(true))
  }

  const NULL_SCHEMA := Obj([Member("type", Str("null"))])

  predicate Composed(ms: seq<Member>) {
    HasKey(ms, "$ref") || Truthy(Lookup(ms, "allOf")) || Truthy(Lookup(ms, "oneOf")) || Truthy(Lookup(ms, "anyOf"))
  }

  /** The composition the rewriter keeps: the first of `$ref`, `allOf`, `oneOf`, `anyOf`. */
  function Kept(ms: seq<Member>): (m: Member)
    requires Composed(ms)
    ensures m.key in ["$ref", "allOf", "oneOf", "anyOf"] && Lookup(ms, m.key) == Some(m.value)
  {
    var key := if HasKey(ms, "$ref") then "$ref"
               else if Truthy(Lookup(ms, "allOf")) then "allOf"
               else if Truthy(Lookup(ms, "oneOf")) then "oneOf"
               else "anyOf";
    Member(key, Lookup(ms, key).value)
  }

  /** `anyOf: [inner, { type: 'null' }]`. */
  function OrNullSchema(m: Member): Json {
    Arr([Obj([m]), NULL_SCHEMA])
  }

  function WithoutComposition(ms: seq<Member>): seq<Member> {
    Without(Without(Without(Without(ms, "$ref"), "allOf"), "oneOf"), "anyOf")
  }

  /** `rewriteNullableNode` on an object's members. */
  function RewriteNullableNode(ms: seq<Member>): seq<Member> {
    if !IsNullable(ms) then ms
    else
      var rest := Without(ms, "nullable");
      match Lookup(rest, "type")
      case Some(Str(t)) => Put(rest, "type", Arr([Str(t), Str("null")]))
      case Some(Arr(types)) =>
        if Str("null") in types then rest else Put(rest, "type", Arr(types + [Str("null")]))
      case _ =>
        if Composed(rest) then
          Put(WithoutComposition(rest), "anyOf", OrNullSchema(Kept(rest)))
        else rest
  }

  /** How many nodes of the tree say `nullable: true`. */
  function Nullables(v: Json): nat {
    match v
    case Arr(items) => ItemsNullables(items)
    case Obj(ms) => (if IsNullable(ms) then 1 else 0) + MembersNullables(ms)
    case _ => 0
  }

  function ItemsNullables(items: seq<Json>): nat {
    if items == [] then 0 else Nullables(items[0]) + ItemsNullables(items[1..])
  }

  function MembersNullables(ms: seq<Member>): nat {
    if ms == [] then 0 else Nullables(ms[0].value) + MembersNullables(ms[1..])
  }

  /** `walk`. A rewritten node is no part of its input, and may be larger; what shrinks is first
    * the number of nodes still to rewrite, and only then the size. */
  function Walk(v: Json): Json
    decreases Nullables(v), Size(v)
  {
    match v
    case Arr(items) => Arr(WalkItems(items))
    case Obj(ms) =>
      RewriteShrinks(ms);
      Obj(WalkMembers(RewriteNullableNode(ms)))
    case _ => v
  }

  function WalkItems(items: seq<Json>): (r: seq<Json>)
    ensures |r| == |items|
    decreases ItemsNullables(items), ItemsSize(items)
  {
    if items == [] then [] else [Walk(items[0])] + WalkItems(items[1..])
  }

  function WalkMembers(ms: seq<Member>): (r: seq<Member>)
    ensures |r| == |ms|
    decreases MembersNullables(ms), MembersSize(ms)
  {
    if ms == [] then [] else [Member(ms[0].key, Walk(ms[0].value))] + WalkMembers(ms[1..])
  }

  function ToOpenApi31(document: Json): Json {
    Walk(document)
  }

  // ---------------------------------------------------------------- the measure shrinks

  lemma {:induction false} WithoutShrinks(ms: seq<Member>, key: string)
    ensures MembersNullables(Without(ms, key)) + (if HasKey(ms, key) then Nullables(Lookup(ms, key).value) else 0)
         <= MembersNullables(ms)
  {
    if ms != [] {
      WithoutShrinks(ms[1..], key);
      assert Without(ms, key) == if ms[0].key == key then Without(ms[1..], key) else [ms[0]] + Without(ms[1..], key);
      if ms[0].key != key {
        assert Without(ms, key)[1..] == Without(ms[1..], key);
      }
    }
  }

  lemma {:induction false} PutNullables(ms: seq<Member>, key: string, value: Json)
    ensures MembersNullables(Put(ms, key, value)) <= MembersNullables(ms) + Nullables(value)
  {
    if ms == [] {
    } else if ms[0].key == key {
      assert Put(ms, key, value)[1..] == ms[1..];
    } else {
      PutNullables(ms[1..], key, value);
      assert Put(ms, key, value)[1..] == Put(ms[1..], key, value);
    }
  }

  lemma {:induction false} AppendScalar(items: seq<Json>, v: Json)
    requires Nullables(v) == 0
    ensures ItemsNullables(items + [v]) == ItemsNullables(items)
  {
    if items != [] {
      AppendScalar(items[1..], v);
      assert (items + [v])[1..] == items[1..] + [v];
    }
  }

  lemma LookupOtherKey(ms: seq<Member>, dropped: string, key: string)
    requires key != dropped
    ensures Lookup(Without(ms, dropped), key) == Lookup(ms, key)
  {
    if ms != [] {
      LookupOtherKey(ms[1..], dropped, key);
      assert Without(ms, dropped) ==
        if ms[0].key == dropped then Without(ms[1..], dropped) else [ms[0]] + Without(ms[1..], dropped);
    }
  }

  lemma WithoutCompositionShrinks(ms: seq<Member>, key: string)
    requires key in ["$ref", "allOf", "oneOf", "anyOf"] && HasKey(ms, key)
    ensures MembersNullables(WithoutComposition(ms)) + Nullables(Lookup(ms, key).value) <= MembersNullables(ms)
  {
    hide Without, Lookup, HasKey, Nullables, MembersNullables;
    var a := Without(ms, "$ref");
    var b := Without(a, "allOf");
    var c := Without(b, "oneOf");
    WithoutShrinks(ms, "$ref");
    WithoutShrinks(a, "allOf");
    WithoutShrinks(b, "oneOf");
    WithoutShrinks(c, "anyOf");
    if key != "$ref" {
      LookupOtherKey(ms, "$ref", key);
      if key != "allOf" {
        LookupOtherKey(a, "allOf", key);
        if key != "oneOf" { LookupOtherKey(b, "oneOf", key); }
      }
    }
  }

  lemma PairNullables(a: Json, b: Json)
    ensures ItemsNullables([a, b]) == Nullables(a) + Nullables(b)
  {
    assert [a, b][1..] == [b] && [b][1..] == [];
    assert ItemsNullables([b]) == Nullables(b) + ItemsNullables([]);
  }

  lemma OneMemberNullables(m: Member)
    requires m.key != "nullable"
    ensures Nullables(Obj([m])) == Nullables(m.value)
  {
    assert [m][1..] == [];
    assert MembersNullables([m]) == Nullables(m.value) + MembersNullables([]);
    assert Lookup([m], "nullable") == Lookup([], "nullable");
  }

  lemma OrNullSchemaNullables(m: Member)
    requires m.key != "nullable"
    ensures Nullables(OrNullSchema(m)) == Nullables(m.value)
  {
    OneMemberNullables(m);
    OneMemberNullables(Member("type", Str("null")));
    PairNullables(Obj([m]), NULL_SCHEMA);
  }

  /** Rewriting never leaves more nodes to rewrite below. */
  lemma RewriteShrinks(ms: seq<Member>)
    ensures MembersNullables(RewriteNullableNode(ms)) <= MembersNullables(ms)
    ensures !IsNullable(ms) ==> RewriteNullableNode(ms) == ms
  {
    hide Truthy, Nullables, HasKey;
    if IsNullable(ms) {
      var rest := Without(ms, "nullable");
      WithoutShrinks(ms, "nullable");
      match Lookup(rest, "type")
      case Some(Str(t)) =>
        TypeNullables(rest, t);
      case Some(Arr(types)) =>
        TypesNullables(rest, types);
      case _ =>
        if Composed(rest) { ComposedNullables(rest); }
    }
  }

  lemma TypeNullables(rest: seq<Member>, t: string)
    ensures MembersNullables(Put(rest, "type", Arr([Str(t), Str("null")]))) <= MembersNullables(rest)
  {
    PairNullables(Str(t), Str("null"));
    PutNullables(rest, "type", Arr([Str(t), Str("null")]));
  }

  lemma TypesNullables(rest: seq<Member>, types: seq<Json>)
    requires Lookup(rest, "type") == Some(Arr(types))
    ensures MembersNullables(Put(rest, "type", Arr(types + [Str("null")]))) <= MembersNullables(rest)
  {
    AppendScalar(types, Str("null"));
    ReplaceNullables(rest, "type", Arr(types + [Str("null")]));
  }

  lemma {:induction false} ReplaceNullables(ms: seq<Member>, key: string, value: Json)
    requires HasKey(ms, key) && Nullables(value) == Nullables(Lookup(ms, key).value)
    ensures MembersNullables(Put(ms, key, value)) == MembersNullables(ms)
  {
    if ms[0].key == key {
      assert Put(ms, key, value)[1..] == ms[1..];
    } else {
      assert Lookup(ms[1..], key) == Lookup(ms, key);
      ReplaceNullables(ms[1..], key, value);
      assert Put(ms, key, value)[1..] == Put(ms[1..], key, value);
    }
  }

  lemma ComposedNullables(rest: seq<Member>)
    requires Composed(rest)
    ensures MembersNullables(Put(WithoutComposition(rest), "anyOf", OrNullSchema(Kept(rest)))) <= MembersNullables(rest)
  {
    hide Nullables, MembersNullables, WithoutComposition, Composed, OrNullSchema;
    var m := Kept(rest);
    WithoutCompositionShrinks(rest, m.key);
    OrNullSchemaNullables(m);
    PutNullables(WithoutComposition(rest), "anyOf", OrNullSchema(m));
  }

  // ---------------------------------------------------------------- the walk cleans

  lemma {:induction false} WalkItemsAt(items: seq<Json>, i: nat)
    requires i < |items|
    ensures WalkItems(items)[i] == Walk(items[i])
  {
    if i > 0 { WalkItemsAt(items[1..], i - 1); }
  }

  lemma {:induction false} WalkMembersAt(ms: seq<Member>, i: nat)
    requires i < |ms|
    ensures WalkMembers(ms)[i] == Member(ms[i].key, Walk(ms[i].value))
  {
    if i > 0 { WalkMembersAt(ms[1..], i - 1); }
  }

  lemma {:induction false} WalkMembersLookup(ms: seq<Member>, key: string)
    ensures Lookup(WalkMembers(ms), key)
         == if HasKey(ms, key) then Some(Walk(Lookup(ms, key).value)) else None
  {
    if ms != [] {
      WalkMembersLookup(ms[1..], key);
      assert WalkMembers(ms)[1..] == WalkMembers(ms[1..]);
      assert ms == [ms[0]] + ms[1..];
    }
  }

  lemma WithoutLookup(ms: seq<Member>, key: string)
    ensures Lookup(Without(ms, key), key) == None
  {}

  lemma {:induction false} PutLookup(ms: seq<Member>, key: string, value: Json, other: string)
    ensures Lookup(Put(ms, key, value), other) == if other == key then Some(value) else Lookup(ms, other)
  {
    if ms != [] && ms[0].key != key {
      PutLookup(ms[1..], key, value, other);
      assert Put(ms, key, value)[1..] == Put(ms[1..], key, value);
    }
  }

  /** And a rewritten node is none itself. */
  lemma RewrittenNotNullable(ms: seq<Member>)
    ensures !IsNullable(RewriteNullableNode(ms))
    ensures IsNullable(ms) ==> !HasKey(RewriteNullableNode(ms), "nullable")
  {
    hide Truthy, Composed, WithoutComposition, OrNullSchema, HasKey;
    if IsNullable(ms) {
      var rest := Without(ms, "nullable");
      WithoutLookup(ms, "nullable");
      match Lookup(rest, "type")
      case Some(Str(t)) => PutLookup(rest, "type", Arr([Str(t), Str("null")]), "nullable");
      case Some(Arr(types)) => PutLookup(rest, "type", Arr(types + [Str("null")]), "nullable");
      case _ =>
        if Composed(rest) {
          WithoutCompositionLookup(rest, "nullable");
          PutLookup(WithoutComposition(rest), "anyOf", OrNullSchema(Kept(rest)), "nullable");
        }
    }
  }

  lemma WithoutCompositionLookup(ms: seq<Member>, key: string)
    requires key !in ["$ref", "allOf", "oneOf", "anyOf"]
    ensures Lookup(WithoutComposition(ms), key) == Lookup(ms, key)
  {
    hide Without, Lookup;
    LookupOtherKey(ms, "$ref", key);
    LookupOtherKey(Without(ms, "$ref"), "allOf", key);
    LookupOtherKey(Without(Without(ms, "$ref"), "allOf"), "oneOf", key);
    LookupOtherKey(Without(Without(Without(ms, "$ref"), "allOf"), "oneOf"), "anyOf", key);
  }

  const COMPOSITIONS := ["$ref", "allOf", "oneOf", "anyOf"]

  predicate Present(ms: seq<Member>, key: string) {
    var v := Lookup(ms, key);
    v.Some? && (key == "$ref" || v.value !in {Null, Bool(false), Str(""), Num("0"), Num("-0")})
  }

  /** What a rewritten nullable node holds under each key, `first` being the place of the first composition present, or
    * four: `"null"` comes last among the types, and the null branch last of the two. */
  lemma RewriteExactly(ms: seq<Member>, key: string, first: nat)
    requires Lookup(ms, "nullable") == Some(Bool(true)) && first <= 4
    requires (forall i | 0 <= i < first :: !Present(ms, COMPOSITIONS[i])) && (first < 4 ==> Present(ms, COMPOSITIONS[first]))
    ensures
      var got, was := Lookup(RewriteNullableNode(ms), key), Lookup(ms, key);
      got ==
      if key == "nullable" then None
      else
        match Lookup(ms, "type")
        case Some(Str(t)) => if key == "type" then Some(Arr([Str(t), Str("null")])) else was
        case Some(Arr(types)) =>
          if key == "type" && Str("null") !in types then Some(Arr(types + [Str("null")])) else was
        case _ =>
          if first == 4 then was
          else if key == "anyOf" then
            var m := Member(COMPOSITIONS[first], Lookup(ms, COMPOSITIONS[first]).value);
            Some(Arr([Obj([m]), Obj([Member("type", Str("null"))])]))
          else if key in COMPOSITIONS then None
          else was
  {
    hide Truthy, Without, Put, Lookup, HasKey;
    var rest := Without(ms, "nullable");
    WithoutLookup(ms, "nullable");
    forall k | k != "nullable" ensures Lookup(rest, k) == Lookup(ms, k) { LookupOtherKey(ms, "nullable", k); }
    forall i | 0 <= i < 4 ensures Present(rest, COMPOSITIONS[i]) <==> Present(ms, COMPOSITIONS[i]) {
      assert COMPOSITIONS[i] != "nullable" && Lookup(rest, COMPOSITIONS[i]) == Lookup(ms, COMPOSITIONS[i]);
    }
    match Lookup(rest, "type")
    case Some(Str(t)) => PutLookup(rest, "type", Arr([Str(t), Str("null")]), key);
    case Some(Arr(types)) => PutLookup(rest, "type", Arr(types + [Str("null")]), key);
    case _ => ComposedExactly(rest, key, first);
  }

  lemma ComposedExactly(rest: seq<Member>, key: string, first: nat)
    requires first <= 4
    requires (forall i | 0 <= i < first :: !Present(rest, COMPOSITIONS[i])) && (first < 4 ==> Present(rest, COMPOSITIONS[first]))
    ensures Composed(rest) <==> first < 4
    ensures first < 4 ==>
      Kept(rest) == Member(COMPOSITIONS[first], Lookup(rest, COMPOSITIONS[first]).value) &&
      Lookup(Put(WithoutComposition(rest), "anyOf", OrNullSchema(Kept(rest))), key) ==
        if key == "anyOf" then Some(OrNullSchema(Kept(rest)))
        else if key in COMPOSITIONS then None
        else Lookup(rest, key)
  {
    hide Without, Put, Lookup, HasKey, OrNullSchema;
    assert Present(rest, COMPOSITIONS[0]) <==> HasKey(rest, "$ref");
    assert Present(rest, COMPOSITIONS[1]) <==> Truthy(Lookup(rest, "allOf"));
    assert Present(rest, COMPOSITIONS[2]) <==> Truthy(Lookup(rest, "oneOf"));
    assert Present(rest, COMPOSITIONS[3]) <==> Truthy(Lookup(rest, "anyOf"));
    if first < 4 {
      PutLookup(WithoutComposition(rest), "anyOf", OrNullSchema(Kept(rest)), key);
      if key in COMPOSITIONS { CompositionGone(rest, key); } else { WithoutCompositionLookup(rest, key); }
    }
  }

  lemma CompositionGone(ms: seq<Member>, key: string)
    requires key in ["$ref", "allOf", "oneOf", "anyOf"]
    ensures Lookup(WithoutComposition(ms), key) == None
  {
    hide Lookup;
    var r := WithoutComposition(ms);
    assert forall m :: m in r ==> m.key != key;
  }

  /** No node of the output says `nullable: true`. */
  lemma {:induction false} WalkClean(v: Json)
    ensures Nullables(Walk(v)) == 0
    decreases Nullables(v), Size(v)
  {
    match v
    case Arr(items) => WalkItemsClean(items);
    case Obj(ms) =>
      var r := RewriteNullableNode(ms);
      RewriteShrinks(ms);
      RewrittenNotNullable(ms);
      WalkMembersClean(r);
      WalkMembersLookup(r, "nullable");
      if HasKey(r, "nullable") { WalkScalar(Lookup(r, "nullable").value); }
    case _ =>
  }

  lemma {:induction false} WalkItemsClean(items: seq<Json>)
    ensures ItemsNullables(WalkItems(items)) == 0
    decreases ItemsNullables(items), ItemsSize(items)
  {
    if items != [] {
      WalkClean(items[0]);
      WalkItemsClean(items[1..]);
      assert WalkItems(items)[1..] == WalkItems(items[1..]);
    }
  }

  lemma {:induction false} WalkMembersClean(ms: seq<Member>)
    ensures MembersNullables(WalkMembers(ms)) == 0
    decreases MembersNullables(ms), MembersSize(ms)
  {
    if ms != [] {
      WalkClean(ms[0].value);
      WalkMembersClean(ms[1..]);
      assert WalkMembers(ms)[1..] == WalkMembers(ms[1..]);
    }
  }

  lemma WalkScalar(v: Json)
    ensures Walk(v) == Bool(true) <==> v == Bool(true)
  {}

  /** The walk changes nothing that has no such node. */
  lemma {:induction false} WalkIdentity(v: Json)
    requires Nullables(v) == 0
    ensures Walk(v) == v
    decreases Size(v)
  {
    match v
    case Arr(items) => WalkItemsIdentity(items);
    case Obj(ms) =>
      RewriteShrinks(ms);
      WalkMembersIdentity(ms);
    case _ =>
  }

  lemma {:induction false} WalkItemsIdentity(items: seq<Json>)
    requires ItemsNullables(items) == 0
    ensures WalkItems(items) == items
    decreases ItemsSize(items)
  {
    if items != [] {
      WalkIdentity(items[0]);
      WalkItemsIdentity(items[1..]);
      assert items == [items[0]] + items[1..];
    }
  }

  lemma {:induction false} WalkMembersIdentity(ms: seq<Member>)
    requires MembersNullables(ms) == 0
    ensures WalkMembers(ms) == ms
    decreases MembersSize(ms)
  {
    if ms != [] {
      WalkIdentity(ms[0].value);
      WalkMembersIdentity(ms[1..]);
      assert ms == [ms[0]] + ms[1..];
    }
  }

  /** A second pass changes nothing. */
  lemma WalkIdempotent(v: Json)
    ensures Walk(Walk(v)) == Walk(v)
  {
    WalkClean(v);
    WalkIdentity(Walk(v));
  }

  /** Whether a `nullable` key survives at a node: exactly when it was there and not `true`. */
  lemma NullableKeySurvives(ms: seq<Member>)
    ensures HasKey(Walk(Obj(ms)).members, "nullable") <==> HasKey(ms, "nullable") && Lookup(ms, "nullable") != Some(Bool(true))
  {
    hide WalkMembers;
    var r := RewriteNullableNode(ms);
    RewriteShrinks(ms);
    RewrittenNotNullable(ms);
    WalkMembersLookup(r, "nullable");
    assert Walk(Obj(ms)) == Obj(WalkMembers(r));
  }

  // ---------------------------------------------------------------- output is well formed

  lemma {:induction false} WithoutUnique(ms: seq<Member>, key: string)
    requires UniqueKeys(ms)
    ensures UniqueKeys(Without(ms, key))
  {
    if ms != [] {
      WithoutUnique(ms[1..], key);
      var tail := Without(ms[1..], key);
      forall m | m in tail ensures m.key != ms[0].key {
        var k :| 0 <= k < |ms[1..]| && ms[1..][k] == m;
        assert ms[k+1] == m;
      }
    }
  }

  lemma TailKeys(ms: seq<Member>, m: Member)
    requires UniqueKeys(ms) && ms != [] && m in ms[1..]
    ensures m.key != ms[0].key
  {}

  lemma {:induction false} PutMembers(ms: seq<Member>, key: string, value: Json, m: Member)
    requires UniqueKeys(ms)
    ensures m in Put(ms, key, value) <==> m == Member(key, value) || (m in ms && m.key != key)
  {
    if ms != [] {
      assert ms == [ms[0]] + ms[1..];
      if m in ms[1..] { TailKeys(ms, m); }
      if ms[0].key != key { PutMembers(ms[1..], key, value, m); }
    }
  }

  lemma {:induction false} PutUnique(ms: seq<Member>, key: string, value: Json)
    requires UniqueKeys(ms)
    ensures UniqueKeys(Put(ms, key, value))
    ensures forall m :: m in Put(ms, key, value) <==> m == Member(key, value) || (m in ms && m.key != key)
  {
    forall m ensures m in Put(ms, key, value) <==> m == Member(key, value) || (m in ms && m.key != key) {
      PutMembers(ms, key, value, m);
    }
    if ms != [] && ms[0].key != key {
      PutUnique(ms[1..], key, value);
      var tail := Put(ms[1..], key, value);
      forall j | 0 <= j < |tail| ensures tail[j].key != ms[0].key {
        assert tail[j] in tail;
        if tail[j] in ms[1..] { TailKeys(ms, tail[j]); }
      }
    }
  }

  lemma WithoutCompositionUnique(ms: seq<Member>)
    requires UniqueKeys(ms)
    ensures UniqueKeys(WithoutComposition(ms))
  {
    hide UniqueKeys;
    WithoutUnique(ms, "$ref");
    WithoutUnique(Without(ms, "$ref"), "allOf");
    WithoutUnique(Without(Without(ms, "$ref"), "allOf"), "oneOf");
    WithoutUnique(Without(Without(Without(ms, "$ref"), "allOf"), "oneOf"), "anyOf");
  }

  lemma PutWf(ms: seq<Member>, key: string, value: Json)
    requires UniqueKeys(ms) && Wf(value) && forall m :: m in ms ==> Wf(m.value)
    ensures Wf(Obj(Put(ms, key, value)))
  {
    PutUnique(ms, key, value);
  }

  lemma TypesWf(types: seq<Json>)
    requires forall t :: t in types ==> Wf(t)
    ensures Wf(Arr(types + [Str("null")]))
  {}

  /** Rewriting a JavaScript object gives a JavaScript object. */
  lemma RewriteWf(ms: seq<Member>)
    requires Wf(Obj(ms))
    ensures Wf(Obj(RewriteNullableNode(ms)))
  {
    hide Truthy, Composed, WithoutComposition;
    if IsNullable(ms) {
      var rest := Without(ms, "nullable");
      WithoutUnique(ms, "nullable");
      match Lookup(rest, "type")
      case Some(Str(t)) =>
        TypesWf([Str(t)]);
        assert [Str(t)] + [Str("null")] == [Str(t), Str("null")];
        PutWf(rest, "type", Arr([Str(t), Str("null")]));
      case Some(Arr(types)) =>
        assert Member("type", Arr(types)) in rest;
        TypesWf(types);
        PutWf(rest, "type", Arr(types + [Str("null")]));
      case _ =>
        if Composed(rest) { ComposedWf(rest); }
    }
  }

  lemma ComposedWf(rest: seq<Member>)
    requires Wf(Obj(rest)) && Composed(rest)
    ensures Wf(Obj(Put(WithoutComposition(rest), "anyOf", OrNullSchema(Kept(rest)))))
  {
    var m := Kept(rest);
    WithoutCompositionUnique(rest);
    assert Member(m.key, m.value) in rest;
    assert Wf(Obj([m])) && Wf(NULL_SCHEMA);
    PutWf(WithoutComposition(rest), "anyOf", OrNullSchema(m));
  }

  // ---------------------------------------------------------------- the walk as a loop

  lemma {:induction false} ItemShrinks(items: seq<Json>, i: nat)
    requires i < |items|
    ensures Nullables(items[i]) <= ItemsNullables(items) && Size(items[i]) < ItemsSize(items)
  {
    if i > 0 { ItemShrinks(items[1..], i - 1); }
  }

  lemma {:induction false} MemberShrinks(ms: seq<Member>, i: nat)
    requires i < |ms|
    ensures Nullables(ms[i].value) <= MembersNullables(ms) && Size(ms[i].value) < MembersSize(ms)
  {
    if i > 0 { MemberShrinks(ms[1..], i - 1); }
  }

  lemma WalkUnfolds(v: Json)
    ensures v.Arr? ==> Walk(v) == Arr(WalkItems(v.items))
    ensures v.Arr? ==> Nullables(v) == ItemsNullables(v.items) && Size(v) == 1 + ItemsSize(v.items)
    ensures v.Obj? ==> Walk(v) == Obj(WalkMembers(RewriteNullableNode(v.members)))
    ensures v.Obj? ==> Nullables(v) == (if IsNullable(v.members) then 1 else 0) + MembersNullables(v.members)
                       && Size(v) == 1 + MembersSize(v.members)
    ensures !v.Arr? && !v.Obj? ==> Walk(v) == v
  {}

  /** `walk` with its loops, filling `result` one entry at a time. */
  method WalkLoop(value: Json) returns (r: Json)
    requires Wf(value)
    ensures r == Walk(value)
    decreases Nullables(value), Size(value)
  {
    hide Walk, WalkItems, WalkMembers, RewriteNullableNode, Nullables, ItemsNullables, MembersNullables, Size,
         ItemsSize, MembersSize, Put, HasKey, IsNullable;
    WalkUnfolds(value);
    if value.Arr? {
      var mapped := [];
      for i := 0 to |value.items|
        invariant mapped == WalkItems(value.items)[..i]
      {
        ItemShrinks(value.items, i);
        WalkItemsAt(value.items, i);
        var item := WalkLoop(value.items[i]);
        mapped := mapped + [item];
      }
      return Arr(mapped);
    }
    if value.Obj? {
      var rewritten := RewriteNullableNode(value.members);
      RewriteShrinks(value.members);
      RewriteWf(value.members);
      var result: seq<Member> := [];
      for i := 0 to |rewritten|
        invariant result == WalkMembers(rewritten)[..i]
      {
        MemberShrinks(rewritten, i);
        assert rewritten[i] in rewritten;
        var child := WalkLoop(rewritten[i].value);
        FreshKey(rewritten, i);
        PutAppends(result, rewritten[i].key, child);
        WalkMembersAt(rewritten, i);
        result := Put(result, rewritten[i].key, child);
      }
      return Obj(result);
    }
    return value;
  }

  lemma FreshKey(ms: seq<Member>, i: nat)
    requires UniqueKeys(ms) && i < |ms|
    ensures !HasKey(WalkMembers(ms)[..i], ms[i].key)
  {
    var w := WalkMembers(ms)[..i];
    forall m | m in w ensures m.key != ms[i].key {
      var k :| 0 <= k < |w| && w[k] == m;
      WalkMembersAt(ms, k);
    }
  }

  lemma {:induction false} PutAppends(ms: seq<Member>, key: string, value: Json)
    requires !HasKey(ms, key)
    ensures Put(ms, key, value) == ms + [Member(key, value)]
  {
    if ms != [] {
      assert ms == [ms[0]] + ms[1..];
      PutAppends(ms[1..], key, value);
    }
  }
}
