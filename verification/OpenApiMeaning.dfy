/** What a schema means before and after `toOpenApi31` (backend/src/config/openapi-3.1.util.ts):
  * the Schema Object of OpenAPI 3.0.3, section 4.7.24, against JSON Schema 2020-12. A schema and
  * a document determine which instances are valid; the rewriter is proved to keep that. */
module OpenApiMeaning {
  import opened JsonValues
  import opened OpenApi31

  // ---------------------------------------------------------------- what a schema means

  datatype Dialect = V30 | V31

  /** The assertions whose details do not matter here (lengths, ranges, patterns, formats), by
    * keyword, keyword value and instance; and which number texts are integers. */
  datatype Vocabulary = Vocabulary(check: (string, Json, Json) -> bool, isInteger: string -> bool)

  /** Such assertions are about numbers, strings, arrays or objects, and say nothing of null. */
  ghost predicate VocabularyOk(voc: Vocabulary) {
    forall key, value :: voc.check(key, value, Null)
  }

  datatype Context = Context(dialect: Dialect, voc: Vocabulary, document: Json)

  /** The keywords told apart here; `Annotation` constrains nothing, `Other` is in the vocabulary. */
  datatype Kind =
    | Annotation | Ref | Type | Enum | AllOf | OneOf | AnyOf | Not
    | Required | Properties | AdditionalProperties | Items | Other

  function KindOf(key: string): Kind {
    match key
    case "$ref" => Ref
    case "type" => Type
    case "enum" => Enum
    case "allOf" => AllOf
    case "oneOf" => OneOf
    case "anyOf" => AnyOf
    case "not" => Not
    case "required" => Required
    case "properties" => Properties
    case "additionalProperties" => AdditionalProperties
    case "items" => Items
    case "nullable" => Annotation
    case "title" => Annotation
    case "description" => Annotation
    case "default" => Annotation
    case "example" => Annotation
    case "deprecated" => Annotation
    case "readOnly" => Annotation
    case "writeOnly" => Annotation
    case "externalDocs" => Annotation
    case "xml" => Annotation
    case "discriminator" => Annotation
    case _ => if |key| >= 2 && key[0] == 'x' && key[1] == '-' then Annotation else Other
  }

  predicate Composition(key: string) {
    KindOf(key).AllOf? || KindOf(key).OneOf? || KindOf(key).AnyOf?
  }

  lemma Kinds(key: string)
    ensures KindOf(key).Ref? <==> key == "$ref"
    ensures KindOf(key).Type? <==> key == "type"
    ensures KindOf(key).Enum? <==> key == "enum"
    ensures KindOf(key).AllOf? <==> key == "allOf"
    ensures KindOf(key).OneOf? <==> key == "oneOf"
    ensures KindOf(key).AnyOf? <==> key == "anyOf"
    ensures KindOf(key).Not? <==> key == "not"
    ensures KindOf(key).Properties? <==> key == "properties"
    ensures key == "nullable" ==> KindOf(key).Annotation?
  {}

  predicate HasType(voc: Vocabulary, t: string, x: Json) {
    match t
    case "null" => x.Null?
    case "boolean" => x.Bool?
    case "number" => x.Num?
    case "integer" => x.Num? && voc.isInteger(x.text)
    case "string" => x.Str?
    case "array" => x.Arr?
    case "object" => x.Obj?
    case _ => false
  }

  predicate TypeOk(voc: Vocabulary, value: Json, x: Json) {
    match value
    case Str(t) => HasType(voc, t, x)
    case Arr(ts) => exists t :: t in ts && t.Str? && HasType(voc, t.s, x)
    case _ => false
  }

  function ObjectAt(v: Json, key: string): Json {
    if v.Obj? && HasKey(v.members, key) then Lookup(v.members, key).value else Null
  }

  const REF_PREFIX := "#/components/schemas/"

  /** A reference to a component schema. */
  function Resolve(document: Json, ref: string): Option<Json> {
    if REF_PREFIX <= ref then
      var schemas := ObjectAt(ObjectAt(document, "components"), "schemas");
      if schemas.Obj? then Lookup(schemas.members, ref[|REF_PREFIX|..]) else None
    else None
  }

  /** The property names `additionalProperties` does not apply to. */
  function Declared(ms: seq<Member>): set<string> {
    var ps := ObjectAt(Obj(ms), "properties");
    if ps.Obj? then set m | m in ps.members :: m.key else {}
  }

  /** The node extends a `type` keyword when it says `nullable: true`. */
  predicate Typed(ms: seq<Member>) {
    var t := Lookup(ms, "type");
    t.Some? && (t.value.Str? || t.value.Arr?)
  }

  /** Whether instance `x` is valid against schema `s`; references are followed `fuel` deep.
    *
    * In 3.0 a `$ref` hides its siblings; `nullable: true` adds null to the node's `type`, and at
    * a node without one reads "this schema, or null". In 3.1 every keyword applies, and
    * `nullable` is none. */
  ghost predicate Valid(c: Context, s: Json, x: Json, fuel: nat)
    decreases fuel, s, 1
  {
    match s
    case Bool(b) => b
    case Obj(ms) =>
      if c.dialect.V31? then AllKeywords(c, Declared(ms), ms, false, x, fuel)
      else if HasKey(ms, "$ref") then
        RefOk(c, Lookup(ms, "$ref").value, x, fuel) || (IsNullable(ms) && x.Null?)
      else if IsNullable(ms) && Typed(ms) then AllKeywords(c, Declared(ms), ms, true, x, fuel)
      else (IsNullable(ms) && x.Null?) || AllKeywords(c, Declared(ms), ms, false, x, fuel)
    case _ => false
  }

  ghost predicate RefOk(c: Context, ref: Json, x: Json, fuel: nat)
    decreases fuel, ref, 0
  {
    && ref.Str? && fuel > 0
    && var target := Resolve(c.document, ref.s);
       target.Some? && Valid(c, target.value, x, fuel - 1)
  }

  /** Every keyword of a node accepts `x`; `orNull` adds null to its type. */
  ghost predicate AllKeywords(c: Context, declared: set<string>, ms: seq<Member>, orNull: bool, x: Json, fuel: nat)
    decreases fuel, ms, 0
  {
    forall m :: m in ms ==> Keyword(c, declared, orNull, m, x, fuel)
  }

  ghost predicate Keyword(c: Context, declared: set<string>, orNull: bool, m: Member, x: Json, fuel: nat)
    decreases fuel, m, 0
  {
    var v := m.value;
    match KindOf(m.key)
    case Annotation => true
    case Ref => RefOk(c, v, x, fuel)
    case Type => TypeOk(c.voc, v, x) || (orNull && x.Null?)
    case Enum => v.Arr? && exists e :: e in v.items && Same(e, x)
    case AllOf => v.Arr? && forall e :: e in v.items ==> Valid(c, e, x, fuel)
    case AnyOf => v.Arr? && exists e :: e in v.items && Valid(c, e, x, fuel)
    case OneOf => v.Arr? && ExactlyOne(c, v.items, x, fuel)
    case Not => !Valid(c, v, x, fuel)
    case Required => x.Obj? && v.Arr? ==> forall e :: e in v.items && e.Str? ==> HasKey(x.members, e.s)
    case Properties =>
      x.Obj? && v.Obj? ==>
        forall p, q :: p in v.members && q in x.members && p.key == q.key ==> Valid(c, p.value, q.value, fuel)
    case AdditionalProperties =>
      x.Obj? ==> forall q :: q in x.members && q.key !in declared ==> Valid(c, v, q.value, fuel)
    case Items => x.Arr? ==> forall e :: e in x.items ==> Valid(c, v, e, fuel)
    case Other => c.voc.check(m.key, v, x)
  }

  ghost predicate ExactlyOne(c: Context, items: seq<Json>, x: Json, fuel: nat)
    decreases fuel, items, 0
  {
    exists i :: 0 <= i < |items| && Valid(c, items[i], x, fuel)
      && forall j :: 0 <= j < |items| && j != i ==> !Valid(c, items[j], x, fuel)
  }

  // ---------------------------------------------------------------- the domain

  /** Schemas the rewriter is for. At a node with `nullable: true` and no type it keeps one
    * composition and adds null to nothing else, so there the other keywords must accept null. */
  predicate InDomain(s: Json)
    decreases s, 1
  {
    match s
    case Bool(b) => true
    case Obj(ms) =>
      && UniqueKeys(ms)
      && (forall m :: m in ms ==> MemberInDomain(m))
      && (HasKey(ms, "$ref") ==> RefNode(ms))
      && (IsNullable(ms) && !Typed(ms) && !HasKey(ms, "$ref") ==> AtMostOneComposition(ms) && SiblingsAcceptNull(ms))
    case _ => false
  }

  predicate MemberInDomain(m: Member)
    decreases m, 0
  {
    match KindOf(m.key)
    case Type => m.value.Str? || (m.value.Arr? && forall t :: t in m.value.items ==> t.Str?)
    case Ref => m.value.Str?
    case AllOf => m.value.Arr? && forall e :: e in m.value.items ==> InDomain(e)
    case OneOf => m.value.Arr? && forall e :: e in m.value.items ==> InDomain(e)
    case AnyOf => m.value.Arr? && forall e :: e in m.value.items ==> InDomain(e)
    case Not => InDomain(m.value)
    case Items => InDomain(m.value)
    case AdditionalProperties => InDomain(m.value)
    case Properties =>
      m.value.Obj? && !IsNullable(m.value.members) && forall p :: p in m.value.members ==> InDomain(p.value)
    case _ => Nullables(m.value) == 0
  }

  /** Beside a `$ref` only annotations; a nullable one may also have compositions, which 3.0
    * hides and the rewriter drops. */
  predicate RefNode(ms: seq<Member>) {
    forall m :: m in ms ==>
      m.key == "$ref" || KindOf(m.key).Annotation? || (IsNullable(ms) && Composition(m.key))
  }

  predicate AtMostOneComposition(ms: seq<Member>) {
    forall m, n :: m in ms && n in ms && Composition(m.key) && Composition(n.key) ==> m == n
  }

  predicate SiblingsAcceptNull(ms: seq<Member>) {
    && !HasKey(ms, "not")
    && forall m :: m in ms && m.key == "enum" ==> m.value.Arr? && Null in m.value.items
  }

  /** The components a reference can reach are schemas of the domain. */
  predicate DocumentInDomain(document: Json) {
    var components := ObjectAt(document, "components");
    var schemas := ObjectAt(components, "schemas");
    && (document.Obj? ==> !IsNullable(document.members))
    && (components.Obj? ==> !IsNullable(components.members))
    && (schemas.Obj? ==> !IsNullable(schemas.members) && forall m :: m in schemas.members ==> InDomain(m.value))
  }

  // ---------------------------------------------------------------- members of a walked node

  lemma WalkNode(ms: seq<Member>)
    ensures Walk(Obj(ms)) == Obj(WalkMembers(RewriteNullableNode(ms)))
    ensures !IsNullable(ms) ==> Walk(Obj(ms)) == Obj(WalkMembers(ms))
  {}

  function Walked(m: Member): Member { Member(m.key, Walk(m.value)) }

  lemma WalkedMembers(ms: seq<Member>)
    ensures forall m :: m in ms ==> Walked(m) in WalkMembers(ms)
    ensures forall w :: w in WalkMembers(ms) ==> exists m :: m in ms && w == Walked(m)
  {
    forall m | m in ms ensures Walked(m) in WalkMembers(ms) {
      var i :| 0 <= i < |ms| && ms[i] == m;
      WalkMembersAt(ms, i);
    }
    forall w | w in WalkMembers(ms) ensures exists m :: m in ms && w == Walked(m) {
      var i :| 0 <= i < |ms| && WalkMembers(ms)[i] == w;
      WalkMembersAt(ms, i);
      assert ms[i] in ms;
    }
  }

  lemma ObjectAtWalk(v: Json, key: string)
    requires v.Obj? ==> !IsNullable(v.members)
    ensures ObjectAt(Walk(v), key) == Walk(ObjectAt(v, key))
  {
    if v.Obj? {
      WalkNode(v.members);
      WalkMembersLookup(v.members, key);
    }
  }

  /** References resolve to rewritten components. */
  lemma ResolveWalk(document: Json, ref: string)
    requires DocumentInDomain(document)
    ensures Resolve(Walk(document), ref)
         == if Resolve(document, ref).Some? then Some(Walk(Resolve(document, ref).value)) else None
    ensures Resolve(document, ref).Some? ==> InDomain(Resolve(document, ref).value)
  {
    hide InDomain, IsNullable;
    var components := ObjectAt(document, "components");
    var schemas := ObjectAt(components, "schemas");
    ObjectAtWalk(document, "components");
    ObjectAtWalk(components, "schemas");
    if schemas.Obj? && REF_PREFIX <= ref {
      WalkNode(schemas.members);
      WalkMembersLookup(schemas.members, ref[|REF_PREFIX|..]);
    }
  }
}
