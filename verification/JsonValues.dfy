/** JSON values as a JavaScript program holds them: an object is an ordered list of members, a
  * number is the text JSON.stringify prints for it, and a string is a sequence of Unicode
  * scalar values. */
module JsonValues {

  datatype Option<+T> = None | Some(value: T)

  datatype Json =
    | Null
    | Bool(b: bool)
    | Num(text: string)
    | Str(s: string)
    | Arr(items: seq<Json>)
    | Obj(members: seq<Member>)

  datatype Member = Member(key: string, value: Json)

  predicate HasKey(ms: seq<Member>, key: string) {
    exists m :: m in ms && m.key == key
  }

  /** `record[key]` of a JavaScript object, `None` standing for `undefined`. */
  function Lookup(ms: seq<Member>, key: string): (r: Option<Json>)
    ensures r.Some? ==> Member(key, r.value) in ms
    ensures r.None? <==> !HasKey(ms, key)
  {
    if ms == [] then None
    else if ms[0].key == key then Some(ms[0].value)
    else Lookup(ms[1..], key)
  }

  predicate UniqueKeys(ms: seq<Member>) {
    forall i, j :: 0 <= i < j < |ms| ==> ms[i].key != ms[j].key
  }

  predicate IsDigit(c: char) { '0' <= c <= '9' }

  predicate IsNumberChar(c: char) {
    IsDigit(c) || c in "+-.eE"
  }

  /** The shape every number text of RFC 8259, section 6, has. */
  predicate IsNumberText(s: string) {
    && s != []
    && (IsDigit(s[0]) || s[0] == '-')
    && forall c :: c in s ==> IsNumberChar(c)
  }

  /** A value JavaScript can hold: number texts are numbers, object keys do not repeat. */
  predicate Wf(v: Json) {
    match v
    case Num(text) => IsNumberText(text)
    case Arr(items) => forall x :: x in items ==> Wf(x)
    case Obj(ms) => UniqueKeys(ms) && forall m :: m in ms ==> Wf(m.value)
    case _ => true
  }

  /** Equality up to the order of object members, at every depth. */
  ghost predicate Same(v: Json, w: Json)
    decreases v
  {
    match v
    case Arr(items) =>
      && w.Arr? && |items| == |w.items|
      && forall i :: 0 <= i < |items| ==> Same(items[i], w.items[i])
    case Obj(ms) =>
      && w.Obj? && |ms| == |w.members|
      && forall m :: m in ms ==> exists n :: n in w.members && n.key == m.key && Same(m.value, n.value)
    case _ => v == w
  }

  /** A measure of JSON trees that, unlike the datatype order, does not mind members moving. */
  function Size(v: Json): nat {
    match v
    case Arr(items) => 1 + ItemsSize(items)
    case Obj(ms) => 1 + MembersSize(ms)
    case _ => 1
  }

  function ItemsSize(items: seq<Json>): nat {
    if items == [] then 0 else 1 + Size(items[0]) + ItemsSize(items[1..])
  }

  function MembersSize(ms: seq<Member>): nat {
    if ms == [] then 0 else 1 + Size(ms[0].value) + MembersSize(ms[1..])
  }

  lemma LookupUnique(ms: seq<Member>, m: Member)
    requires UniqueKeys(ms) && m in ms
    ensures Lookup(ms, m.key) == Some(m.value)
  {}
}
