/** `stableStringify` (backend/src/modules/audit/audit-hash.util.ts): JSON text with object keys
  * sorted at every depth. The main results say that the text can be read back (RFC 8259), and
  * that two values print alike exactly when they are equal up to member order. */
module CanonicalJson {
  import opened JsonValues

  // ---------------------------------------------------------------- key order

  /** The UTF-16 code units of a string: `Array.prototype.sort` compares these. */
  function Utf16(s: string): seq<int> {
    if s == [] then []
    else
      var c := s[0] as int;
      (if c < 0x10000 then [c]
       else [0xD800 + (c - 0x10000) / 0x400, 0xDC00 + (c - 0x10000) % 0x400]) + Utf16(s[1..])
  }

  predicate UnitsLeq(a: seq<int>, b: seq<int>) {
    a == [] || (b != [] && (a[0] < b[0] || (a[0] == b[0] && UnitsLeq(a[1..], b[1..]))))
  }

  predicate KeyLeq(a: string, b: string) {
    UnitsLeq(Utf16(a), Utf16(b))
  }

  lemma UnitsTotal(a: seq<int>, b: seq<int>)
    ensures UnitsLeq(a, b) || UnitsLeq(b, a)
  {}

  lemma UnitsAntisymmetric(a: seq<int>, b: seq<int>)
    requires UnitsLeq(a, b) && UnitsLeq(b, a)
    ensures a == b
  {}

  lemma UnitsTransitive(a: seq<int>, b: seq<int>, c: seq<int>)
    requires UnitsLeq(a, b) && UnitsLeq(b, c)
    ensures UnitsLeq(a, c)
  {}

  lemma {:induction false} Utf16Injective(a: string, b: string)
    requires Utf16(a) == Utf16(b)
    ensures a == b
  {
    if a == [] || b == [] {
    } else {
      var u, v := Utf16(a), Utf16(b);
      var c, d := a[0] as int, b[0] as int;
      assert u[0] == v[0];
      if c < 0x10000 {
        assert d < 0x10000;
        assert Utf16(a[1..]) == u[1..] && Utf16(b[1..]) == v[1..];
      } else {
        assert d >= 0x10000;
        assert u[1] == v[1];
        assert c == d;
        assert Utf16(a[1..]) == u[2..] && Utf16(b[1..]) == v[2..];
      }
      Utf16Injective(a[1..], b[1..]);
      assert a == [a[0]] + a[1..] && b == [b[0]] + b[1..];
    }
  }

  lemma KeyOrder(a: string, b: string, c: string)
    ensures KeyLeq(a, b) || KeyLeq(b, a)
    ensures KeyLeq(a, b) && KeyLeq(b, a) ==> a == b
    ensures KeyLeq(a, b) && KeyLeq(b, c) ==> KeyLeq(a, c)
  {
    UnitsTotal(Utf16(a), Utf16(b));
    if KeyLeq(a, b) && KeyLeq(b, a) {
      UnitsAntisymmetric(Utf16(a), Utf16(b));
      Utf16Injective(a, b);
    }
    if KeyLeq(a, b) && KeyLeq(b, c) { UnitsTransitive(Utf16(a), Utf16(b), Utf16(c)); }
  }

  /** Which of two different characters `sort` puts first: the one with the smaller code point, except that
    * U+E000 to U+FFFF come after the characters that take two code units. */
  predicate CharBefore(c: char, d: char) {
    var late, late' := 0xE000 <= c as int < 0x10000, 0xE000 <= d as int < 0x10000;
    if late == late' then c < d else late'
  }

  lemma Utf16Cons(s: string)
    requires s != ""
    ensures Utf16(s) == Utf16([s[0]]) + Utf16(s[1..])
  {
    assert [s[0]][1..] == "" && Utf16("") == [];
  }

  lemma KeyLeqHead(a: string, b: string)
    requires a != "" && b != ""
    ensures KeyLeq(a, b) <==> if a[0] == b[0] then KeyLeq(a[1..], b[1..]) else CharBefore(a[0], b[0])
  {
    Utf16Cons(a);
    Utf16Cons(b);
    if a[0] == b[0] {
      UnitsShared(Utf16([a[0]]), Utf16(a[1..]), Utf16(b[1..]));
    } else {
      CharUnits(a[0], b[0], Utf16(a[1..]), Utf16(b[1..]));
    }
  }

  lemma {:induction false} UnitsShared(p: seq<int>, a: seq<int>, b: seq<int>)
    ensures UnitsLeq(p + a, p + b) <==> UnitsLeq(a, b)
  {
    if p == [] {
      assert p + a == a && p + b == b;
    } else {
      UnitsShared(p[1..], a, b);
      assert (p + a)[1..] == p[1..] + a && (p + b)[1..] == p[1..] + b;
    }
  }

  lemma CharUnits(c: char, d: char, x: seq<int>, y: seq<int>)
    requires c != d
    ensures UnitsLeq(Utf16([c]) + x, Utf16([d]) + y) <==> CharBefore(c, d)
  {
    var u, v := Utf16([c]), Utf16([d]);
    assert [c][1..] == "" && [d][1..] == "";
    assert (u + x)[0] == u[0] && (v + y)[0] == v[0];
    if u[0] == v[0] {
      assert |u| == 2 && |v| == 2 && u[1] != v[1];
      assert (u + x)[1..][0] == u[1] && (v + y)[1..][0] == v[1];
    }
  }

  /** The strings agree up to place `k`, where `a` has the character that sorts first. */
  predicate BeforeAt(a: string, b: string, k: nat) {
    k < |a| && k < |b| && a[..k] == b[..k] && a[k] != b[k] && CharBefore(a[k], b[k])
  }

  /** The order itself: a string comes before those it begins, and otherwise the first difference decides. */
  lemma {:induction false} KeyOrderExactly(a: string, b: string)
    ensures KeyLeq(a, b) <==> a <= b || exists k: nat :: BeforeAt(a, b, k)
  {
    if a != "" && b != "" {
      KeyLeqHead(a, b);
      BeforeAtHead(a, b);
      if a[0] == b[0] {
        hide KeyLeq, BeforeAt, CharBefore;
        KeyOrderExactly(a[1..], b[1..]);
        BeforeTail(a, b);
        PrefixTail(a, b);
      } else {
        assert BeforeAt(a, b, 0) <==> CharBefore(a[0], b[0]);
      }
    }
  }

  lemma PrefixTail(a: string, b: string)
    requires a != "" && b != "" && a[0] == b[0]
    ensures a <= b <==> a[1..] <= b[1..]
  {
    assert a == [a[0]] + a[1..] && b == [b[0]] + b[1..];
  }

  lemma BeforeTail(a: string, b: string)
    requires a != "" && b != "" && a[0] == b[0]
    ensures (exists k: nat :: BeforeAt(a, b, k)) <==> exists k: nat :: BeforeAt(a[1..], b[1..], k)
  {
    BeforeAtHead(a, b);
    hide BeforeAt, CharBefore;
    forall k: nat ensures BeforeAt(a, b, k + 1) <==> BeforeAt(a[1..], b[1..], k) { BeforeAtTail(a, b, k); }
    if k: nat :| BeforeAt(a, b, k) { assert BeforeAt(a, b, (k - 1) + 1) && BeforeAt(a[1..], b[1..], k - 1); }
    if k: nat :| BeforeAt(a[1..], b[1..], k) { assert BeforeAt(a, b, k + 1); }
  }

  lemma BeforeAtTail(a: string, b: string, k: nat)
    requires a != "" && b != "" && a[0] == b[0]
    ensures BeforeAt(a, b, k + 1) <==> BeforeAt(a[1..], b[1..], k)
  {
    hide CharBefore;
    if k < |a[1..]| && k < |b[1..]| {
      assert a[..k+1] == [a[0]] + a[1..][..k] && b[..k+1] == [b[0]] + b[1..][..k];
      assert a[1..][..k] == a[..k+1][1..] && b[1..][..k] == b[..k+1][1..];
    }
  }

  /** Strings that differ in the first character differ nowhere first but there. */
  lemma BeforeAtHead(a: string, b: string)
    requires a != "" && b != ""
    ensures BeforeAt(a, b, 0) <==> a[0] != b[0] && CharBefore(a[0], b[0])
    ensures forall k: nat :: BeforeAt(a, b, k) && a[0] != b[0] ==> k == 0
  {
    assert a[..0] == b[..0];
    forall k: nat | k > 0 && BeforeAt(a, b, k) ensures a[0] == b[0] {
      assert a[..k][0] == a[0] && b[..k][0] == b[0];
    }
  }

  /** Texts of one length in front decide first. */
  lemma {:induction false} KeyLeqBlocks(p: string, x: string, q: string, y: string)
    requires |p| == |q|
    ensures KeyLeq(p + x, q + y) <==> if p == q then KeyLeq(x, y) else KeyLeq(p, q)
  {
    hide KeyLeq, CharBefore;
    if p == "" {
      assert p + x == x && q + y == y;
    } else {
      KeyLeqHead(p + x, q + y);
      KeyLeqHead(p, q);
      KeyLeqBlocks(p[1..], x, q[1..], y);
      assert (p + x)[1..] == p[1..] + x && (q + y)[1..] == q[1..] + y;
      assert p == [p[0]] + p[1..] && q == [q[0]] + q[1..];
    }
  }

  // ---------------------------------------------------------------- sorting

  function InsertMember(m: Member, ms: seq<Member>): seq<Member> {
    if ms == [] then [m]
    else if KeyLeq(m.key, ms[0].key) then [m] + ms
    else [ms[0]] + InsertMember(m, ms[1..])
  }

  /** The members of an object in the order of `Object.keys(record).sort()`. */
  function SortMembers(ms: seq<Member>): (r: seq<Member>)
    ensures MembersSize(r) == MembersSize(ms)
  {
    if ms == [] then []
    else
      InsertSize(ms[0], SortMembers(ms[1..]));
      InsertMember(ms[0], SortMembers(ms[1..]))
  }

  lemma {:induction false} InsertSize(m: Member, ms: seq<Member>)
    ensures MembersSize(InsertMember(m, ms)) == 1 + Size(m.value) + MembersSize(ms)
  {
    if ms == [] {
    } else if KeyLeq(m.key, ms[0].key) {
      assert ([m] + ms)[1..] == ms;
    } else {
      InsertSize(m, ms[1..]);
      assert ([ms[0]] + InsertMember(m, ms[1..]))[1..] == InsertMember(m, ms[1..]);
    }
  }

  predicate SortedByKey(ms: seq<Member>) {
    forall i, j :: 0 <= i < j < |ms| ==> KeyLeq(ms[i].key, ms[j].key)
  }

  lemma {:induction false} InsertMultiset(m: Member, ms: seq<Member>)
    ensures multiset(InsertMember(m, ms)) == multiset(ms) + multiset{m}
  {
    if ms != [] {
      InsertMultiset(m, ms[1..]);
      assert ms == [ms[0]] + ms[1..];
    }
  }

  /** A member no greater than any of a sorted list may be put in front of it. */
  lemma SortedCons(m: Member, ms: seq<Member>)
    requires SortedByKey(ms) && forall x :: x in ms ==> KeyLeq(m.key, x.key)
    ensures SortedByKey([m] + ms)
  {}

  lemma {:induction false} InsertSorted(m: Member, ms: seq<Member>)
    requires SortedByKey(ms)
    ensures SortedByKey(InsertMember(m, ms))
  {
    if ms == [] {
    } else {
      KeyOrder(m.key, ms[0].key, m.key);
      if KeyLeq(m.key, ms[0].key) {
        forall x | x in ms ensures KeyLeq(m.key, x.key) {
          var j :| 0 <= j < |ms| && ms[j] == x;
          KeyOrder(m.key, ms[0].key, x.key);
        }
        SortedCons(m, ms);
      } else {
        var tail := InsertMember(m, ms[1..]);
        InsertSorted(m, ms[1..]);
        InsertMultiset(m, ms[1..]);
        forall x | x in tail ensures KeyLeq(ms[0].key, x.key) {
          assert x in multiset(tail);
          assert x == m || x in ms[1..];
        }
        SortedCons(ms[0], tail);
      }
    }
  }

  /** Sorting neither drops, duplicates nor invents members, and the keys come out in order. */
  lemma {:induction false} SortMembersSorts(ms: seq<Member>)
    ensures SortedByKey(SortMembers(ms))
    ensures multiset(SortMembers(ms)) == multiset(ms)
  {
    if ms == [] {
    } else {
      SortMembersSorts(ms[1..]);
      InsertSorted(ms[0], SortMembers(ms[1..]));
      InsertMultiset(ms[0], SortMembers(ms[1..]));
      assert ms == [ms[0]] + ms[1..];
    }
  }

  lemma {:induction false} MultisetUnique(a: seq<Member>, b: seq<Member>)
    requires multiset(a) == multiset(b) && UniqueKeys(a)
    ensures |a| == |b| && UniqueKeys(b)
    ensures forall m :: m in a <==> m in b
  {
    assert |multiset(a)| == |a| && |multiset(b)| == |b|;
    forall m ensures m in a <==> m in b {
      assert m in a <==> m in multiset(a);
      assert m in b <==> m in multiset(b);
    }
    forall i, j | 0 <= i < j < |b| ensures b[i].key != b[j].key {
      if b[i].key == b[j].key {
        assert b[i] in a && b[j] in a;
        assert b[i] == b[j];
        assert b == b[..i] + [b[i]] + b[i+1..j] + [b[j]] + b[j+1..];
        assert multiset(b)[b[i]] >= 2;
        UniqueCount(a, b[i]);
      }
    }
  }

  lemma {:induction false} UniqueCount(a: seq<Member>, m: Member)
    requires UniqueKeys(a)
    ensures multiset(a)[m] <= 1
  {
    if m in a {
      var i :| 0 <= i < |a| && a[i] == m;
      assert a == a[..i] + [m] + a[i+1..];
      assert m !in a[..i] && m !in a[i+1..];
    }
  }

  // ---------------------------------------------------------------- printing

  const HEX := "0123456789abcdef"

  /** One character inside a JSON.stringify string literal (RFC 8259, section 7). */
  function EscapeChar(c: char): string {
    if c == '\"' then "\\\""
    else if c == '\\' then "\\\\"
    else if c as int == 8 then "\\b"
    else if c as int == 9 then "\\t"
    else if c as int == 10 then "\\n"
    else if c as int == 12 then "\\f"
    else if c as int == 13 then "\\r"
    else if (c as int) < 32 then "\\u00" + [HEX[c as int / 16], HEX[c as int % 16]]
    else [c]
  }

  function Escape(s: string): string {
    if s == [] then "" else EscapeChar(s[0]) + Escape(s[1..])
  }

  function Quote(s: string): string {
    "\"" + (Escape(s) + "\"")
  }

  /** `JSON.stringify` of a null, boolean, number or string. */
  function Scalar(v: Json): string
    requires !v.Arr? && !v.Obj?
  {
    match v
    case Null => "null"
    case Bool(b) => if b then "true" else "false"
    case Num(text) => text
    case Str(s) => Quote(s)
  }

  /** The canonical text the audit hash is taken of. */
  function StableStringify(v: Json): string
    decreases Size(v)
  {
    match v
    case Arr(items) => "[" + (StableItems(items) + "]")
    case Obj(ms) => "{" + (StableEntries(SortMembers(ms)) + "}")
    case _ => Scalar(v)
  }

  function StableItems(items: seq<Json>): string
    decreases ItemsSize(items)
  {
    if items == [] then ""
    else if |items| == 1 then StableStringify(items[0])
    else StableStringify(items[0]) + ("," + StableItems(items[1..]))
  }

  function StableEntries(ms: seq<Member>): string
    decreases MembersSize(ms)
  {
    if ms == [] then ""
    else
      var entry := Quote(ms[0].key) + (":" + StableStringify(ms[0].value));
      if |ms| == 1 then entry else entry + ("," + StableEntries(ms[1..]))
  }

  predicate IsLowerHex(c: char, value: int) {
    (IsDigit(c) && value == c as int - '0' as int) || ('a' <= c <= 'f' && value == c as int - 'a' as int + 10)
  }

  lemma QuoteOne(c: char)
    ensures Quote([c]) == "\"" + EscapeChar(c) + "\""
  {
    assert [c][1..] == "" && Escape("") == "" && Escape([c]) == EscapeChar(c);
  }

  /** How `JSON.stringify` spells each character: the quote, the backslash and five controls by a letter, other
    * controls by four lower-case hex digits, anything else as itself. */
  lemma QuoteSpells(c: char)
    ensures Quote("\"") == "\"" + "\\\"" + "\"" && Quote("\\") == "\"" + "\\\\" + "\""
    ensures Quote([8 as char]) == "\"" + "\\b" + "\"" && Quote("\t") == "\"" + "\\t" + "\""
    ensures Quote("\n") == "\"" + "\\n" + "\"" && Quote([12 as char]) == "\"" + "\\f" + "\""
    ensures Quote("\r") == "\"" + "\\r" + "\""
    ensures (c as int) < 32 && c as int !in [8, 9, 10, 12, 13] ==>
      exists h, l :: Quote([c]) == "\"" + ("\\u00" + [h, l]) + "\"" && IsLowerHex(h, c as int / 16) && IsLowerHex(l, c as int % 16)
    ensures c as int >= 32 && c != '\"' && c != '\\' ==> Quote([c]) == "\"" + [c] + "\""
  {
    QuoteOne(c);
    QuoteOne('\"');
    QuoteOne('\\');
    QuoteOne(8 as char);
    QuoteOne('\t');
    QuoteOne('\n');
    QuoteOne(12 as char);
    QuoteOne('\r');
    hide Quote, Escape;
    if (c as int) < 32 && c as int !in [8, 9, 10, 12, 13] {
      var h, l := HEX[c as int / 16], HEX[c as int % 16];
      assert EscapeChar(c) == "\\u00" + [h, l];
      assert IsLowerHex(h, c as int / 16) && IsLowerHex(l, c as int % 16);
    }
  }

  lemma InsertOne(m: Member, n: Member)
    ensures InsertMember(m, [n]) == if KeyLeq(m.key, n.key) then [m, n] else [n, m]
  {
    hide KeyLeq;
    assert [n][1..] == [] && InsertMember(m, []) == [m];
    assert [m] + [n] == [m, n] && [n] + [m] == [n, m];
  }

  lemma SortTwo(a: Member, b: Member)
    requires KeyLeq(a.key, b.key) && a.key != b.key
    ensures SortMembers([a, b]) == SortMembers([b, a]) == [a, b]
  {
    KeyOrder(a.key, b.key, a.key);
    InsertOne(a, b);
    InsertOne(b, a);
    hide KeyLeq, InsertMember;
    assert [a, b][1..] == [b] && [b, a][1..] == [a] && [a][1..] == [] && [b][1..] == [];
    assert SortMembers([a]) == [a] && SortMembers([b]) == [b] by { SortOne(a); SortOne(b); }
  }

  lemma SortOne(m: Member)
    ensures SortMembers([m]) == [m]
  {
    assert [m][1..] == [];
  }

  lemma EntriesText(a: Member, b: Member)
    ensures StableEntries([a, b])
         == Quote(a.key) + (":" + StableStringify(a.value)) + ("," + (Quote(b.key) + (":" + StableStringify(b.value))))
  {
    hide Quote;
    assert [a, b][1..] == [b];
    assert StableEntries([b]) == Quote(b.key) + (":" + StableStringify(b.value));
  }

  /** Of two members the one with the smaller key is printed first, whichever way round they are given. */
  lemma SmallerKeyFirst(a: Member, b: Member)
    requires KeyLeq(a.key, b.key) && a.key != b.key
    ensures StableStringify(Obj([a, b])) == StableStringify(Obj([b, a]))
         == "{" + (Quote(a.key) + (":" + StableStringify(a.value)) + ("," + (Quote(b.key) + (":" + StableStringify(b.value)))) + "}")
  {
    SortTwo(a, b);
    EntriesText(a, b);
    hide Quote, StableEntries, SortMembers, KeyLeq;
  }

  lemma ItemsText(v: Json, w: Json)
    ensures StableItems([v, w]) == StableStringify(v) + ("," + StableStringify(w))
  {
    assert [v, w][1..] == [w];
    assert StableItems([w]) == StableStringify(w);
  }

  lemma ArrayText(v: Json, w: Json)
    ensures StableStringify(Arr([v, w])) == "[" + (StableStringify(v) + ("," + StableStringify(w)) + "]")
  {
    ItemsText(v, w);
    hide StableItems;
  }

  /** A text in full. */
  lemma StringifyExample()
    ensures StableStringify(Obj([Member("b", Arr([Num("1"), Bool(true)])), Member("B", Null)])) == "{\"B\":null,\"b\":[1,true]}"
  {
    hide *;
    var a, b := Member("B", Null), Member("b", Arr([Num("1"), Bool(true)]));
    ExampleKeys();
    SmallerKeyFirst(a, b);
    ExampleArray();
    PlainTexts("1");
    ExamplePieces();
  }

  lemma ExampleKeys()
    ensures KeyLeq("B", "b") && Quote("b") == "\"b\"" && Quote("B") == "\"B\""
  {
    KeyLeqHead("B", "b");
    QuoteSpells('b');
    QuoteSpells('B');
  }

  lemma ExampleArray()
    ensures StableStringify(Arr([Num("1"), Bool(true)])) == "[1,true]"
  {
    ArrayText(Num("1"), Bool(true));
    PlainTexts("1");
    hide *;
    assert "[" + ("1" + ("," + "true") + "]") == "[1,true]";
  }

  lemma ExamplePieces()
    ensures "{" + ("\"B\"" + (":" + "null") + ("," + ("\"b\"" + (":" + "[1,true]"))) + "}") == "{\"B\":null,\"b\":[1,true]}"
  {}

  /** The texts that hold no other. */
  lemma PlainTexts(number: string)
    ensures StableStringify(Null) == "null" && StableStringify(Bool(true)) == "true" && StableStringify(Bool(false)) == "false"
    ensures StableStringify(Arr([])) == "[]" && StableStringify(Obj([])) == "{}" && StableStringify(Num(number)) == number
  {
    assert SortMembers([]) == [];
  }

  // ---------------------------------------------------------------- canonical form

  /** The value itself, members sorted at every depth. */
  function Canon(v: Json): Json
    decreases Size(v)
  {
    match v
    case Arr(items) => Arr(CanonItems(items))
    case Obj(ms) => Obj(CanonMembers(SortMembers(ms)))
    case _ => v
  }

  function CanonItems(items: seq<Json>): (r: seq<Json>)
    ensures |r| == |items|
    decreases ItemsSize(items)
  {
    if items == [] then [] else [Canon(items[0])] + CanonItems(items[1..])
  }

  function CanonMembers(ms: seq<Member>): (r: seq<Member>)
    ensures |r| == |ms|
    decreases MembersSize(ms)
  {
    if ms == [] then []
    else [Member(ms[0].key, Canon(ms[0].value))] + CanonMembers(ms[1..])
  }

  lemma {:induction false} CanonItemsAt(items: seq<Json>, i: nat)
    requires i < |items|
    ensures CanonItems(items)[i] == Canon(items[i])
  {
    if i > 0 { CanonItemsAt(items[1..], i - 1); }
  }

  lemma {:induction false} CanonMembersAt(ms: seq<Member>, i: nat)
    requires i < |ms|
    ensures CanonMembers(ms)[i] == Member(ms[i].key, Canon(ms[i].value))
  {
    if i > 0 { CanonMembersAt(ms[1..], i - 1); }
  }

  /** Printing without sorting: what `JSON.stringify(value)` itself would print. */
  function Print(v: Json): string {
    match v
    case Arr(items) => "[" + (PrintItems(items) + "]")
    case Obj(ms) => "{" + (PrintMembers(ms) + "}")
    case _ => Scalar(v)
  }

  function PrintItems(items: seq<Json>): string {
    if items == [] then ""
    else if |items| == 1 then Print(items[0])
    else Print(items[0]) + ("," + PrintItems(items[1..]))
  }

  function PrintMembers(ms: seq<Member>): string {
    if ms == [] then ""
    else
      var entry := Quote(ms[0].key) + (":" + Print(ms[0].value));
      if |ms| == 1 then entry else entry + ("," + PrintMembers(ms[1..]))
  }

  lemma {:induction false} StringifyIsPrintOfCanon(v: Json)
    ensures StableStringify(v) == Print(Canon(v))
    decreases Size(v)
  {
    match v
    case Arr(items) => StableItemsIsPrint(items);
    case Obj(ms) => StableEntriesIsPrint(SortMembers(ms));
    case _ =>
  }

  lemma {:induction false} StableItemsIsPrint(items: seq<Json>)
    ensures StableItems(items) == PrintItems(CanonItems(items))
    decreases ItemsSize(items)
  {
    if items != [] {
      StringifyIsPrintOfCanon(items[0]);
      StableItemsIsPrint(items[1..]);
      assert CanonItems(items)[1..] == CanonItems(items[1..]);
    }
  }

  lemma {:induction false} StableEntriesIsPrint(ms: seq<Member>)
    ensures StableEntries(ms) == PrintMembers(CanonMembers(ms))
    decreases MembersSize(ms)
  {
    if ms != [] {
      StringifyIsPrintOfCanon(ms[0].value);
      StableEntriesIsPrint(ms[1..]);
      assert CanonMembers(ms)[1..] == CanonMembers(ms[1..]);
    }
  }

  // ---------------------------------------------------------------- reading

  /** A successful read: what was read, and the text after it. */
  datatype Read<+T> = Read(value: T, rest: string)

  function HexValue(c: char): Option<int> {
    if IsDigit(c) then Some(c as int - '0' as int)
    else if 'a' <= c <= 'f' then Some(c as int - 'a' as int + 10)
    else if 'A' <= c <= 'F' then Some(c as int - 'A' as int + 10)
    else None
  }

  /** The character an escape stands for, and how many characters after the backslash it takes. */
  function ReadEscape(t: string): (r: Option<Read<char>>)
    ensures r.Some? ==> |r.value.rest| < |t|
  {
    if t == [] then None
    else if t[0] in "\"\\/" then Some(Read(t[0], t[1..]))
    else if t[0] == 'b' then Some(Read(8 as char, t[1..]))
    else if t[0] == 't' then Some(Read(9 as char, t[1..]))
    else if t[0] == 'n' then Some(Read(10 as char, t[1..]))
    else if t[0] == 'f' then Some(Read(12 as char, t[1..]))
    else if t[0] == 'r' then Some(Read(13 as char, t[1..]))
    else if t[0] == 'u' && |t| >= 5 then
      match (HexValue(t[1]), HexValue(t[2]), HexValue(t[3]), HexValue(t[4]))
      case (Some(a), Some(b), Some(c), Some(d)) =>
        var code := ((a * 16 + b) * 16 + c) * 16 + d;
        if 0 <= code < 0xD800 then Some(Read(code as char, t[5..]))
        else if 0xE000 <= code < 0x10000 then Some(Read(code as char, t[5..]))
        else None
      case _ => None
    else None
  }

  /** The rest of a string literal whose opening quote has been read. */
  function ReadString(t: string): (r: Option<Read<string>>)
    ensures r.Some? ==> |r.value.rest| < |t|
    decreases |t|
  {
    if t == [] then None
    else if t[0] == '\"' then Some(Read("", t[1..]))
    else if t[0] == '\\' then
      match ReadEscape(t[1..])
      case None => None
      case Some(e) =>
        match ReadString(e.rest)
        case None => None
        case Some(s) => Some(Read([e.value] + s.value, s.rest))
    else
      match ReadString(t[1..])
      case None => None
      case Some(s) => Some(Read([t[0]] + s.value, s.rest))
  }

  function NumberRun(t: string): (n: nat)
    ensures n <= |t|
  {
    if t == [] || !IsNumberChar(t[0]) then 0 else 1 + NumberRun(t[1..])
  }

  /** A reader of compact JSON text: one value, and what follows it. */
  function ReadValue(t: string): (r: Option<Read<Json>>)
    ensures r.Some? ==> |r.value.rest| < |t|
    decreases |t|, 0
  {
    if t == [] then None
    else if "null" <= t then Some(Read(Null, t[4..]))
    else if "true" <= t then Some(Read(Bool(true), t[4..]))
    else if "false" <= t then Some(Read(Bool(false), t[5..]))
    else if t[0] == '\"' then
      match ReadString(t[1..])
      case None => None
      case Some(s) => Some(Read(Str(s.value), s.rest))
    else if t[0] == '[' then
      if |t| > 1 && t[1] == ']' then Some(Read(Arr([]), t[2..]))
      else
        match ReadItems(t[1..])
        case None => None
        case Some(i) => Some(Read(Arr(i.value), i.rest))
    else if t[0] == '{' then
      if |t| > 1 && t[1] == '}' then Some(Read(Obj([]), t[2..]))
      else
        match ReadMembers(t[1..])
        case None => None
        case Some(m) => Some(Read(Obj(m.value), m.rest))
    else if IsDigit(t[0]) || t[0] == '-' then
      var n := NumberRun(t);
      Some(Read(Num(t[..n]), t[n..]))
    else None
  }

  function ReadItems(t: string): (r: Option<Read<seq<Json>>>)
    ensures r.Some? ==> |r.value.rest| < |t|
    decreases |t|, 1
  {
    match ReadValue(t)
    case None => None
    case Some(v) =>
      if v.rest == [] then None
      else if v.rest[0] == ']' then Some(Read([v.value], v.rest[1..]))
      else if v.rest[0] == ',' then
        match ReadItems(v.rest[1..])
        case None => None
        case Some(vs) => Some(Read([v.value] + vs.value, vs.rest))
      else None
  }

  function ReadMember(t: string): (r: Option<Read<Member>>)
    ensures r.Some? ==> |r.value.rest| < |t|
    decreases |t|, 1
  {
    if t == [] || t[0] != '\"' then None
    else
      match ReadString(t[1..])
      case None => None
      case Some(key) =>
        if key.rest == [] || key.rest[0] != ':' then None
        else
          match ReadValue(key.rest[1..])
          case None => None
          case Some(v) => Some(Read(Member(key.value, v.value), v.rest))
  }

  function ReadMembers(t: string): (r: Option<Read<seq<Member>>>)
    ensures r.Some? ==> |r.value.rest| < |t|
    decreases |t|, 2
  {
    match ReadMember(t)
    case None => None
    case Some(m) =>
      if m.rest == [] then None
      else if m.rest[0] == '}' then Some(Read([m.value], m.rest[1..]))
      else if m.rest[0] == ',' then
        match ReadMembers(m.rest[1..])
        case None => None
        case Some(ms) => Some(Read([m.value] + ms.value, ms.rest))
      else None
  }

  // ---------------------------------------------------------------- reading inverts printing

  /** Text that may follow a value: nothing that could continue a number. */
  predicate Delimited(rest: string) {
    rest == [] || !IsNumberChar(rest[0])
  }

  lemma Assoc(a: string, b: string, c: string)
    ensures (a + b) + c == a + (b + c)
  {}

  lemma Cons(c: char, t: string)
    ensures [c] + t != [] && ([c] + t)[0] == c && ([c] + t)[1..] == t
  {}

  lemma ReadEscapeInverts(c: char, rest: string)
    requires EscapeChar(c) != [c]
    ensures EscapeChar(c)[0] == '\\'
    ensures ReadEscape(EscapeChar(c)[1..] + rest) == Some(Read(c, rest))
  {
    var e := EscapeChar(c);
    var t := e[1..] + rest;
    if |e| == 2 {
      hide HexValue;
      assert t[1..] == rest;
    } else {
      hide HexValue;
      var h, l := c as int / 16, c as int % 16;
      assert t == "u00" + [HEX[h], HEX[l]] + rest;
      ReadUnicode(h, l, rest);
    }
  }

  lemma HexInverts(n: nat)
    requires n < 16
    ensures HexValue(HEX[n]) == Some(n)
  {}

  lemma ReadUnicode(h: nat, l: nat, rest: string)
    requires h < 2 && l < 16
    ensures ReadEscape("u00" + [HEX[h], HEX[l]] + rest) == Some(Read((h * 16 + l) as char, rest))
  {
    HexInverts(0);
    HexInverts(h);
    HexInverts(l);
    hide HexValue;
    var t := "u00" + [HEX[h], HEX[l]] + rest;
    assert t[0] == 'u' && t[1] == HEX[0] && t[2] == HEX[0] && t[3] == HEX[h] && t[4] == HEX[l] && t[5..] == rest;
  }

  lemma ReadStringStep(c: char, tail: string, s: string, rest: string)
    requires ReadString(tail) == Some(Read(s, rest))
    ensures ReadString(EscapeChar(c) + tail) == Some(Read([c] + s, rest))
  {
    var e := EscapeChar(c);
    var t := e + tail;
    assert t[0] == e[0];
    if e == [c] {
      assert t[1..] == tail;
    } else {
      ReadEscapeInverts(c, tail);
      assert t[1..] == e[1..] + tail;
    }
  }

  lemma {:induction false} ReadStringInverts(s: string, rest: string)
    ensures ReadString(Escape(s) + ("\"" + rest)) == Some(Read(s, rest))
  {
    Cons('\"', rest);
    if s == [] {
      assert Escape(s) + ("\"" + rest) == "\"" + rest;
    } else {
      var tail := Escape(s[1..]) + ("\"" + rest);
      Assoc(EscapeChar(s[0]), Escape(s[1..]), "\"" + rest);
      ReadStringInverts(s[1..], rest);
      ReadStringStep(s[0], tail, s[1..], rest);
      assert s == [s[0]] + s[1..];
    }
  }

  lemma {:induction false} NumberRunInverts(text: string, rest: string)
    requires forall c :: c in text ==> IsNumberChar(c)
    requires Delimited(rest)
    ensures NumberRun(text + rest) == |text|
  {
    if text == [] {
      assert text + rest == rest;
    } else {
      NumberRunInverts(text[1..], rest);
      assert (text + rest)[1..] == text[1..] + rest;
    }
  }

  /** Number texts are number texts, at every depth. */
  predicate NumbersOk(v: Json) {
    match v
    case Num(text) => IsNumberText(text)
    case Arr(items) => forall x :: x in items ==> NumbersOk(x)
    case Obj(ms) => forall m :: m in ms ==> NumbersOk(m.value)
    case _ => true
  }

  lemma ReadWord(t: string, word: string, rest: string)
    requires t == word + rest && word in ["null", "true", "false"]
    ensures word <= t && t[|word|..] == rest && t[0] == word[0]
    ensures word != "null" ==> !("null" <= t)
    ensures word == "false" ==> !("true" <= t)
  {}

  lemma QuoteThen(s: string, tail: string)
    ensures Quote(s) + tail == "\"" + (Escape(s) + ("\"" + tail))
  {}

  lemma ReadQuoted(s: string, rest: string)
    ensures ReadValue(Quote(s) + rest) == Some(Read(Str(s), rest))
  {
    QuoteThen(s, rest);
    ReadStringInverts(s, rest);
    Cons('\"', Escape(s) + ("\"" + rest));
    ReadStringLiteral(Quote(s) + rest, s, rest);
  }

  lemma ReadStringLiteral(t: string, s: string, rest: string)
    requires t != [] && t[0] == '\"' && ReadString(t[1..]) == Some(Read(s, rest))
    ensures ReadValue(t) == Some(Read(Str(s), rest))
  {}

  lemma ReadNumber(text: string, rest: string)
    requires IsNumberText(text) && Delimited(rest)
    ensures ReadValue(text + rest) == Some(Read(Num(text), rest))
  {
    var t := text + rest;
    NumberRunInverts(text, rest);
    assert t[0] == text[0];
    assert t[..|text|] == text && t[|text|..] == rest;
  }

  lemma ReadScalarInverts(v: Json, rest: string)
    requires !v.Arr? && !v.Obj? && NumbersOk(v)
    requires v.Num? ==> Delimited(rest)
    ensures ReadValue(Scalar(v) + rest) == Some(Read(v, rest))
  {
    match v
    case Null => ReadWord(Scalar(v) + rest, "null", rest);
    case Bool(b) => ReadWord(Scalar(v) + rest, if b then "true" else "false", rest);
    case Num(text) => ReadNumber(text, rest);
    case Str(s) => ReadQuoted(s, rest);
  }

  /** A value's text never starts with a bracket that closes, so `[]` and `{}` are not misread. */
  lemma PrintStart(v: Json)
    requires NumbersOk(v)
    ensures Print(v) != [] && Print(v)[0] != ']' && Print(v)[0] != '}'
  {}

  /** What one item or member is followed by: the rest of its list, or the closing bracket. */
  function After(more: bool, inner: string, close: char, rest: string): string {
    if more then "," + (inner + ([close] + rest)) else [close] + rest
  }

  lemma SplitFirst(first: string, more: bool, inner: string, close: char, rest: string)
    ensures (if more then first + ("," + inner) else first) + ([close] + rest)
         == first + After(more, inner, close, rest)
    ensures After(more, inner, close, rest) != []
    ensures more ==> After(more, inner, close, rest)[0] == ',' && After(more, inner, close, rest)[1..] == inner + ([close] + rest)
    ensures !more ==> After(more, inner, close, rest)[0] == close && After(more, inner, close, rest)[1..] == rest
  {}

  lemma ReadBracketed(t: string, tail: string)
    requires tail != []
    ensures tail[0] != ']' && t == "[" + tail && ReadItems(tail).Some?
        ==> ReadValue(t) == Some(Read(Arr(ReadItems(tail).value.value), ReadItems(tail).value.rest))
    ensures tail[0] != '}' && t == "{" + tail && ReadMembers(tail).Some?
        ==> ReadValue(t) == Some(Read(Obj(ReadMembers(tail).value.value), ReadMembers(tail).value.rest))
  {}

  lemma ReadEmpties(rest: string)
    ensures ReadValue("[" + ("]" + rest)) == Some(Read(Arr([]), rest))
    ensures ReadValue("{" + ("}" + rest)) == Some(Read(Obj([]), rest))
  {
    var t, u := "[" + ("]" + rest), "{" + ("}" + rest);
    assert t[0] == '[' && t[1] == ']' && t[2..] == rest;
    assert u[0] == '{' && u[1] == '}' && u[2..] == rest;
  }

  lemma {:induction false} ReadInvertsPrint(v: Json, rest: string)
    requires NumbersOk(v)
    requires v.Num? ==> Delimited(rest)
    ensures ReadValue(Print(v) + rest) == Some(Read(v, rest))
    decreases v, 0
  {
    match v
    case Arr(items) =>
      var inner := PrintItems(items);
      Assoc("[", inner + "]", rest);
      Assoc(inner, "]", rest);
      if items == [] {
        assert inner + ("]" + rest) == "]" + rest;
        ReadEmpties(rest);
      } else {
        PrintStart(items[0]);
        ReadItemsInverts(items, rest);
        assert (inner + ("]" + rest))[0] == Print(items[0])[0];
        ReadBracketed(Print(v) + rest, inner + ("]" + rest));
      }
    case Obj(ms) =>
      var inner := PrintMembers(ms);
      Assoc("{", inner + "}", rest);
      Assoc(inner, "}", rest);
      if ms == [] {
        assert inner + ("}" + rest) == "}" + rest;
        ReadEmpties(rest);
      } else {
        ReadMembersInverts(ms, rest);
        assert (inner + ("}" + rest))[0] == '\"';
        ReadBracketed(Print(v) + rest, inner + ("}" + rest));
      }
    case _ => ReadScalarInverts(v, rest);
  }

  lemma ReadListStep(t: string, v: Json, after: string)
    requires ReadValue(t) == Some(Read(v, after)) && after != []
    ensures after[0] == ']' ==> ReadItems(t) == Some(Read([v], after[1..]))
    ensures after[0] == ',' && ReadItems(after[1..]).Some? ==>
        ReadItems(t) == Some(Read([v] + ReadItems(after[1..]).value.value, ReadItems(after[1..]).value.rest))
  {}

  lemma {:induction false} ReadItemsInverts(items: seq<Json>, rest: string)
    requires items != [] && forall x :: x in items ==> NumbersOk(x)
    ensures ReadItems(PrintItems(items) + ("]" + rest)) == Some(Read(items, rest))
    decreases items, 1
  {
    var first, more, inner := Print(items[0]), |items| > 1, PrintItems(items[1..]);
    var after := After(more, inner, ']', rest);
    SplitFirst(first, more, inner, ']', rest);
    ReadInvertsPrint(items[0], after);
    ReadListStep(first + after, items[0], after);
    assert PrintItems(items) == if more then first + ("," + inner) else first;
    if more {
      ReadItemsInverts(items[1..], rest);
      assert items == [items[0]] + items[1..];
    } else {
      assert items == [items[0]];
    }
  }

  function PrintMember(m: Member): string {
    Quote(m.key) + (":" + Print(m.value))
  }

  lemma ReadMemberParts(t: string, key: string, afterKey: string, v: Json, after: string)
    requires t != [] && t[0] == '\"' && ReadString(t[1..]) == Some(Read(key, afterKey))
    requires afterKey != [] && afterKey[0] == ':' && ReadValue(afterKey[1..]) == Some(Read(v, after))
    ensures ReadMember(t) == Some(Read(Member(key, v), after))
  {}

  lemma ReadMemberInverts(m: Member, after: string)
    requires ReadValue(Print(m.value) + after) == Some(Read(m.value, after))
    ensures ReadMember(PrintMember(m) + after) == Some(Read(m, after))
  {
    var afterKey := ":" + (Print(m.value) + after);
    Assoc(Quote(m.key), ":" + Print(m.value), after);
    Assoc(":", Print(m.value), after);
    QuoteThen(m.key, afterKey);
    ReadStringInverts(m.key, afterKey);
    Cons('\"', Escape(m.key) + ("\"" + afterKey));
    Cons(':', Print(m.value) + after);
    ReadMemberParts(PrintMember(m) + after, m.key, afterKey, m.value, after);
  }

  lemma ReadMembersStep(t: string, m: Member, after: string)
    requires ReadMember(t) == Some(Read(m, after)) && after != []
    ensures after[0] == '}' ==> ReadMembers(t) == Some(Read([m], after[1..]))
    ensures after[0] == ',' && ReadMembers(after[1..]).Some? ==>
        ReadMembers(t) == Some(Read([m] + ReadMembers(after[1..]).value.value, ReadMembers(after[1..]).value.rest))
  {}

  lemma AfterFirst(ms: seq<Member>, rest: string)
    requires ms != []
    ensures var (first, more, inner) := (PrintMember(ms[0]), |ms| > 1, PrintMembers(ms[1..]));
      PrintMembers(ms) == if more then first + ("," + inner) else first
  {}

  lemma {:induction false} ReadMembersInverts(ms: seq<Member>, rest: string)
    requires ms != [] && forall m :: m in ms ==> NumbersOk(m.value)
    ensures ReadMembers(PrintMembers(ms) + ("}" + rest)) == Some(Read(ms, rest))
    decreases ms, 1
  {
    hide ReadValue, ReadMember, ReadMembers, Print, PrintMember, PrintMembers, After;
    var first, more, inner := PrintMember(ms[0]), |ms| > 1, PrintMembers(ms[1..]);
    var after := After(more, inner, '}', rest);
    AfterFirst(ms, rest);
    SplitFirst(first, more, inner, '}', rest);
    ReadInvertsPrint(ms[0].value, after);
    ReadMemberInverts(ms[0], after);
    ReadMembersStep(first + after, ms[0], after);
    if more {
      ReadMembersInverts(ms[1..], rest);
      assert ms == [ms[0]] + ms[1..];
    } else {
      assert ms == [ms[0]];
    }
  }

  // ---------------------------------------------------------------- canonical form and equality

  lemma {:induction false} CanonNumbersOk(v: Json)
    requires Wf(v)
    ensures NumbersOk(Canon(v))
    decreases Size(v)
  {
    match v
    case Arr(items) =>
      forall i | 0 <= i < |items| ensures NumbersOk(CanonItems(items)[i]) {
        CanonItemsAt(items, i);
        ItemSmaller(items, i);
        CanonNumbersOk(items[i]);
      }
    case Obj(ms) =>
      var sorted := SortMembers(ms);
      SortMembersSorts(ms);
      MultisetUnique(ms, sorted);
      forall i | 0 <= i < |sorted| ensures NumbersOk(CanonMembers(sorted)[i].value) {
        CanonMembersAt(sorted, i);
        MemberSmaller(sorted, i);
        assert sorted[i] in ms;
        CanonNumbersOk(sorted[i].value);
      }
    case _ =>
  }

  lemma {:induction false} ItemSmaller(items: seq<Json>, i: nat)
    requires i < |items|
    ensures Size(items[i]) < ItemsSize(items)
  {
    if i > 0 { ItemSmaller(items[1..], i - 1); }
  }

  lemma {:induction false} MemberSmaller(ms: seq<Member>, i: nat)
    requires i < |ms|
    ensures Size(ms[i].value) < MembersSize(ms)
  {
    if i > 0 { MemberSmaller(ms[1..], i - 1); }
  }

  /** Strictly ordered key lists over the same keys are the same list. */
  lemma {:induction false} SortedKeysUnique(a: seq<Member>, b: seq<Member>)
    requires SortedByKey(a) && SortedByKey(b) && UniqueKeys(a) && UniqueKeys(b)
    requires |a| == |b|
    requires forall m :: m in a ==> HasKey(b, m.key)
    ensures forall i :: 0 <= i < |a| ==> a[i].key == b[i].key
  {
    if a != [] {
      KeysOnto(a, b);
      assert a[0] in a && b[0] in b;
      LeastKey(a, b);
      forall m | m in a[1..] ensures HasKey(b[1..], m.key) {
        KeyInTail(a, b, m);
      }
      SortedKeysUnique(a[1..], b[1..]);
      forall i | 0 <= i < |a| ensures a[i].key == b[i].key {
        if i > 0 { assert a[i] == a[1..][i-1] && b[i] == b[1..][i-1]; }
      }
    }
  }

  lemma LeastKey(a: seq<Member>, b: seq<Member>)
    requires a != [] && b != [] && SortedByKey(a) && SortedByKey(b)
    requires HasKey(b, a[0].key) && HasKey(a, b[0].key)
    ensures a[0].key == b[0].key
  {
    var n :| n in b && n.key == a[0].key;
    var m :| m in a && m.key == b[0].key;
    var p :| 0 <= p < |b| && b[p] == n;
    var q :| 0 <= q < |a| && a[q] == m;
    KeyOrder(a[0].key, b[0].key, a[0].key);
    if p > 0 && q > 0 {
      assert KeyLeq(b[0].key, b[p].key) && KeyLeq(a[0].key, a[q].key);
    }
  }

  lemma KeyInTail(a: seq<Member>, b: seq<Member>, m: Member)
    requires a != [] && b != [] && UniqueKeys(a) && a[0].key == b[0].key
    requires m in a[1..] && HasKey(b, m.key)
    ensures HasKey(b[1..], m.key)
  {}

  /** Equally many distinct keys, all found in `b`, use up every key of `b`. */
  lemma {:induction false} KeysOnto(a: seq<Member>, b: seq<Member>)
    requires UniqueKeys(a) && UniqueKeys(b) && |a| == |b|
    requires forall m :: m in a ==> HasKey(b, m.key)
    ensures forall n :: n in b ==> HasKey(a, n.key)
  {
    var ka, kb := set m | m in a :: m.key, set m | m in b :: m.key;
    KeySetSize(a);
    KeySetSize(b);
    assert ka <= kb;
    SubsetSameSize(ka, kb);
    forall n | n in b ensures HasKey(a, n.key) {
      assert n.key in kb;
    }
  }

  lemma {:induction false} KeySetSize(a: seq<Member>)
    requires UniqueKeys(a)
    ensures |set m | m in a :: m.key| == |a|
  {
    var ks := set m | m in a :: m.key;
    if a == [] {
      assert ks == {};
    } else {
      var rest := set m | m in a[1..] :: m.key;
      KeySetSize(a[1..]);
      assert a == [a[0]] + a[1..];
      assert ks == rest + {a[0].key};
      assert a[0].key !in rest;
    }
  }

  lemma {:induction false} SubsetSameSize<T>(a: set<T>, b: set<T>)
    requires a <= b && |a| == |b|
    ensures a == b
  {
    assert |b - a| == 0;
    assert b == a + (b - a);
  }

  /** Equal up to member order means the same canonical form ... */
  lemma {:induction false} SameCanon(v: Json, w: Json)
    requires Wf(v) && Wf(w) && Same(v, w)
    ensures Canon(v) == Canon(w)
    decreases Size(v)
  {
    hide SortMembers, KeyLeq, SortedByKey;
    match v
    case Arr(items) =>
      forall i | 0 <= i < |items| ensures CanonItems(items)[i] == CanonItems(w.items)[i] {
        CanonItemsAt(items, i);
        CanonItemsAt(w.items, i);
        ItemSmaller(items, i);
        SameCanon(items[i], w.items[i]);
      }
    case Obj(ms) =>
      var ns := w.members;
      var a, b := SortMembers(ms), SortMembers(ns);
      SameSorted(ms, ns);
      forall i | 0 <= i < |a| ensures CanonMembers(a)[i] == CanonMembers(b)[i] {
        CanonMembersAt(a, i);
        CanonMembersAt(b, i);
        MemberSmaller(a, i);
        assert a[i] in ms && b[i] in ns;
        SameCanon(a[i].value, b[i].value);
      }
    case _ =>
  }

  lemma SameSorted(ms: seq<Member>, ns: seq<Member>)
    requires UniqueKeys(ms) && UniqueKeys(ns) && Same(Obj(ms), Obj(ns))
    ensures var (a, b) := (SortMembers(ms), SortMembers(ns));
      && |a| == |b| == |ms| && (forall m :: m in a <==> m in ms) && (forall n :: n in b <==> n in ns)
      && forall i :: 0 <= i < |a| ==> a[i].key == b[i].key && Same(a[i].value, b[i].value)
  {
    hide SortMembers, KeyLeq, SortedByKey;
    var a, b := SortMembers(ms), SortMembers(ns);
    SortMembersSorts(ms);
    SortMembersSorts(ns);
    MultisetUnique(ms, a);
    MultisetUnique(ns, b);
    SameMembersOrder(ms, ns, a, b);
  }

  lemma {:induction false} SameMembersOrder(ms: seq<Member>, ns: seq<Member>, a: seq<Member>, b: seq<Member>)
    requires UniqueKeys(ns) && UniqueKeys(a) && UniqueKeys(b)
    requires SortedByKey(a) && SortedByKey(b) && |a| == |b|
    requires forall m :: m in a <==> m in ms
    requires forall n :: n in b <==> n in ns
    requires forall m :: m in ms ==> exists n :: n in ns && n.key == m.key && Same(m.value, n.value)
    ensures forall i :: 0 <= i < |a| ==> a[i].key == b[i].key && Same(a[i].value, b[i].value)
  {
    forall m | m in a ensures HasKey(b, m.key) {
      var n :| n in ns && n.key == m.key && Same(m.value, n.value);
      assert n in b;
    }
    SortedKeysUnique(a, b);
    forall i | 0 <= i < |a| ensures Same(a[i].value, b[i].value) {
      assert a[i] in a;
      var n :| n in ns && n.key == a[i].key && Same(a[i].value, n.value);
      assert n in b && b[i] in b;
      assert n == b[i];
    }
  }

  /** ... and the same canonical form means equal up to member order. */
  lemma {:induction false} CanonSame(v: Json, w: Json)
    requires Canon(v) == Canon(w)
    ensures Same(v, w)
    decreases Size(v)
  {
    match v
    case Arr(items) =>
      assert |CanonItems(items)| == |items|;
      forall i | 0 <= i < |items| ensures Same(items[i], w.items[i]) {
        CanonItemsAt(items, i);
        CanonItemsAt(w.items, i);
        ItemSmaller(items, i);
        CanonSame(items[i], w.items[i]);
      }
    case Obj(ms) =>
      var ns := w.members;
      var a, b := SortMembers(ms), SortMembers(ns);
      SortMembersSorts(ms);
      SortMembersSorts(ns);
      assert |multiset(a)| == |a| && |multiset(b)| == |b|;
      assert |multiset(ms)| == |ms| && |multiset(ns)| == |ns|;
      forall m | m in ms
        ensures exists n :: n in ns && n.key == m.key && Same(m.value, n.value)
      {
        assert m in multiset(a);
        var i :| 0 <= i < |a| && a[i] == m;
        CanonMembersAt(a, i);
        CanonMembersAt(b, i);
        MemberSmaller(a, i);
        CanonSame(a[i].value, b[i].value);
        assert b[i] in multiset(ns);
      }
    case _ =>
  }

  /** Decodable: reading back the text of a value, whatever delimiter follows, gives the value
    * with its members sorted, and exactly the text that followed. */
  lemma {:induction false} StringifyDecodes(v: Json, rest: string)
    requires Wf(v) && Delimited(rest)
    ensures ReadValue(StableStringify(v) + rest) == Some(Read(Canon(v), rest))
    ensures Same(Canon(v), v)
  {
    StringifyIsPrintOfCanon(v);
    CanonNumbersOk(v);
    ReadInvertsPrint(Canon(v), rest);
    CanonIdempotent(v);
    CanonSame(Canon(v), v);
  }

  /** Canonical: two values have one text exactly when they are equal up to member order. */
  lemma {:induction false} StringifyCanonical(v: Json, w: Json)
    requires Wf(v) && Wf(w)
    ensures StableStringify(v) == StableStringify(w) <==> Same(v, w)
  {
    StringifyIsPrintOfCanon(v);
    StringifyIsPrintOfCanon(w);
    if StableStringify(v) == StableStringify(w) {
      StringifyDecodes(v, "");
      StringifyDecodes(w, "");
      CanonSame(v, w);
    }
    if Same(v, w) { SameCanon(v, w); }
  }

  /** Unambiguous: no text of one value, with what follows it, is also the text of another. */
  lemma {:induction false} StringifyUnambiguous(v: Json, w: Json, r: string, q: string)
    requires Wf(v) && Wf(w) && Delimited(r) && Delimited(q)
    requires StableStringify(v) + r == StableStringify(w) + q
    ensures Same(v, w) && r == q
  {
    StringifyDecodes(v, r);
    StringifyDecodes(w, q);
    CanonSame(v, w);
  }

  /** Sorting again changes nothing. */
  lemma {:induction false} CanonIdempotent(v: Json)
    ensures Canon(Canon(v)) == Canon(v)
    decreases Size(v)
  {
    hide SortMembers, KeyLeq;
    match v
    case Arr(items) =>
      var c := CanonItems(items);
      forall i | 0 <= i < |items| ensures CanonItems(c)[i] == c[i] {
        CanonItemsAt(items, i);
        CanonItemsAt(c, i);
        ItemSmaller(items, i);
        CanonIdempotent(items[i]);
      }
    case Obj(ms) =>
      var a := SortMembers(ms);
      var c := CanonMembers(a);
      SortMembersSorts(ms);
      forall i, j | 0 <= i < j < |c| ensures KeyLeq(c[i].key, c[j].key) {
        CanonMembersAt(a, i);
        CanonMembersAt(a, j);
      }
      SortIdentity(c);
      forall i | 0 <= i < |c| ensures CanonMembers(c)[i] == c[i] {
        CanonMembersAt(a, i);
        CanonMembersAt(c, i);
        MemberSmaller(a, i);
        CanonIdempotent(a[i].value);
      }
    case _ =>
  }

  lemma {:induction false} SortIdentity(ms: seq<Member>)
    requires SortedByKey(ms)
    ensures SortMembers(ms) == ms
  {
    if ms != [] {
      SortIdentity(ms[1..]);
      assert ms == [ms[0]] + ms[1..];
      if |ms| > 1 { assert KeyLeq(ms[0].key, ms[1].key); }
    }
  }
}
