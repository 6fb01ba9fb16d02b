// JSON documents, their compact text, and unique readability of that text.
module Jsons {
  import opened Orders
  import opened Text
  import opened IndexMaps

  datatype Json =
    | JNull
    | JBool(flag: bool)
    | JNumber(literal: string)
    | JString(text: string)
    | JArray(items: seq<Json>)
    | JObject(members: IndexMap<Json>)

  // ---------------------------------------------------------------------
  // Compact text. Escaping follows section 7 of RFC 8259: quote, backslash
  // and control characters are escaped, everything else is copied.
  // ---------------------------------------------------------------------

  function HexDigit(d: nat): char
    requires d < 16
  {
    if d < 10 then ('0' as int + d) as char else ('a' as int + d - 10) as char
  }

  const BACKSPACE: char := 8 as char
  const FORM_FEED: char := 12 as char

  function Escape(c: char): (s: string)
    ensures s != "" && s[0] != '"'
  {
    if c == '"' then "\\\""
    else if c == '\\' then "\\\\"
    else if c == BACKSPACE then "\\b"
    else if c == FORM_FEED then "\\f"
    else if c == '\n' then "\\n"
    else if c == '\r' then "\\r"
    else if c == '\t' then "\\t"
    else if c as int < 32 then "\\u00" + [HexDigit(c as int / 16), HexDigit(c as int % 16)]
    else [c]
  }

  // A string from its first character to the closing quote.
  function QuotedRest(s: string): (t: string) {
    if s == "" then "\"" else Escape(s[0]) + QuotedRest(s[1..])
  }

  function Quoted(s: string): string {
    "\"" + QuotedRest(s)
  }

  function Print(j: Json): string
    decreases j
  {
    match j
    case JNull => "null"
    case JBool(flag) => if flag then "true" else "false"
    case JNumber(literal) => literal
    case JString(text) => Quoted(text)
    case JArray(items) => "[" + ArrayBody(items)
    case JObject(members) => "{" + ObjectBody(members)
  }

  function ArrayBody(items: seq<Json>): string
    decreases items, 1
  {
    if items == [] then "]" else Print(items[0]) + ArrayRest(items[1..])
  }

  function ArrayRest(items: seq<Json>): string
    decreases items, 0
  {
    if items == [] then "]" else "," + (Print(items[0]) + ArrayRest(items[1..]))
  }

  function ObjectBody(members: IndexMap<Json>): string
    decreases members, 1
  {
    if members == [] then "}" else PrintMember(members[0]) + ObjectRest(members[1..])
  }

  function ObjectRest(members: IndexMap<Json>): string
    decreases members, 0
  {
    if members == [] then "}" else "," + (PrintMember(members[0]) + ObjectRest(members[1..]))
  }

  function PrintMember(member: Entry<Json>): string
    decreases member
  {
    Quoted(member.key) + (":" + Print(member.value))
  }

  // ---------------------------------------------------------------------
  // Unique readability.
  // ---------------------------------------------------------------------

  predicate NumberChar(c: char) {
    IsDigit(c) || c == '-' || c == '+' || c == '.' || c == 'e' || c == 'E'
  }

  predicate NumberLiteral(s: string) {
    s != "" && forall i :: 0 <= i < |s| ==> NumberChar(s[i])
  }

  type NumberText = s: string | NumberLiteral(s) witness "0"

  lemma IntTextReadable(n: int)
    ensures NumberLiteral(IntText(n))
  {
    var digits := NatText(if n < 0 then -n else n);
    assert forall i :: 0 <= i < |digits| ==> IsDigit(digits[i]);
  }

  // Every number in the document is spelled with number characters.
  predicate Readable(j: Json)
    decreases j
  {
    match j
    case JNumber(literal) => NumberLiteral(literal)
    case JArray(items) => forall i :: 0 <= i < |items| ==> Readable(items[i])
    case JObject(members) => forall i :: 0 <= i < |members| ==> Readable(members[i].value)
    case _ => true
  }

  // What may follow a value: nothing, or a character no number continues with.
  predicate Delimited(rest: string) {
    rest == "" || !NumberChar(rest[0])
  }

  function FirstChar(j: Json): char
    requires Readable(j)
  {
    match j
    case JNull => 'n'
    case JBool(flag) => if flag then 't' else 'f'
    case JNumber(literal) => literal[0]
    case JString(_) => '"'
    case JArray(_) => '['
    case JObject(_) => '{'
  }

  lemma PrintFirst(j: Json)
    requires Readable(j)
    ensures Print(j) != "" && Print(j)[0] == FirstChar(j)
  {
  }

  lemma ControlInjective(c: char, d: char)
    requires c as int < 32 && d as int < 32
    requires HexDigit(c as int / 16) == HexDigit(d as int / 16) && HexDigit(c as int % 16) == HexDigit(d as int % 16)
    ensures c == d
  {
  }

  lemma EscapeSecond(c: char)
    ensures |Escape(c)| > 1 <==> Escape(c)[0] == '\\'
    ensures |Escape(c)| == 1 ==> Escape(c)[0] == c
    ensures |Escape(c)| == 2 || |Escape(c)| == 6 || |Escape(c)| == 1
    ensures |Escape(c)| == 6 <==> |Escape(c)| > 1 && Escape(c)[1] == 'u'
    ensures |Escape(c)| == 6 ==> c as int < 32 && Escape(c)[4] == HexDigit(c as int / 16) && Escape(c)[5] == HexDigit(c as int % 16)
  {
  }

  lemma EscapeUnique(c: char, d: char, u: string, v: string)
    requires Escape(c) + u == Escape(d) + v
    ensures c == d && u == v
  {
    EscapeSecond(c);
    EscapeSecond(d);
    var x, y := Escape(c), Escape(d);
    assert (x + u)[0] == x[0] && (y + v)[0] == y[0];
    if |x| > 1 {
      assert (x + u)[1] == x[1] && (y + v)[1] == y[1];
      if |x| == 6 {
        assert (x + u)[4] == x[4] && (y + v)[4] == y[4];
        assert (x + u)[5] == x[5] && (y + v)[5] == y[5];
        ControlInjective(c, d);
      }
    }
    assert c == d;
    assert (x + u)[|x|..] == u && (y + v)[|y|..] == v;
  }

  lemma {:induction false} QuotedUnique(s: string, t: string, x: string, y: string)
    requires QuotedRest(s) + x == QuotedRest(t) + y
    ensures s == t && x == y
  {
    QuotedFirst(s, x);
    QuotedFirst(t, y);
    if s == "" && t == "" {
      assert ("\"" + x)[1..] == x && ("\"" + y)[1..] == y;
    } else if s != "" && t != "" {
      PeelHead(Escape(s[0]), QuotedRest(s[1..]), x);
      PeelHead(Escape(t[0]), QuotedRest(t[1..]), y);
      EscapeUnique(s[0], t[0], QuotedRest(s[1..]) + x, QuotedRest(t[1..]) + y);
      QuotedUnique(s[1..], t[1..], x, y);
      assert s == [s[0]] + s[1..] && t == [t[0]] + t[1..];
    }
  }

  // Only the empty remainder starts with the closing quote.
  lemma QuotedFirst(s: string, x: string)
    ensures QuotedRest(s) + x != "" && ((QuotedRest(s) + x)[0] == '"' <==> s == "")
  {
    if s != "" {
      HeadChar(Escape(s[0]), QuotedRest(s[1..]));
    }
    HeadChar(QuotedRest(s), x);
  }

  lemma HeadChar(head: string, rest: string)
    requires head != ""
    ensures head + rest != "" && (head + rest)[0] == head[0]
  {
  }

  lemma KeyUnique(s: string, t: string, x: string, y: string)
    requires Quoted(s) + x == Quoted(t) + y
    ensures s == t && x == y
  {
    PeelHead("\"", QuotedRest(s), x);
    PeelHead("\"", QuotedRest(t), y);
    QuotedUnique(s, t, x, y);
  }

  lemma NumberUnique(a: string, b: string, x: string, y: string)
    requires NumberLiteral(a) && NumberLiteral(b) && Delimited(x) && Delimited(y)
    requires a + x == b + y
    ensures a == b && x == y
  {
    if |a| < |b| {
      LongerContinues(a, b, x, y);
      assert false;
    }
    if |b| < |a| {
      LongerContinues(b, a, y, x);
      assert false;
    }
    assert (a + x)[..|a|] == a && (b + y)[..|a|] == b;
    assert (a + x)[|a|..] == x && (b + y)[|a|..] == y;
  }

  lemma LongerContinues(a: string, b: string, x: string, y: string)
    requires a + x == b + y && |a| < |b|
    ensures x != "" && x[0] == b[|a|]
  {
    assert (a + x)[|a|] == (b + y)[|a|] == b[|a|];
  }

  lemma PeelHead(head: string, body: string, x: string)
    ensures (head + body) + x == head + (body + x)
    ensures (head + (body + x))[|head|..] == body + x
  {
  }

  // A document is determined by any text it is a delimited prefix of.
  lemma {:induction false} PrintUnique(a: Json, b: Json, x: string, y: string)
    requires Readable(a) && Readable(b) && Delimited(x) && Delimited(y)
    requires Print(a) + x == Print(b) + y
    ensures a == b && x == y
    decreases a, 0
  {
    PrintFirst(a);
    PrintFirst(b);
    assert (Print(a) + x)[0] == FirstChar(a) && (Print(b) + y)[0] == FirstChar(b);
    match a {
      case JNull =>
        assert (Print(a) + x)[4..] == x && (Print(b) + y)[4..] == y;
      case JBool(flag) =>
        assert b == a;
        assert (Print(a) + x)[|Print(a)|..] == x && (Print(b) + y)[|Print(a)|..] == y;
      case JNumber(literal) =>
        NumberUnique(literal, b.literal, x, y);
      case JString(text) =>
        KeyUnique(text, b.text, x, y);
      case JArray(items) =>
        PeelHead("[", ArrayBody(items), x);
        PeelHead("[", ArrayBody(b.items), y);
        ArrayBodyUnique(items, b.items, x, y);
      case JObject(members) =>
        PeelHead("{", ObjectBody(members), x);
        PeelHead("{", ObjectBody(b.members), y);
        ObjectBodyUnique(members, b.members, x, y);
    }
  }

  lemma RestDelimited(items: seq<Json>, members: IndexMap<Json>, x: string)
    ensures Delimited(ArrayRest(items) + x) && Delimited(ObjectRest(members) + x)
  {
  }

  // A closing bracket comes first exactly when there is nothing left.
  lemma ArrayFirst(items: seq<Json>, x: string)
    requires forall i :: 0 <= i < |items| ==> Readable(items[i])
    ensures ArrayBody(items) + x != "" && ((ArrayBody(items) + x)[0] == ']' <==> items == [])
  {
    if items != [] {
      PrintFirst(items[0]);
      HeadChar(Print(items[0]), ArrayRest(items[1..]));
      HeadChar(ArrayBody(items), x);
    }
  }

  lemma ObjectFirst(members: IndexMap<Json>, x: string)
    ensures ObjectBody(members) + x != "" && ((ObjectBody(members) + x)[0] == '}' <==> members == [])
  {
    if members != [] {
      HeadChar("\"", QuotedRest(members[0].key));
      HeadChar(Quoted(members[0].key), ":" + Print(members[0].value));
      HeadChar(PrintMember(members[0]), ObjectRest(members[1..]));
      HeadChar(ObjectBody(members), x);
    }
  }

  lemma RestFirst(items: seq<Json>, members: IndexMap<Json>, x: string)
    ensures ArrayRest(items) + x != "" && ((ArrayRest(items) + x)[0] == ']' <==> items == [])
    ensures ObjectRest(members) + x != "" && ((ObjectRest(members) + x)[0] == '}' <==> members == [])
  {
    HeadChar(ArrayRest(items), x);
    HeadChar(ObjectRest(members), x);
  }

  lemma {:induction false} ItemsUnique(a: seq<Json>, b: seq<Json>, x: string, y: string)
    requires a != [] && b != []
    requires (forall i :: 0 <= i < |a| ==> Readable(a[i])) && (forall i :: 0 <= i < |b| ==> Readable(b[i]))
    requires Print(a[0]) + ArrayRest(a[1..]) + x == Print(b[0]) + ArrayRest(b[1..]) + y
    ensures a == b && x == y
    decreases a, 0
  {
    PeelHead(Print(a[0]), ArrayRest(a[1..]), x);
    PeelHead(Print(b[0]), ArrayRest(b[1..]), y);
    RestDelimited(a[1..], [], x);
    RestDelimited(b[1..], [], y);
    PrintUnique(a[0], b[0], ArrayRest(a[1..]) + x, ArrayRest(b[1..]) + y);
    ArrayRestUnique(a[1..], b[1..], x, y);
    assert a == [a[0]] + a[1..] && b == [b[0]] + b[1..];
  }

  lemma {:induction false} ArrayBodyUnique(a: seq<Json>, b: seq<Json>, x: string, y: string)
    requires (forall i :: 0 <= i < |a| ==> Readable(a[i])) && (forall i :: 0 <= i < |b| ==> Readable(b[i]))
    requires ArrayBody(a) + x == ArrayBody(b) + y
    ensures a == b && x == y
    decreases a, 1
  {
    ArrayFirst(a, x);
    ArrayFirst(b, y);
    if a != [] && b != [] {
      ItemsUnique(a, b, x, y);
    } else if a == [] && b == [] {
      assert ("]" + x)[1..] == x && ("]" + y)[1..] == y;
    }
  }

  lemma {:induction false} ArrayRestUnique(a: seq<Json>, b: seq<Json>, x: string, y: string)
    requires (forall i :: 0 <= i < |a| ==> Readable(a[i])) && (forall i :: 0 <= i < |b| ==> Readable(b[i]))
    requires ArrayRest(a) + x == ArrayRest(b) + y
    ensures a == b && x == y
    decreases a, 1
  {
    RestFirst(a, [], x);
    RestFirst(b, [], y);
    if a != [] && b != [] {
      PeelHead(",", Print(a[0]) + ArrayRest(a[1..]), x);
      PeelHead(",", Print(b[0]) + ArrayRest(b[1..]), y);
      ItemsUnique(a, b, x, y);
    } else if a == [] && b == [] {
      assert ("]" + x)[1..] == x && ("]" + y)[1..] == y;
    }
  }

  lemma {:induction false} MembersUnique(a: IndexMap<Json>, b: IndexMap<Json>, x: string, y: string)
    requires a != [] && b != []
    requires (forall i :: 0 <= i < |a| ==> Readable(a[i].value)) && (forall i :: 0 <= i < |b| ==> Readable(b[i].value))
    requires PrintMember(a[0]) + ObjectRest(a[1..]) + x == PrintMember(b[0]) + ObjectRest(b[1..]) + y
    ensures a == b && x == y
    decreases a, 0
  {
    var u, v := ObjectRest(a[1..]) + x, ObjectRest(b[1..]) + y;
    PeelHead(PrintMember(a[0]), ObjectRest(a[1..]), x);
    PeelHead(PrintMember(b[0]), ObjectRest(b[1..]), y);
    PeelHead(Quoted(a[0].key), ":" + Print(a[0].value), u);
    PeelHead(Quoted(b[0].key), ":" + Print(b[0].value), v);
    KeyUnique(a[0].key, b[0].key, ":" + Print(a[0].value) + u, ":" + Print(b[0].value) + v);
    PeelHead(":", Print(a[0].value), u);
    PeelHead(":", Print(b[0].value), v);
    RestDelimited([], a[1..], x);
    RestDelimited([], b[1..], y);
    PrintUnique(a[0].value, b[0].value, u, v);
    ObjectRestUnique(a[1..], b[1..], x, y);
    assert a == [a[0]] + a[1..] && b == [b[0]] + b[1..];
  }

  lemma {:induction false} ObjectBodyUnique(a: IndexMap<Json>, b: IndexMap<Json>, x: string, y: string)
    requires (forall i :: 0 <= i < |a| ==> Readable(a[i].value)) && (forall i :: 0 <= i < |b| ==> Readable(b[i].value))
    requires ObjectBody(a) + x == ObjectBody(b) + y
    ensures a == b && x == y
    decreases a, 1
  {
    ObjectFirst(a, x);
    ObjectFirst(b, y);
    if a != [] && b != [] {
      MembersUnique(a, b, x, y);
    } else if a == [] && b == [] {
      assert ("}" + x)[1..] == x && ("}" + y)[1..] == y;
    }
  }

  lemma {:induction false} ObjectRestUnique(a: IndexMap<Json>, b: IndexMap<Json>, x: string, y: string)
    requires (forall i :: 0 <= i < |a| ==> Readable(a[i].value)) && (forall i :: 0 <= i < |b| ==> Readable(b[i].value))
    requires ObjectRest(a) + x == ObjectRest(b) + y
    ensures a == b && x == y
    decreases a, 1
  {
    RestFirst([], a, x);
    RestFirst([], b, y);
    if a != [] && b != [] {
      PeelHead(",", PrintMember(a[0]) + ObjectRest(a[1..]), x);
      PeelHead(",", PrintMember(b[0]) + ObjectRest(b[1..]), y);
      MembersUnique(a, b, x, y);
    } else if a == [] && b == [] {
      assert ("}" + x)[1..] == x && ("}" + y)[1..] == y;
    }
  }

  lemma PrintInjective(a: Json, b: Json)
    requires Readable(a) && Readable(b)
    ensures Print(a) == Print(b) <==> a == b
  {
    if Print(a) == Print(b) {
      assert Print(a) + "" == Print(a) && Print(b) + "" == Print(b);
      PrintUnique(a, b, "", "");
    }
  }

  // ---------------------------------------------------------------------
  // Canonical form: members of every object sorted by key.
  // ---------------------------------------------------------------------

  function KeyOrder(): Comparison<Entry<Json>> {
    (a: Entry<Json>, b: Entry<Json>) => StrCmp(a.key, b.key)
  }

  function SortKeys(j: Json): Json
    decreases j
  {
    match j
    case JArray(items) => JArray(SortItems(items))
    case JObject(members) => JObject(StableSort(KeyOrder(), SortMembers(members)))
    case _ => j
  }

  function SortItems(items: seq<Json>): (r: seq<Json>)
    ensures |r| == |items| && forall i :: 0 <= i < |items| ==> r[i] == SortKeys(items[i])
    decreases items
  {
    if items == [] then [] else [SortKeys(items[0])] + SortItems(items[1..])
  }

  function SortMembers(members: IndexMap<Json>): (r: IndexMap<Json>)
    ensures |r| == |members|
    ensures forall i :: 0 <= i < |members| ==> r[i] == Entry(members[i].key, SortKeys(members[i].value))
    decreases members
  {
    if members == [] then [] else
      [Entry(members[0].key, SortKeys(members[0].value))] + SortMembers(members[1..])
  }

  function CanonicalJson(j: Json): string {
    Print(SortKeys(j))
  }

  lemma {:induction false} SortKeysReadable(j: Json)
    requires Readable(j)
    ensures Readable(SortKeys(j))
    decreases j
  {
    match j
    case JArray(items) =>
      forall i | 0 <= i < |items| ensures Readable(SortItems(items)[i]) {
        SortKeysReadable(items[i]);
      }
    case JObject(members) =>
      var sorted := StableSort(KeyOrder(), SortMembers(members));
      SortPermutes(KeyOrder(), SortMembers(members));
      forall i | 0 <= i < |sorted| ensures Readable(sorted[i].value) {
        assert sorted[i] in multiset(sorted);
        assert sorted[i] in SortMembers(members);
        var k :| 0 <= k < |members| && SortMembers(members)[k] == sorted[i];
        SortKeysReadable(members[k].value);
      }
    case _ =>
  }

  // Equal canonical objects have the same members up to order and nesting.
  lemma SameCanonicalMembers(a: IndexMap<Json>, b: IndexMap<Json>)
    requires SortKeys(JObject(a)) == SortKeys(JObject(b))
    ensures |a| == |b| && multiset(SortMembers(a)) == multiset(SortMembers(b))
  {
    SortPermutes(KeyOrder(), SortMembers(a));
    SortPermutes(KeyOrder(), SortMembers(b));
  }

  // The member under a key agrees between equal canonical objects.
  lemma SameCanonicalMember(a: IndexMap<Json>, b: IndexMap<Json>, i: nat, j: nat)
    requires SortKeys(JObject(a)) == SortKeys(JObject(b))
    requires UniqueKeys(b) && i < |a| && j < |b| && a[i].key == b[j].key
    ensures SortKeys(a[i].value) == SortKeys(b[j].value)
  {
    SameCanonicalMembers(a, b);
    var x := SortMembers(a)[i];
    assert x in multiset(SortMembers(a));
    assert x in SortMembers(b);
    var k :| 0 <= k < |b| && SortMembers(b)[k] == x;
    assert b[k].key == b[j].key;
  }

  // A key present in one of two equal canonical objects is present in both.
  lemma SameCanonicalKeys(a: IndexMap<Json>, b: IndexMap<Json>, key: string)
    requires SortKeys(JObject(a)) == SortKeys(JObject(b))
    ensures HasKey(a, key) ==> HasKey(b, key)
  {
    if HasKey(a, key) {
      SameCanonicalMembers(a, b);
      var i :| 0 <= i < |a| && a[i].key == key;
      assert SortMembers(a)[i] in multiset(SortMembers(a));
      assert SortMembers(a)[i] in SortMembers(b);
      var k :| 0 <= k < |b| && SortMembers(b)[k] == SortMembers(a)[i];
      assert b[k].key == key;
    }
  }

  // Canonical text determines the canonical document.
  lemma CanonicalInjective(a: Json, b: Json)
    requires Readable(a) && Readable(b)
    ensures CanonicalJson(a) == CanonicalJson(b) <==> SortKeys(a) == SortKeys(b)
  {
    SortKeysReadable(a);
    SortKeysReadable(b);
    PrintInjective(SortKeys(a), SortKeys(b));
  }
}
