/** The text that an audit entry is hashed over, and what it determines.

    A JSON tree is what JSON.parse can return: the members of an object carry an
    order but no key twice. A number stands for its JSON text. */
module CanonicalJson {
  import opened Wrappers

  datatype Json =
    | Null
    | Bool(b: bool)
    | Num(text: string)
    | Str(s: string)
    | Arr(items: Items)
    | Obj(members: Members)

  datatype Items = NoItems | Item(head: Json, tail: Items)

  datatype Members = NoMembers | Member(key: string, value: Json, rest: Members)

  predicate NumChar(c: char) { '0' <= c <= '9' || c in "+-.e" }

  predicate WellFormed(j: Json) {
    match j
    case Num(text) => text != "" && (text[0] == '-' || '0' <= text[0] <= '9') && forall c :: c in text ==> NumChar(c)
    case Arr(items) => WellFormedItems(items)
    case Obj(members) => WellFormedMembers(members)
    case _ => true
  }

  predicate WellFormedItems(items: Items) {
    items.Item? ==> WellFormed(items.head) && WellFormedItems(items.tail)
  }

  predicate WellFormedMembers(ms: Members) {
    ms.Member? ==> ms.key !in Keys(ms.rest) && WellFormed(ms.value) && WellFormedMembers(ms.rest)
  }

  function Keys(ms: Members): set<string> {
    match ms
    case NoMembers => {}
    case Member(k, _, rest) => {k} + Keys(rest)
  }

  // ----- what a tree means: objects are maps from keys to values -----

  /** Assigning a member named `__proto__` on a fresh object sets its prototype and
      leaves no own member, so the replacer drops it at every depth. */
  const PROTO := "__proto__"

  datatype Tree =
    | TNull
    | TBool(b: bool)
    | TNum(text: string)
    | TStr(s: string)
    | TArr(items: seq<Tree>)
    | TObj(members: map<string, Tree>)

  function Meaning(j: Json): Tree {
    match j
    case Null => TNull
    case Bool(b) => TBool(b)
    case Num(text) => TNum(text)
    case Str(s) => TStr(s)
    case Arr(items) => TArr(ItemsMeaning(items))
    case Obj(members) => TObj(MembersMeaning(members))
  }

  function ItemsMeaning(items: Items): seq<Tree> {
    match items
    case NoItems => []
    case Item(head, tail) => [Meaning(head)] + ItemsMeaning(tail)
  }

  function MembersMeaning(ms: Members): (m: map<string, Tree>)
    ensures m.Keys == Keys(ms) - {PROTO}
  {
    match ms
    case NoMembers => map[]
    case Member(k, v, rest) =>
      if k == PROTO then MembersMeaning(rest) else MembersMeaning(rest)[k := Meaning(v)]
  }

  // ----- the replacer: members re-inserted in sorted order -----

  predicate Digits(k: string) { forall c :: c in k ==> '0' <= c <= '9' }

  predicate Lex(a: string, b: string) {
    if a == [] then b != []
    else b != [] && (a[0] < b[0] || (a[0] == b[0] && Lex(a[1..], b[1..])))
  }

  /** The first place where two texts differ decides; a text comes after its beginnings. */
  predicate DiffersAt(a: string, b: string, k: nat) {
    && k <= |a| && k < |b| && a[..k] == b[..k] && (k == |a| || a[k] < b[k])
  }

  lemma SameFirst(a: string, b: string, k: nat)
    requires k <= |a| && k < |b| && a[..k] == b[..k]
    ensures k > 0 ==> a[0] == b[0]
  {
    if k > 0 { assert a[0] == a[..k][0] && b[0] == b[..k][0]; }
  }

  lemma {:induction false} LexDecides(a: string, b: string)
    ensures Lex(a, b) <==> exists k: nat :: DiffersAt(a, b, k)
  {
    if a == [] {
      if b != [] { assert DiffersAt(a, b, 0); }
    } else if b != [] && a[0] == b[0] {
      LexDecides(a[1..], b[1..]);
      assert a == [a[0]] + a[1..] && b == [b[0]] + b[1..];
      if Lex(a[1..], b[1..]) {
        var k: nat :| DiffersAt(a[1..], b[1..], k);
        assert a[..k + 1] == [a[0]] + a[1..][..k] && b[..k + 1] == [b[0]] + b[1..][..k];
        assert DiffersAt(a, b, k + 1);
      }
      if k: nat :| DiffersAt(a, b, k) {
        assert k > 0;
        assert a[1..][..k - 1] == a[..k][1..] && b[1..][..k - 1] == b[..k][1..];
        assert DiffersAt(a[1..], b[1..], k - 1);
      }
    } else if b != [] {
      if Lex(a, b) { assert DiffersAt(a, b, 0); }
      forall k: nat | DiffersAt(a, b, k) ensures k == 0 { SameFirst(a, b, k); }
    }
  }

  /** Keys that JavaScript enumerates first, in numeric order: "0" up to 2^32 - 2. */
  predicate ArrayIndex(k: string) {
    && k != "" && Digits(k) && (k[0] == '0' ==> k == "0")
    && (|k| < 10 || (|k| == 10 && !Lex("4294967294", k)))
  }

  /** The order in which the members of the sorted copy are enumerated. Numerals
      without leading zeros compare by length first. */
  predicate KeyBefore(a: string, b: string) {
    if ArrayIndex(a) && ArrayIndex(b) then |a| < |b| || (|a| == |b| && Lex(a, b))
    else if ArrayIndex(a) || ArrayIndex(b) then ArrayIndex(a)
    else Lex(a, b)
  }

  /** The number that decimal digits stand for. */
  function ReadDecimal(s: string): int {
    if s == "" then 0 else 10 * ReadDecimal(s[..|s| - 1]) + (s[|s| - 1] as int - '0' as int)
  }

  function Pow10(n: nat): nat { if n == 0 then 1 else 10 * Pow10(n - 1) }

  lemma DigitsInit(s: string)
    requires Digits(s) && s != ""
    ensures Digits(s[..|s| - 1]) && '0' <= s[|s| - 1] <= '9'
  {
    var init := s[..|s| - 1];
    forall c | c in init ensures '0' <= c <= '9' { assert c in s; }
    assert s[|s| - 1] in s;
  }

  lemma {:induction false} DecimalBounds(s: string)
    requires Digits(s)
    ensures 0 <= ReadDecimal(s) < Pow10(|s|)
    ensures s != "" && s[0] != '0' ==> ReadDecimal(s) >= Pow10(|s| - 1)
  {
    if s != "" {
      DigitsInit(s);
      DecimalBounds(s[..|s| - 1]);
      assert s[0] in s;
    }
  }

  lemma {:induction false} Pow10Grows(m: nat, n: nat)
    requires m <= n
    ensures Pow10(m) <= Pow10(n)
  {
    if m < n { Pow10Grows(m, n - 1); }
  }

  lemma {:induction false} LexSnoc(a: string, b: string, x: char, y: char)
    requires |a| == |b|
    ensures Lex(a + [x], b + [y]) <==> Lex(a, b) || (a == b && x < y)
  {
    if a != [] {
      assert (a + [x])[1..] == a[1..] + [x] && (b + [y])[1..] == b[1..] + [y];
      LexSnoc(a[1..], b[1..], x, y);
      assert a == [a[0]] + a[1..] && b == [b[0]] + b[1..];
    }
  }

  lemma {:induction false} SameLengthOrder(a: string, b: string)
    requires Digits(a) && Digits(b) && |a| == |b|
    ensures Lex(a, b) <==> ReadDecimal(a) < ReadDecimal(b)
    ensures ReadDecimal(a) == ReadDecimal(b) ==> a == b
    decreases |a|
  {
    if a != "" {
      var n := |a| - 1;
      DigitsInit(a);
      DigitsInit(b);
      SameLengthOrder(a[..n], b[..n]);
      LexSnoc(a[..n], b[..n], a[n], b[n]);
      assert a == a[..n] + [a[n]] && b == b[..n] + [b[n]];
    }
  }

  lemma ShorterIsLess(a: string, b: string)
    requires ArrayIndex(a) && ArrayIndex(b) && |a| < |b|
    ensures ReadDecimal(a) < ReadDecimal(b)
  {
    DecimalBounds(a);
    DecimalBounds(b);
    Pow10Grows(|a|, |b| - 1);
  }

  const LAST_INDEX := "4294967294"

  lemma ReadNext(s: string, c: char)
    ensures ReadDecimal(s + [c]) == 10 * ReadDecimal(s) + (c as int - '0' as int)
  {
    assert (s + [c])[..|s|] == s;
  }

  lemma LastIndexIs()
    ensures Digits(LAST_INDEX) && |LAST_INDEX| == 10 && ReadDecimal(LAST_INDEX) == 4294967294
  {
    var s := LAST_INDEX;
    ReadNext(s[..0], s[0]); ReadNext(s[..1], s[1]); ReadNext(s[..2], s[2]); ReadNext(s[..3], s[3]); ReadNext(s[..4], s[4]);
    ReadNext(s[..5], s[5]); ReadNext(s[..6], s[6]); ReadNext(s[..7], s[7]); ReadNext(s[..8], s[8]); ReadNext(s[..9], s[9]);
    forall k: nat | k < 10 ensures s[..k] + [s[k]] == s[..k + 1] {}
    assert s[..10] == s && s[..0] == "";
  }

  /** An array index is a numeral without leading zeros up to 2^32 - 2. */
  lemma ArrayIndexIs(k: string)
    ensures ArrayIndex(k) <==> k != "" && Digits(k) && (k[0] == '0' ==> k == "0") && ReadDecimal(k) <= 4294967294
  {
    LastIndexIs();
    if k != "" && Digits(k) && (k[0] == '0' ==> k == "0") {
      DecimalBounds(k);
      assert Pow10(9) == 1000000000 && Pow10(10) == 10000000000;
      if |k| < 10 {
        Pow10Grows(|k|, 9);
      } else if |k| == 10 {
        SameLengthOrder(LAST_INDEX, k);
      } else {
        Pow10Grows(10, |k| - 1);
      }
    }
  }

  /** Every leaf that can be parsed is a tree: a number's text is made of digits, signs,
      a point and an exponent, and begins with a digit or a minus. */
  lemma LeavesAreTrees(b: bool, s: string, n: string)
    requires n != "" && n[0] in {'-', '0', '1', '2', '3', '4', '5', '6', '7', '8', '9'}
    requires forall c :: c in n ==> c in {'0', '1', '2', '3', '4', '5', '6', '7', '8', '9', '+', '-', '.', 'e'}
    ensures WellFormed(Null) && WellFormed(Bool(b)) && WellFormed(Str(s)) && WellFormed(Num(n))
  {
    forall c | c in n ensures NumChar(c) { NumCharsAre(c); }
  }

  lemma NumCharsAre(c: char)
    ensures NumChar(c) <==> c in {'0', '1', '2', '3', '4', '5', '6', '7', '8', '9', '+', '-', '.', 'e'}
  {
    var s := "+-.e";
    assert s[0] == '+' && s[1] == '-' && s[2] == '.' && s[3] == 'e';
  }

  /** Array indices come first, in numeric order, and the other keys after them, in the
      order of their characters. */
  lemma KeysAreEnumerated(a: string, b: string)
    ensures ArrayIndex(a) && ArrayIndex(b) ==> (KeyBefore(a, b) <==> ReadDecimal(a) < ReadDecimal(b))
    ensures ArrayIndex(a) != ArrayIndex(b) ==> (KeyBefore(a, b) <==> ArrayIndex(a))
    ensures !ArrayIndex(a) && !ArrayIndex(b) ==> (KeyBefore(a, b) <==> exists k: nat :: DiffersAt(a, b, k))
  {
    LexDecides(a, b);
    if ArrayIndex(a) && ArrayIndex(b) {
      if |a| < |b| { ShorterIsLess(a, b); } else if |b| < |a| { ShorterIsLess(b, a); } else { SameLengthOrder(a, b); }
    }
  }

  function InsertMember(k: string, v: Json, ms: Members): Members {
    if ms.Member? && KeyBefore(ms.key, k)
    then Member(ms.key, ms.value, InsertMember(k, v, ms.rest))
    else Member(k, v, ms)
  }

  function Sorted(j: Json): Json {
    match j
    case Arr(items) => Arr(SortedItems(items))
    case Obj(members) => Obj(SortedMembers(members))
    case _ => j
  }

  function SortedItems(items: Items): Items {
    match items
    case NoItems => NoItems
    case Item(head, tail) => Item(Sorted(head), SortedItems(tail))
  }

  function SortedMembers(ms: Members): Members {
    match ms
    case NoMembers => NoMembers
    case Member(k, v, rest) =>
      if k == PROTO then SortedMembers(rest) else InsertMember(k, Sorted(v), SortedMembers(rest))
  }

  // ----- JSON.stringify -----

  function HexDigit(n: int): char
    requires 0 <= n < 16
  {
    "0123456789abcdef"[n]
  }

  function EscapeChar(c: char): string {
    if c == '\"' then "\\\""
    else if c == '\\' then "\\\\"
    else if c as int == 8 then "\\b"
    else if c as int == 12 then "\\f"
    else if c as int == 10 then "\\n"
    else if c as int == 13 then "\\r"
    else if c as int == 9 then "\\t"
    else if c as int < 32 then "\\u00" + [HexDigit(c as int / 16), HexDigit(c as int % 16)]
    else [c]
  }

  function HexValue(c: char): int {
    if '0' <= c <= '9' then c as int - '0' as int else c as int - 'a' as int + 10
  }

  /** What an escape stands for in JSON, as a character code. */
  function Unescape(e: string): int {
    if |e| == 2 then
      (match e[1]
       case 'b' => 8
       case 't' => 9
       case 'n' => 10
       case 'f' => 12
       case 'r' => 13
       case c => c as int)
    else if |e| == 6 then HexValue(e[4]) * 16 + HexValue(e[5])
    else if |e| == 1 then e[0] as int
    else -1
  }

  /** Each character is written as an escape of its own: quotation mark, backslash and the
      five control characters that have one as two characters, the other control
      characters as six, and any other as itself. */
  lemma EscapesAre(c: char)
    ensures Unescape(EscapeChar(c)) == c as int
    ensures |EscapeChar(c)| == if c == '\"' || c == '\\' || c as int in {8, 9, 10, 12, 13} then 2 else if c as int < 32 then 6 else 1
    ensures |EscapeChar(c)| > 1 ==> EscapeChar(c)[0] == '\\'
    ensures |EscapeChar(c)| == 6 ==> EscapeChar(c)[1] == 'u' && EscapeChar(c)[2] == EscapeChar(c)[3] == '0'
  {
  }

  /** The escaped characters and the closing quote. */
  function Escape(s: string): string {
    if s == "" then "\"" else EscapeChar(s[0]) + Escape(s[1..])
  }

  function Quote(s: string): string { "\"" + Escape(s) }

  function Print(j: Json): string {
    match j
    case Null => "null"
    case Bool(b) => if b then "true" else "false"
    case Num(text) => text
    case Str(s) => Quote(s)
    case Arr(items) =>
      (match items
       case NoItems => "[]"
       case Item(head, tail) => "[" + Print(head) + PrintItems(tail))
    case Obj(members) =>
      (match members
       case NoMembers => "{}"
       case Member(k, v, rest) => "{" + Quote(k) + ":" + Print(v) + PrintMembers(rest))
  }

  function PrintItems(items: Items): string {
    match items
    case NoItems => "]"
    case Item(head, tail) => "," + Print(head) + PrintItems(tail)
  }

  function PrintMembers(ms: Members): string {
    match ms
    case NoMembers => "}"
    case Member(k, v, rest) => "," + Quote(k) + ":" + Print(v) + PrintMembers(rest)
  }

  /** Missing or null metadata is serialised as an empty object. */
  function OrEmptyObject(metadata: Option<Json>): Json {
    match metadata
    case None => Obj(NoMembers)
    case Some(j) => if j.Null? then Obj(NoMembers) else j
  }

  function CanonicalJsonStringify(metadata: Option<Json>): string {
    Print(Sorted(OrEmptyObject(metadata)))
  }

  // ----- the text determines the tree -----

  lemma EscapeCharPrefix(c: char, d: char, x: string, y: string)
    requires EscapeChar(c) + x == EscapeChar(d) + y
    ensures c == d && x == y
  {
    var l, r := EscapeChar(c) + x, EscapeChar(d) + y;
    assert l[0] == EscapeChar(c)[0] && r[0] == EscapeChar(d)[0];
    if l[0] == '\\' {
      assert l[1] == EscapeChar(c)[1] && r[1] == EscapeChar(d)[1];
      if l[1] == 'u' {
        assert l[4] == EscapeChar(c)[4] && r[4] == EscapeChar(d)[4];
        assert l[5] == EscapeChar(c)[5] && r[5] == EscapeChar(d)[5];
        assert c as int / 16 == d as int / 16;
        HexInjective(c as int % 16, d as int % 16);
        assert c as int == d as int;
      }
    }
    assert c == d;
    assert x == l[|EscapeChar(c)|..] && y == r[|EscapeChar(d)|..];
  }

  lemma HexInjective(a: int, b: int)
    requires 0 <= a < 16 && 0 <= b < 16
    ensures HexDigit(a) == HexDigit(b) ==> a == b
  {
  }

  lemma Assoc(a: string, b: string, x: string)
    ensures (a + b) + x == a + (b + x)
  {
  }

  lemma Tail(p: string, x: string, q: string, y: string)
    requires p + x == q + y && |p| == |q|
    ensures p == q && x == y
  {
    assert p == (p + x)[..|p|] && q == (q + y)[..|q|];
    assert x == (p + x)[|p|..] && y == (q + y)[|q|..];
  }

  lemma EscapeFirst(s: string, x: string)
    ensures (Escape(s) + x)[0] == (if s == "" then '\"' else EscapeChar(s[0])[0])
    ensures s != "" ==> (Escape(s) + x)[0] != '\"' && Escape(s) + x == EscapeChar(s[0]) + (Escape(s[1..]) + x)
  {
    if s != "" { Assoc(EscapeChar(s[0]), Escape(s[1..]), x); }
  }

  lemma {:induction false} EscapePrefix(s: string, t: string, x: string, y: string)
    requires Escape(s) + x == Escape(t) + y
    ensures s == t && x == y
  {
    EscapeFirst(s, x);
    EscapeFirst(t, y);
    if s == "" {
      Tail("\"", x, "\"", y);
    } else {
      EscapeCharPrefix(s[0], t[0], Escape(s[1..]) + x, Escape(t[1..]) + y);
      EscapePrefix(s[1..], t[1..], x, y);
      assert s == [s[0]] + s[1..] && t == [t[0]] + t[1..];
    }
  }

  lemma QuotePrefix(s: string, t: string, x: string, y: string)
    requires Quote(s) + x == Quote(t) + y
    ensures s == t && x == y
  {
    Assoc("\"", Escape(s), x);
    Assoc("\"", Escape(t), y);
    Tail("\"", Escape(s) + x, "\"", Escape(t) + y);
    EscapePrefix(s, t, x, y);
  }

  /** What may follow a value: nothing that could continue a number. */
  predicate Stops(x: string) { x == "" || !NumChar(x[0]) }

  lemma Overhang(s: string, t: string, x: string, y: string)
    requires s + x == t + y && |s| < |t|
    ensures x != "" && x[0] == t[|s|]
  {
    assert (s + x)[|s|] == x[0] && (t + y)[|s|] == t[|s|];
  }

  lemma NumberNotLonger(s: string, t: string, x: string, y: string)
    requires s + x == t + y && Stops(x)
    requires forall c :: c in t ==> NumChar(c)
    ensures |s| >= |t|
  {
    if |s| < |t| {
      Overhang(s, t, x, y);
      assert false;
    }
  }

  lemma NumberPrefix(s: string, t: string, x: string, y: string)
    requires s + x == t + y && Stops(x) && Stops(y)
    requires (forall c :: c in s ==> NumChar(c)) && (forall c :: c in t ==> NumChar(c))
    ensures s == t && x == y
  {
    NumberNotLonger(s, t, x, y);
    NumberNotLonger(t, s, y, x);
    Tail(s, x, t, y);
  }

  /** The first character of a value's text tells its kind. */
  function Kind(j: Json): nat {
    match j
    case Null => 0 case Bool(b) => if b then 1 else 2 case Num(_) => 3
    case Str(_) => 4 case Arr(_) => 5 case Obj(_) => 6
  }

  function KindOf(c: char): nat {
    if c == 'n' then 0 else if c == 't' then 1 else if c == 'f' then 2
    else if c == '\"' then 4 else if c == '[' then 5 else if c == '{' then 6 else 3
  }

  lemma FirstChar(j: Json)
    requires WellFormed(j)
    ensures Print(j) != "" && KindOf(Print(j)[0]) == Kind(j)
  {
  }

  lemma {:induction false} PrintPrefix(a: Json, b: Json, x: string, y: string)
    requires WellFormed(a) && WellFormed(b)
    requires Print(a) + x == Print(b) + y && Stops(x) && Stops(y)
    ensures a == b && x == y
    decreases a
  {
    FirstChar(a);
    FirstChar(b);
    assert (Print(a) + x)[0] == Print(a)[0] && (Print(b) + y)[0] == Print(b)[0];
    assert Kind(a) == Kind(b);
    match a
    case Null => Tail(Print(a), x, Print(b), y);
    case Bool(_) => Tail(Print(a), x, Print(b), y);
    case Num(text) => NumberPrefix(text, b.text, x, y);
    case Str(s) => QuotePrefix(s, b.s, x, y);
    case Arr(items) => ArrPrefix(items, b.items, x, y);
    case Obj(members) => ObjPrefix(members, b.members, x, y);
  }

  lemma ArrText(items: Items, x: string)
    requires WellFormedItems(items)
    ensures |Print(Arr(items)) + x| >= 2 && ((Print(Arr(items)) + x)[1] == ']' <==> items.NoItems?)
    ensures items.Item? ==> Print(Arr(items)) + x == "[" + (Print(items.head) + (PrintItems(items.tail) + x))
  {
    if items.Item? {
      FirstChar(items.head);
      assert (Print(Arr(items)) + x)[1] == Print(items.head)[0];
      Assoc("[" + Print(items.head), PrintItems(items.tail), x);
      Assoc("[", Print(items.head), PrintItems(items.tail) + x);
    }
  }

  lemma ItemsText(items: Items, x: string)
    ensures (PrintItems(items) + x)[0] == (if items.NoItems? then ']' else ',')
    ensures items.Item? ==> PrintItems(items) + x == "," + (Print(items.head) + (PrintItems(items.tail) + x))
  {
    if items.Item? {
      Assoc("," + Print(items.head), PrintItems(items.tail), x);
      Assoc(",", Print(items.head), PrintItems(items.tail) + x);
    }
  }

  lemma {:induction false} ArrPrefix(a: Items, b: Items, x: string, y: string)
    requires WellFormedItems(a) && WellFormedItems(b)
    requires Print(Arr(a)) + x == Print(Arr(b)) + y && Stops(x) && Stops(y)
    ensures a == b && x == y
    decreases a, 1
  {
    ArrText(a, x);
    ArrText(b, y);
    if a.NoItems? {
      Tail("[]", x, "[]", y);
    } else {
      ItemPrefix("[", a, b, x, y);
    }
  }

  lemma {:induction false} ItemsPrefix(a: Items, b: Items, x: string, y: string)
    requires WellFormedItems(a) && WellFormedItems(b)
    requires PrintItems(a) + x == PrintItems(b) + y && Stops(x) && Stops(y)
    ensures a == b && x == y
    decreases a, 1
  {
    ItemsText(a, x);
    ItemsText(b, y);
    if a.NoItems? {
      Tail("]", x, "]", y);
    } else {
      ItemPrefix(",", a, b, x, y);
    }
  }

  lemma {:induction false} ItemPrefix(p: string, a: Items, b: Items, x: string, y: string)
    requires a.Item? && b.Item? && WellFormedItems(a) && WellFormedItems(b) && Stops(x) && Stops(y)
    requires p + (Print(a.head) + (PrintItems(a.tail) + x)) == p + (Print(b.head) + (PrintItems(b.tail) + y))
    ensures a == b && x == y
    decreases a, 0
  {
    Tail(p, Print(a.head) + (PrintItems(a.tail) + x), p, Print(b.head) + (PrintItems(b.tail) + y));
    ItemsText(a.tail, x);
    ItemsText(b.tail, y);
    PrintPrefix(a.head, b.head, PrintItems(a.tail) + x, PrintItems(b.tail) + y);
    ItemsPrefix(a.tail, b.tail, x, y);
  }

  /** The members of an object after its opening character, then x. */
  function MemberText(ms: Members, x: string): string
    requires ms.Member?
  {
    Quote(ms.key) + (":" + (Print(ms.value) + (PrintMembers(ms.rest) + x)))
  }

  lemma Reassociate(p: string, ms: Members, x: string)
    requires ms.Member?
    ensures (p + Quote(ms.key) + ":" + Print(ms.value) + PrintMembers(ms.rest)) + x == p + MemberText(ms, x)
  {
    var q, v, r := Quote(ms.key), Print(ms.value), PrintMembers(ms.rest);
    Assoc(p + q + ":" + v, r, x);
    Assoc(p + q + ":", v, r + x);
    Assoc(p + q, ":", v + (r + x));
    Assoc(p, q, ":" + (v + (r + x)));
  }

  lemma ObjText(ms: Members, x: string)
    ensures |Print(Obj(ms)) + x| >= 2 && ((Print(Obj(ms)) + x)[1] == '}' <==> ms.NoMembers?)
    ensures ms.Member? ==> Print(Obj(ms)) + x == "{" + MemberText(ms, x)
  {
    if ms.Member? {
      Reassociate("{", ms, x);
      assert ("{" + MemberText(ms, x))[1] == '\"';
    }
  }

  lemma MembersText(ms: Members, x: string)
    ensures (PrintMembers(ms) + x)[0] == (if ms.NoMembers? then '}' else ',')
    ensures ms.Member? ==> PrintMembers(ms) + x == "," + MemberText(ms, x)
  {
    if ms.Member? { Reassociate(",", ms, x); }
  }

  lemma {:induction false} ObjPrefix(a: Members, b: Members, x: string, y: string)
    requires WellFormedMembers(a) && WellFormedMembers(b)
    requires Print(Obj(a)) + x == Print(Obj(b)) + y && Stops(x) && Stops(y)
    ensures a == b && x == y
    decreases a, 1
  {
    ObjText(a, x);
    ObjText(b, y);
    if a.NoMembers? {
      Tail("{}", x, "{}", y);
    } else {
      MemberPrefix("{", a, b, x, y);
    }
  }

  lemma {:induction false} MembersPrefix(a: Members, b: Members, x: string, y: string)
    requires WellFormedMembers(a) && WellFormedMembers(b)
    requires PrintMembers(a) + x == PrintMembers(b) + y && Stops(x) && Stops(y)
    ensures a == b && x == y
    decreases a, 1
  {
    MembersText(a, x);
    MembersText(b, y);
    if a.NoMembers? {
      Tail("}", x, "}", y);
    } else {
      MemberPrefix(",", a, b, x, y);
    }
  }

  lemma {:induction false} MemberPrefix(p: string, a: Members, b: Members, x: string, y: string)
    requires a.Member? && b.Member? && WellFormedMembers(a) && WellFormedMembers(b) && Stops(x) && Stops(y)
    requires p + MemberText(a, x) == p + MemberText(b, y)
    ensures a == b && x == y
    decreases a, 0
  {
    var u, v := Print(a.value) + (PrintMembers(a.rest) + x), Print(b.value) + (PrintMembers(b.rest) + y);
    Tail(p, MemberText(a, x), p, MemberText(b, y));
    QuotePrefix(a.key, b.key, ":" + u, ":" + v);
    Tail(":", u, ":", v);
    MembersText(a.rest, x);
    MembersText(b.rest, y);
    PrintPrefix(a.value, b.value, PrintMembers(a.rest) + x, PrintMembers(b.rest) + y);
    MembersPrefix(a.rest, b.rest, x, y);
  }

  // ----- sorting keeps the meaning, and equal meanings sort alike -----

  lemma {:induction false} LexTotal(a: string, b: string)
    ensures !Lex(a, a) && (a == b || Lex(a, b) || Lex(b, a)) && !(Lex(a, b) && Lex(b, a))
  {
    if a != "" { LexTotal(a[1..], a[1..]); }
    if a != "" && b != "" {
      LexTotal(a[1..], b[1..]);
      if a[0] == b[0] && a[1..] == b[1..] { assert a == [a[0]] + a[1..] && b == [b[0]] + b[1..]; }
    }
  }

  lemma {:induction false} LexTransitive(a: string, b: string, c: string)
    requires Lex(a, b) && Lex(b, c)
    ensures Lex(a, c)
  {
    if a != "" && a[0] == b[0] == c[0] { LexTransitive(a[1..], b[1..], c[1..]); }
  }

  lemma KeyOrder(a: string, b: string)
    ensures !KeyBefore(a, a) && (a == b || KeyBefore(a, b) || KeyBefore(b, a)) && !(KeyBefore(a, b) && KeyBefore(b, a))
  {
    LexTotal(a, b);
    LexTotal(a, a);
  }

  lemma KeyBeforeTransitive(a: string, b: string, c: string)
    requires KeyBefore(a, b) && KeyBefore(b, c)
    ensures KeyBefore(a, c)
  {
    if Lex(a, b) && Lex(b, c) { LexTransitive(a, b, c); }
  }

  ghost predicate Ordered(ms: Members) {
    ms.Member? ==>
      && ms.key != PROTO && Canonical(ms.value) && Ordered(ms.rest)
      && forall k :: k in Keys(ms.rest) ==> KeyBefore(ms.key, k)
  }

  ghost predicate OrderedItems(items: Items) {
    items.Item? ==> Canonical(items.head) && OrderedItems(items.tail)
  }

  /** Every object's members are in key order and none is named `__proto__`. */
  ghost predicate Canonical(j: Json) {
    match j
    case Arr(items) => OrderedItems(items)
    case Obj(members) => Ordered(members)
    case _ => true
  }

  lemma {:induction false} InsertKeys(k: string, v: Json, ms: Members)
    requires k !in Keys(ms) && WellFormed(v) && WellFormedMembers(ms)
    ensures Keys(InsertMember(k, v, ms)) == Keys(ms) + {k} && WellFormedMembers(InsertMember(k, v, ms))
  {
    if ms.Member? && KeyBefore(ms.key, k) { InsertKeys(k, v, ms.rest); }
  }

  lemma {:induction false} InsertOrdered(k: string, v: Json, ms: Members)
    requires Ordered(ms) && Canonical(v) && k != PROTO && k !in Keys(ms)
    requires WellFormed(v) && WellFormedMembers(ms)
    ensures Ordered(InsertMember(k, v, ms))
  {
    if ms.Member? {
      KeyOrder(ms.key, k);
      if KeyBefore(ms.key, k) {
        InsertOrdered(k, v, ms.rest);
        InsertKeys(k, v, ms.rest);
      } else {
        forall q | q in Keys(ms.rest) ensures KeyBefore(k, q) { KeyBeforeTransitive(k, ms.key, q); }
      }
    }
  }

  lemma {:induction false} InsertMeaning(k: string, v: Json, ms: Members)
    requires k != PROTO && k !in Keys(ms)
    ensures MembersMeaning(InsertMember(k, v, ms)) == MembersMeaning(ms)[k := Meaning(v)]
  {
    if ms.Member? && KeyBefore(ms.key, k) { InsertMeaning(k, v, ms.rest); }
  }

  lemma InsertKeeps(k: string, v: Json, ms: Members)
    requires Ordered(ms) && Canonical(v) && k != PROTO && k !in Keys(ms)
    requires WellFormed(v) && WellFormedMembers(ms)
    ensures var r := InsertMember(k, v, ms);
            && Keys(r) == Keys(ms) + {k} && Ordered(r) && WellFormedMembers(r)
            && MembersMeaning(r) == MembersMeaning(ms)[k := Meaning(v)]
  {
    InsertKeys(k, v, ms);
    InsertOrdered(k, v, ms);
    InsertMeaning(k, v, ms);
  }

  lemma {:induction false} SortedKeeps(j: Json)
    requires WellFormed(j)
    ensures Canonical(Sorted(j)) && WellFormed(Sorted(j)) && Meaning(Sorted(j)) == Meaning(j)
    decreases j
  {
    match j
    case Arr(items) => SortedItemsKeeps(items);
    case Obj(members) => SortedMembersKeeps(members);
    case _ =>
  }

  lemma {:induction false} SortedItemsKeeps(items: Items)
    requires WellFormedItems(items)
    ensures var r := SortedItems(items);
            OrderedItems(r) && WellFormedItems(r) && ItemsMeaning(r) == ItemsMeaning(items)
    decreases items
  {
    if items.Item? {
      SortedKeeps(items.head);
      SortedItemsKeeps(items.tail);
    }
  }

  lemma {:induction false} SortedMembersKeeps(ms: Members)
    requires WellFormedMembers(ms)
    ensures var r := SortedMembers(ms);
            && Keys(r) == Keys(ms) - {PROTO} && Ordered(r) && WellFormedMembers(r)
            && MembersMeaning(r) == MembersMeaning(ms)
    decreases ms
  {
    if ms.Member? {
      SortedKeeps(ms.value);
      SortedMembersKeeps(ms.rest);
      if ms.key != PROTO { InsertKeeps(ms.key, Sorted(ms.value), SortedMembers(ms.rest)); }
    }
  }

  lemma {:induction false} CanonicalUnique(a: Json, b: Json)
    requires Canonical(a) && Canonical(b) && Meaning(a) == Meaning(b)
    ensures a == b
    decreases a
  {
    match a
    case Arr(items) => OrderedItemsUnique(items, b.items);
    case Obj(members) => OrderedUnique(members, b.members);
    case _ =>
  }

  lemma {:induction false} OrderedItemsUnique(a: Items, b: Items)
    requires OrderedItems(a) && OrderedItems(b) && ItemsMeaning(a) == ItemsMeaning(b)
    ensures a == b
    decreases a
  {
    if a.Item? {
      assert ItemsMeaning(a)[0] == ItemsMeaning(b)[0];
      assert ItemsMeaning(a)[1..] == ItemsMeaning(a.tail) && ItemsMeaning(b)[1..] == ItemsMeaning(b.tail);
      CanonicalUnique(a.head, b.head);
      OrderedItemsUnique(a.tail, b.tail);
    } else {
      assert |ItemsMeaning(a)| == 0;
    }
  }

  lemma {:induction false} NoProto(ms: Members)
    requires Ordered(ms)
    ensures PROTO !in Keys(ms)
  {
    if ms.Member? { NoProto(ms.rest); }
  }

  lemma {:induction false} OrderedUnique(a: Members, b: Members)
    requires Ordered(a) && Ordered(b) && MembersMeaning(a) == MembersMeaning(b)
    ensures a == b
    decreases a
  {
    NoProto(a);
    NoProto(b);
    var m := MembersMeaning(a);
    assert Keys(a) == m.Keys == Keys(b);
    if a.Member? {
      assert a.key in Keys(b) && b.Member? && b.key in Keys(a);
      KeyOrder(a.key, b.key);
      assert a.key == b.key;
      KeyOrder(a.key, a.key);
      assert m[a.key] == Meaning(a.value) == Meaning(b.value);
      CanonicalUnique(a.value, b.value);
      RestMeaning(a);
      RestMeaning(b);
      OrderedUnique(a.rest, b.rest);
    } else {
      assert Keys(b) == {};
    }
  }

  lemma RestMeaning(ms: Members)
    requires ms.Member? && Ordered(ms)
    ensures MembersMeaning(ms.rest) == MembersMeaning(ms) - {ms.key}
  {
    KeyOrder(ms.key, ms.key);
    assert ms.key !in Keys(ms.rest);
    assert ms.key !in MembersMeaning(ms.rest);
  }

  /** Metadata that is an object is serialised as it is given; missing or null metadata as
      the empty object. */
  lemma MetadataIs(j: Json)
    ensures !j.Null? ==> CanonicalJsonStringify(Some(j)) == Print(Sorted(j))
    ensures CanonicalJsonStringify(Some(Null)) == CanonicalJsonStringify(None) == "{}"
  {
  }

  /** Two metadata values give the same text exactly when they are the same tree up
      to the order of object members at every depth, members named `__proto__`
      apart, with missing and null metadata read as an empty object. */
  lemma CanonicalText(a: Option<Json>, b: Option<Json>)
    requires WellFormed(OrEmptyObject(a)) && WellFormed(OrEmptyObject(b))
    ensures CanonicalJsonStringify(a) == CanonicalJsonStringify(b)
       <==> Meaning(OrEmptyObject(a)) == Meaning(OrEmptyObject(b))
  {
    var x, y := OrEmptyObject(a), OrEmptyObject(b);
    SortedKeeps(x);
    SortedKeeps(y);
    if Print(Sorted(x)) == Print(Sorted(y)) {
      assert Print(Sorted(x)) + "" == Print(Sorted(y)) + "";
      PrintPrefix(Sorted(x), Sorted(y), "", "");
    }
    if Meaning(x) == Meaning(y) { CanonicalUnique(Sorted(x), Sorted(y)); }
  }

  /** The dropped member is real: these two objects differ and hash alike. */
  lemma ProtoMemberIsNotCovered(v: Json)
    requires WellFormed(v)
    ensures CanonicalJsonStringify(Some(Obj(Member(PROTO, v, NoMembers)))) == CanonicalJsonStringify(None)
  {
  }
}
