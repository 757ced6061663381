/** Which audit entries the hashed text determines. A vertical bar in the printed
    metadata can only stand inside a string, so a text read with a different split of
    its fields would have to take up the metadata inside one of its strings. */
module AuditDecoding {
  import opened Wrappers
  import opened CanonicalJson
  import opened AuditEntry

  // ------------------------------------------------------------------
  // Quotes in printed JSON
  // ------------------------------------------------------------------

  /** Outside strings, inside one, after a backslash in one, or not JSON text. */
  datatype Place = Outside | Inside | Escaped | Wrong

  function Step(at: Place, c: char): Place {
    match at
    case Outside => if c == '\"' then Inside else if c == '\\' || c == '|' then Wrong else Outside
    case Inside => if c == '\"' then Outside else if c == '\\' then Escaped else Inside
    case Escaped => if c == '|' then Wrong else Inside
    case Wrong => Wrong
  }

  function Scan(at: Place, s: string): Place
    decreases |s|
  {
    if s == "" then at else Scan(Step(at, s[0]), s[1..])
  }

  lemma {:induction false} ScanCut(at: Place, a: string, b: string)
    ensures Scan(at, a + b) == Scan(Scan(at, a), b)
    decreases |a|
  {
    if a == "" {
      assert a + b == b;
    } else {
      assert (a + b)[1..] == a[1..] + b;
      ScanCut(Step(at, a[0]), a[1..], b);
    }
  }

  lemma {:induction false} WrongStays(s: string)
    ensures Scan(Wrong, s) == Wrong
  {
    if s != "" { WrongStays(s[1..]); }
  }

  /** Text without quotes, backslashes and bars. */
  predicate Plain(s: string) { forall i :: 0 <= i < |s| ==> s[i] != '\"' && s[i] != '\\' && s[i] != '|' }

  lemma {:induction false} ScanPlain(s: string)
    requires Plain(s)
    ensures Scan(Outside, s) == Outside
  {
    if s != "" { ScanPlain(s[1..]); }
  }

  lemma ScanTwo(c: char)
    requires c != '|'
    ensures Scan(Inside, ['\\', c]) == Inside
  {
    var s := ['\\', c];
    assert s[1..] == [c] && [c][1..] == "";
    assert Scan(Escaped, [c]) == Scan(Inside, "");
  }

  lemma {:induction false} ScanInside(s: string)
    requires forall i :: 0 <= i < |s| ==> s[i] != '\"' && s[i] != '\\'
    ensures Scan(Inside, s) == Inside
  {
    if s != "" { ScanInside(s[1..]); }
  }

  lemma ScanEscapeChar(c: char)
    ensures Scan(Inside, EscapeChar(c)) == Inside
  {
    var e := EscapeChar(c);
    if |e| == 1 {
      ScanInside(e);
    } else if |e| == 2 {
      ScanTwo(e[1]);
      assert e == ['\\', e[1]];
    } else {
      var rest := "00" + [HexDigit(c as int / 16), HexDigit(c as int % 16)];
      ScanTwo('u');
      ScanInside(rest);
      ScanCut(Inside, ['\\', 'u'], rest);
      assert e == ['\\', 'u'] + rest;
    }
  }

  lemma {:induction false} ScanEscape(s: string)
    ensures Scan(Inside, Escape(s)) == Outside
  {
    if s == "" {
      assert "\""[1..] == "";
    } else {
      ScanEscapeChar(s[0]);
      ScanCut(Inside, EscapeChar(s[0]), Escape(s[1..]));
      ScanEscape(s[1..]);
    }
  }

  lemma ScanQuote(s: string)
    ensures Scan(Outside, Quote(s)) == Outside
  {
    ScanEscape(s);
    assert Quote(s)[1..] == Escape(s);
  }

  /** Two balanced texts in a row. */
  lemma ScanBoth(a: string, b: string)
    requires Scan(Outside, a) == Outside && Scan(Outside, b) == Outside
    ensures Scan(Outside, a + b) == Outside
  {
    ScanCut(Outside, a, b);
  }

  /** Printed JSON ends outside strings, with no bar or backslash outside one. */
  lemma {:induction false} ScanPrint(j: Json)
    requires WellFormed(j)
    ensures Scan(Outside, Print(j)) == Outside
    decreases j
  {
    match j
    case Str(s) => ScanQuote(s);
    case Arr(items) =>
      if items.Item? {
        ScanPrint(items.head);
        ScanItems(items.tail);
        ScanPlain("[");
        ScanBoth("[", Print(items.head));
        ScanBoth("[" + Print(items.head), PrintItems(items.tail));
      } else {
        ScanPlain("[]");
      }
    case Obj(members) =>
      if members.Member? {
        ScanMember("{", members.key, members.value, members.rest);
      } else {
        ScanPlain("{}");
      }
    case Num(text) =>
      assert forall i :: 0 <= i < |text| ==> NumChar(text[i]);
      ScanPlain(text);
    case _ => ScanPlain(Print(j));
  }

  lemma {:induction false} ScanItems(items: Items)
    requires WellFormedItems(items)
    ensures Scan(Outside, PrintItems(items)) == Outside
    decreases items
  {
    if items.Item? {
      ScanPrint(items.head);
      ScanItems(items.tail);
      ScanPlain(",");
      ScanBoth(",", Print(items.head));
      ScanBoth("," + Print(items.head), PrintItems(items.tail));
    } else {
      ScanPlain("]");
    }
  }

  lemma {:induction false} ScanMembers(ms: Members)
    requires WellFormedMembers(ms)
    ensures Scan(Outside, PrintMembers(ms)) == Outside
    decreases ms
  {
    if ms.Member? {
      ScanMember(",", ms.key, ms.value, ms.rest);
    } else {
      ScanPlain("}");
    }
  }

  lemma {:induction false} ScanMember(open: string, k: string, v: Json, rest: Members)
    requires Plain(open) && WellFormed(v) && WellFormedMembers(rest)
    ensures Scan(Outside, open + Quote(k) + ":" + Print(v) + PrintMembers(rest)) == Outside
    decreases Member(k, v, rest), open
  {
    ScanPlain(open);
    ScanQuote(k);
    ScanPlain(":");
    ScanPrint(v);
    ScanMembers(rest);
    ScanBoth(open, Quote(k));
    ScanBoth(open + Quote(k), ":");
    ScanBoth(open + Quote(k) + ":", Print(v));
    ScanBoth(open + Quote(k) + ":" + Print(v), PrintMembers(rest));
  }

  /** Read once from outside and once from inside a string, a text cannot end outside
      both times: every quote changes both places, and what is allowed in the one
      place only, the other rules out. */
  lemma {:induction false} OppositePlaces(a: Place, b: Place, s: string)
    requires (a == Outside && b == Inside) || (a == Inside && b == Outside)
    ensures !(Scan(a, s) == Outside && Scan(b, s) == Outside)
    decreases |s|
  {
    if s != "" {
      if s[0] == '\\' || s[0] == '|' {
        WrongStays(s[1..]);
      } else {
        OppositePlaces(Step(a, s[0]), Step(b, s[0]), s[1..]);
      }
    }
  }

  /** No printed JSON is a bar inside another followed by the rest of it. */
  lemma NotBehindABar(m: string, y: string, n: string)
    requires Scan(Outside, m) == Outside && Scan(Outside, n) == Outside
    requires y != "" && y[|y| - 1] == '|'
    ensures m != y + n
  {
    if m == y + n {
      var x := y[..|y| - 1];
      assert y == x + "|";
      ScanCut(Outside, y, n);
      ScanCut(Outside, x, "|");
      assert "|"[1..] == "";
      WrongStays(n);
      OppositePlaces(Outside, Inside, n);
    }
  }

  // ------------------------------------------------------------------
  // Taking the fields off one by one
  // ------------------------------------------------------------------

  /** What of the left text the right one has not used up yet: nothing, or something
      that ends in a bar. */
  predicate Ahead(y: string) { y == "" || y[|y| - 1] == '|' }

  lemma Peel(f: string, r: string, y: string, g: string, s: string) returns (z: string)
    requires '|' !in f && Ahead(y) && f + ("|" + r) == y + (g + ("|" + s))
    ensures r == z + s && Ahead(z)
    ensures z == "" ==> y == "" && g == f
  {
    var l := y + g;
    assert forall i :: 0 <= i < |y| ==> y[i] == l[i];
    assert l + ("|" + s) == y + (g + ("|" + s));
    FieldNotLonger(l, f, s, r);
    var text := f + ("|" + r);
    assert text == l + ("|" + s);
    assert text[..|f|] == f && text[..|l|] == l && text[|f|] == '|' && text[|l|] == '|';
    assert text[|f| + 1..] == r && text[|l| + 1..] == s;
    z := text[|f| + 1..|l| + 1];
    assert r == z + s;
    if |l| == |f| {
      assert l == f;
    } else {
      assert z[|z| - 1] == text[|l|];
    }
  }

  lemma PeelAll(e: Entry, f: Entry, p: string, q: string) returns (z: string)
    requires PipeFree(e) && HashInput(e, p) == HashInput(f, q)
    ensures MetadataAndLink(e, p) == z + MetadataAndLink(f, q) && Ahead(z)
    ensures z == "" ==> PipeFree(f)
  {
    var e5, f5 := MetadataAndLink(e, p), MetadataAndLink(f, q);
    var e4, f4 := OrEmpty(e.entityId) + ("|" + e5), OrEmpty(f.entityId) + ("|" + f5);
    var e3, f3 := OrEmpty(e.entityType) + ("|" + e4), OrEmpty(f.entityType) + ("|" + f4);
    var e2, f2 := e.action + ("|" + e3), f.action + ("|" + f3);
    var e1, f1 := OrEmpty(e.userId) + ("|" + e2), OrEmpty(f.userId) + ("|" + f2);
    assert f.tenantId + ("|" + f1) == "" + (f.tenantId + ("|" + f1));
    z := Peel(e.tenantId, e1, "", f.tenantId, f1);
    z := Peel(OrEmpty(e.userId), e2, z, OrEmpty(f.userId), f2);
    z := Peel(e.action, e3, z, f.action, f3);
    z := Peel(OrEmpty(e.entityType), e4, z, OrEmpty(f.entityType), f4);
    z := Peel(OrEmpty(e.entityId), e5, z, OrEmpty(f.entityId), f5);
  }

  lemma MetadataAhead(e: Entry, f: Entry, p: string, q: string, z: string)
    requires MetadataAndLink(e, p) == z + MetadataAndLink(f, q) && |p| == |q|
    ensures CanonicalJsonStringify(e.metadata) == z + CanonicalJsonStringify(f.metadata)
  {
    var m, n := CanonicalJsonStringify(e.metadata), CanonicalJsonStringify(f.metadata);
    var x, y := "|" + (ToIso(e.createdAt) + ("|" + p)), "|" + (ToIso(f.createdAt) + ("|" + q));
    assert z + (n + y) == (z + n) + y;
    SuffixSplit(m, z + n, x, y);
  }

  /** An entry whose text is that of one without bars in its fields has none either. */
  lemma OnlyPipeFree(e: Entry, f: Entry, p: string, q: string)
    requires PipeFree(e) && MetadataOk(e) && MetadataOk(f) && |p| == |q| && HashInput(e, p) == HashInput(f, q)
    ensures PipeFree(f)
  {
    var z := PeelAll(e, f, p, q);
    if z != "" {
      MetadataAhead(e, f, p, q, z);
      SortedKeeps(OrEmptyObject(e.metadata));
      SortedKeeps(OrEmptyObject(f.metadata));
      ScanPrint(Sorted(OrEmptyObject(e.metadata)));
      ScanPrint(Sorted(OrEmptyObject(f.metadata)));
      NotBehindABar(CanonicalJsonStringify(e.metadata), z, CanonicalJsonStringify(f.metadata));
      assert false;
    }
  }

  // ------------------------------------------------------------------
  // A bar can always be moved
  // ------------------------------------------------------------------

  lemma BarAt(s: string) returns (a: string, b: string)
    requires '|' in s
    ensures s == a + ("|" + b) && |a| < |s| && |b| < |s|
  {
    var k :| 0 <= k < |s| && s[k] == '|';
    a, b := s[..k], s[k + 1..];
  }

  lemma MoveBar(a: string, b: string, c: string, rest: string)
    ensures (a + ("|" + b)) + ("|" + (c + ("|" + rest))) == a + ("|" + ((b + ("|" + c)) + ("|" + rest)))
  {
    Assoc(a, "|" + b, "|" + (c + ("|" + rest)));
    Assoc("|", b, "|" + (c + ("|" + rest)));
    Assoc(b, "|" + c, "|" + rest);
    Assoc("|", c, "|" + rest);
  }

  /** Whichever field holds a bar, moving it to the neighbour gives a different entry
      with the same text. */
  lemma AnotherReading(e: Entry, p: string) returns (f: Entry)
    requires !PipeFree(e)
    ensures HashInput(f, p) == HashInput(e, p) && f.metadata == e.metadata && !SameContent(e, f)
  {
    var m := MetadataAndLink(e, p);
    var t5 := OrEmpty(e.entityId) + ("|" + m);
    var t4 := OrEmpty(e.entityType) + ("|" + t5);
    var t3 := e.action + ("|" + t4);
    if '|' in e.tenantId {
      var a, b := BarAt(e.tenantId);
      f := e.(tenantId := a, userId := Some(b + ("|" + OrEmpty(e.userId))));
      MoveBar(a, b, OrEmpty(e.userId), t3);
    } else if '|' in OrEmpty(e.userId) {
      var a, b := BarAt(OrEmpty(e.userId));
      f := e.(userId := Some(a), action := b + ("|" + e.action));
      MoveBar(a, b, e.action, t4);
    } else if '|' in e.action {
      var a, b := BarAt(e.action);
      f := e.(action := a, entityType := Some(b + ("|" + OrEmpty(e.entityType))));
      MoveBar(a, b, OrEmpty(e.entityType), t5);
    } else if '|' in OrEmpty(e.entityType) {
      var a, b := BarAt(OrEmpty(e.entityType));
      f := e.(entityType := Some(a), entityId := Some(b + ("|" + OrEmpty(e.entityId))));
      MoveBar(a, b, OrEmpty(e.entityId), m);
    } else {
      var a, b := BarAt(OrEmpty(e.entityId));
      f := e.(entityType := Some(OrEmpty(e.entityType) + ("|" + a)), entityId := Some(b));
      MoveBar(OrEmpty(e.entityType), a, b, m);
    }
  }

  // ------------------------------------------------------------------
  // Exactly the entries without bars
  // ------------------------------------------------------------------

  ghost predicate SameText(e: Entry, p: string, f: Entry, q: string) {
    MetadataOk(f) && |q| == 64 && HashInput(f, q) == HashInput(e, p)
  }

  /** Whatever has the same text has the same content and the same previous hash. */
  ghost predicate Determined(e: Entry, p: string) {
    forall f, q :: SameText(e, p, f, q) ==> SameContent(e, f) && p == q
  }

  /** The hashed text determines an entry exactly when none of its five id and action
      fields holds a bar. */
  lemma DeterminedExactlyWhen(e: Entry, p: string)
    requires MetadataOk(e) && |p| == 64
    ensures Determined(e, p) <==> PipeFree(e)
  {
    if PipeFree(e) {
      forall f, q | SameText(e, p, f, q) ensures SameContent(e, f) && p == q {
        OnlyPipeFree(e, f, p, q);
        InputDeterminesContent(e, f, p, q);
      }
    } else {
      var f := AnotherReading(e, p);
      assert SameText(e, p, f, p);
    }
  }
}
