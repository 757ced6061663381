/** One audit entry and the text its hash is computed from. */
module AuditEntry {
  import opened Wrappers
  import opened CanonicalJson

  // ----- timestamps, in UTC, years 0 to 9999 -----

  datatype Clock = Clock(year: nat, month: nat, day: nat, hour: nat, minute: nat, second: nat, ms: nat) {
    predicate Valid() {
      && year <= 9999 && 1 <= month <= 12 && 1 <= day <= 31
      && hour < 24 && minute < 60 && second < 60 && ms < 1000
    }

    /** The order of time. */
    predicate Before(t: Clock) {
      year < t.year || (year == t.year && (
      month < t.month || (month == t.month && (
      day < t.day || (day == t.day && (
      hour < t.hour || (hour == t.hour && (
      minute < t.minute || (minute == t.minute && (
      second < t.second || (second == t.second && ms < t.ms)))))))))))
    }
  }

  /** From the first instant of year 0 to the last of year 9999. */
  lemma FirstAndLast(t: Clock)
    ensures Clock(0, 1, 1, 0, 0, 0, 0).Valid() && Clock(9999, 12, 31, 23, 59, 59, 999).Valid()
    ensures t.Valid() ==> !t.Before(Clock(0, 1, 1, 0, 0, 0, 0)) && !Clock(9999, 12, 31, 23, 59, 59, 999).Before(t)
  {
  }

  /** Milliseconds on a scale on which every month is as long as the longest. */
  function Position(t: Clock): nat {
    ((((((t.year * 12 + t.month) * 31 + t.day) * 24 + t.hour) * 60 + t.minute) * 60 + t.second) * 1000) + t.ms
  }

  /** An instant comes before another exactly when its position does. */
  lemma BeforeIsEarlier(s: Instant, t: Instant)
    ensures s.Before(t) <==> Position(s) < Position(t)
    ensures s == t <==> Position(s) == Position(t)
  {
  }

  type Instant = t: Clock | t.Valid() witness Clock(1970, 1, 1, 0, 0, 0, 0)

  function Digit(n: nat): char
    requires n < 10
  {
    "0123456789"[n]
  }

  /** The last `width` decimal digits of n. */
  function Pad(n: nat, width: nat): (s: string)
    ensures |s| == width
  {
    if width == 0 then "" else Pad(n / 10, width - 1) + [Digit(n % 10)]
  }

  function Ten(width: nat): nat { if width == 0 then 1 else 10 * Ten(width - 1) }

  lemma {:induction false} PadInjective(a: nat, b: nat, width: nat)
    requires a < Ten(width) && b < Ten(width) && Pad(a, width) == Pad(b, width)
    ensures a == b
  {
    if width > 0 {
      var p, q := Pad(a / 10, width - 1), Pad(b / 10, width - 1);
      Tail(p, [Digit(a % 10)], q, [Digit(b % 10)]);
      assert Digit(a % 10) == Digit(b % 10) && a % 10 == b % 10;
      PadInjective(a / 10, b / 10, width - 1);
    }
  }

  /** toISOString: YYYY-MM-DDTHH:mm:ss.sssZ. */
  function ToIso(t: Instant): (s: string)
    ensures |s| == 24
  {
    Pad(t.year, 4) + "-" + Pad(t.month, 2) + "-" + Pad(t.day, 2)
    + "T" + Pad(t.hour, 2) + ":" + Pad(t.minute, 2) + ":" + Pad(t.second, 2) + "." + Pad(t.ms, 3) + "Z"
  }

  lemma Slices(t: Instant)
    ensures var s := ToIso(t);
            && s[0..4] == Pad(t.year, 4) && s[5..7] == Pad(t.month, 2) && s[8..10] == Pad(t.day, 2)
            && s[11..13] == Pad(t.hour, 2) && s[14..16] == Pad(t.minute, 2) && s[17..19] == Pad(t.second, 2)
            && s[20..23] == Pad(t.ms, 3)
  {
  }

  lemma IsoInjective(a: Instant, b: Instant)
    requires ToIso(a) == ToIso(b)
    ensures a == b
  {
    Slices(a);
    Slices(b);
    PadInjective(a.year, b.year, 4);
    PadInjective(a.month, b.month, 2);
    PadInjective(a.day, b.day, 2);
    PadInjective(a.hour, b.hour, 2);
    PadInjective(a.minute, b.minute, 2);
    PadInjective(a.second, b.second, 2);
    PadInjective(a.ms, b.ms, 3);
  }

  // ----- entries -----

  datatype Entry = Entry(
    tenantId: string,
    userId: Option<string>,
    action: string,
    entityType: Option<string>,
    entityId: Option<string>,
    metadata: Option<Json>,
    createdAt: Instant
  )

  const GENESIS: string := "0000000000000000000000000000000000000000000000000000000000000000"

  function OrEmpty(s: Option<string>): string {
    match s case None => "" case Some(t) => t
  }

  predicate PipeFree(e: Entry) {
    && '|' !in e.tenantId && '|' !in OrEmpty(e.userId) && '|' !in e.action
    && '|' !in OrEmpty(e.entityType) && '|' !in OrEmpty(e.entityId)
  }

  predicate MetadataOk(e: Entry) { WellFormed(OrEmptyObject(e.metadata)) }

  /** The eight fields joined by '|'. */
  function HashInput(e: Entry, prevHash: string): string {
    e.tenantId + ("|" + (OrEmpty(e.userId) + ("|" + (e.action + ("|" +
    (OrEmpty(e.entityType) + ("|" + (OrEmpty(e.entityId) + ("|" + MetadataAndLink(e, prevHash))))))))))
  }

  function MetadataAndLink(e: Entry, prevHash: string): string {
    CanonicalJsonStringify(e.metadata) + ("|" + (ToIso(e.createdAt) + ("|" + prevHash)))
  }

  /** Equal but for what the hash cannot see: an absent field and an empty one,
      the order of metadata members, members named `__proto__`. */
  ghost predicate SameContent(e: Entry, f: Entry) {
    && e.tenantId == f.tenantId && OrEmpty(e.userId) == OrEmpty(f.userId) && e.action == f.action
    && OrEmpty(e.entityType) == OrEmpty(f.entityType) && OrEmpty(e.entityId) == OrEmpty(f.entityId)
    && Meaning(OrEmptyObject(e.metadata)) == Meaning(OrEmptyObject(f.metadata))
    && e.createdAt == f.createdAt
  }

  lemma FieldNotLonger(a: string, b: string, x: string, y: string)
    requires a + ("|" + x) == b + ("|" + y) && '|' !in b
    ensures |a| >= |b|
  {
    if |a| < |b| {
      Overhang(a, b, "|" + x, "|" + y);
      assert false;
    }
  }

  lemma FieldSplit(a: string, b: string, x: string, y: string)
    requires a + ("|" + x) == b + ("|" + y) && '|' !in a && '|' !in b
    ensures a == b && x == y
  {
    FieldNotLonger(a, b, x, y);
    FieldNotLonger(b, a, y, x);
    Tail(a, "|" + x, b, "|" + y);
    Tail("|", x, "|", y);
  }

  /** Fixed-width endings can be cut off, whatever the text before them contains. */
  lemma SuffixSplit(a: string, b: string, x: string, y: string)
    requires a + x == b + y && |x| == |y|
    ensures a == b && x == y
  {
    assert |a + x| == |b + y| && |a| == |b|;
    Tail(a, x, b, y);
  }

  lemma LinkSplit(e: Entry, f: Entry, p: string, q: string)
    requires MetadataAndLink(e, p) == MetadataAndLink(f, q) && |p| == |q|
    ensures CanonicalJsonStringify(e.metadata) == CanonicalJsonStringify(f.metadata)
    ensures e.createdAt == f.createdAt && p == q
  {
    var x, y := ToIso(e.createdAt) + ("|" + p), ToIso(f.createdAt) + ("|" + q);
    SuffixSplit(CanonicalJsonStringify(e.metadata), CanonicalJsonStringify(f.metadata), "|" + x, "|" + y);
    Tail("|", x, "|", y);
    Tail(ToIso(e.createdAt), "|" + p, ToIso(f.createdAt), "|" + q);
    Tail("|", p, "|", q);
    IsoInjective(e.createdAt, f.createdAt);
  }

  lemma FieldsSplit(e: Entry, f: Entry, p: string, q: string)
    requires PipeFree(e) && PipeFree(f) && HashInput(e, p) == HashInput(f, q)
    ensures e.tenantId == f.tenantId && OrEmpty(e.userId) == OrEmpty(f.userId) && e.action == f.action
    ensures OrEmpty(e.entityType) == OrEmpty(f.entityType) && OrEmpty(e.entityId) == OrEmpty(f.entityId)
    ensures MetadataAndLink(e, p) == MetadataAndLink(f, q)
  {
    var e5, f5 := MetadataAndLink(e, p), MetadataAndLink(f, q);
    var e4, f4 := OrEmpty(e.entityId) + ("|" + e5), OrEmpty(f.entityId) + ("|" + f5);
    var e3, f3 := OrEmpty(e.entityType) + ("|" + e4), OrEmpty(f.entityType) + ("|" + f4);
    var e2, f2 := e.action + ("|" + e3), f.action + ("|" + f3);
    var e1, f1 := OrEmpty(e.userId) + ("|" + e2), OrEmpty(f.userId) + ("|" + f2);
    FieldSplit(e.tenantId, f.tenantId, e1, f1);
    FieldSplit(OrEmpty(e.userId), OrEmpty(f.userId), e2, f2);
    FieldSplit(e.action, f.action, e3, f3);
    FieldSplit(OrEmpty(e.entityType), OrEmpty(f.entityType), e4, f4);
    FieldSplit(OrEmpty(e.entityId), OrEmpty(f.entityId), e5, f5);
  }

  /** The hashed text determines the content and the previous hash, and is
      determined by them, as long as no '|' occurs in the five leading fields. The
      metadata may contain any number of them. */
  lemma InputDeterminesContent(e: Entry, f: Entry, p: string, q: string)
    requires PipeFree(e) && PipeFree(f) && MetadataOk(e) && MetadataOk(f) && |p| == |q| == 64
    ensures HashInput(e, p) == HashInput(f, q) <==> SameContent(e, f) && p == q
  {
    CanonicalText(e.metadata, f.metadata);
    if HashInput(e, p) == HashInput(f, q) {
      FieldsSplit(e, f, p, q);
      LinkSplit(e, f, p, q);
    }
  }

  /** Without that condition two different entries can give the same text: a '|'
      moves freely between the action and the entity type. */
  lemma PipeMovesBetweenFields(e: Entry, a: string, b: string, c: string, p: string)
    ensures var x := e.(action := a + ("|" + b), entityType := Some(c));
            var y := e.(action := a, entityType := Some(b + ("|" + c)));
            !SameContent(x, y) && HashInput(x, p) == HashInput(y, p)
  {
    var rest := OrEmpty(e.entityId) + ("|" + MetadataAndLink(e, p));
    Assoc(a, "|" + b, "|" + (c + ("|" + rest)));
    Assoc("|", b, "|" + (c + ("|" + rest)));
    Assoc(b, "|" + c, "|" + rest);
    Assoc("|", c, "|" + rest);
    assert |a + ("|" + b)| > |a|;
  }

  // ----- the text, field by field -----

  function Join(parts: seq<string>): string {
    if parts == [] then "" else if |parts| == 1 then parts[0] else parts[0] + ("|" + Join(parts[1..]))
  }

  /** The fields in their order, an absent one as the empty text. */
  lemma FieldsJoined(e: Entry, p: string)
    ensures HashInput(e, p) ==
            Join([e.tenantId, if e.userId.Some? then e.userId.value else "", e.action,
                  if e.entityType.Some? then e.entityType.value else "", if e.entityId.Some? then e.entityId.value else "",
                  CanonicalJsonStringify(e.metadata), ToIso(e.createdAt), p])
  {
    var m, d := CanonicalJsonStringify(e.metadata), ToIso(e.createdAt);
    var user, kind, id := OrEmpty(e.userId), OrEmpty(e.entityType), OrEmpty(e.entityId);
    JoinNext(p, []);
    JoinNext(d, [p]);
    JoinNext(m, [d, p]);
    JoinNext(id, [m, d, p]);
    JoinNext(kind, [id, m, d, p]);
    JoinNext(e.action, [kind, id, m, d, p]);
    JoinNext(user, [e.action, kind, id, m, d, p]);
    JoinNext(e.tenantId, [user, e.action, kind, id, m, d, p]);
  }

  lemma JoinNext(part: string, rest: seq<string>)
    ensures Join([part] + rest) == if rest == [] then part else part + ("|" + Join(rest))
  {
    assert ([part] + rest)[1..] == rest;
  }

  lemma DigitIs(d: nat)
    requires d < 10
    ensures Digit(d) as int == '0' as int + d
  {
  }

  lemma {:induction false} PadReads(n: nat, width: nat)
    requires n < Ten(width)
    ensures ReadDecimal(Pad(n, width)) == n
  {
    if width > 0 {
      PadReads(n / 10, width - 1);
      ReadNext(Pad(n / 10, width - 1), Digit(n % 10));
      DigitIs(n % 10);
    }
  }

  lemma Separators(t: Instant)
    ensures var s := ToIso(t); s[4] == s[7] == '-' && s[10] == 'T' && s[13] == s[16] == ':' && s[19] == '.' && s[23] == 'Z'
  {
  }

  /** Each component is read back, in decimal, from its place in the date text. */
  lemma IsoReads(t: Instant)
    ensures var s := ToIso(t);
            && ReadDecimal(s[0..4]) == t.year && ReadDecimal(s[5..7]) == t.month && ReadDecimal(s[8..10]) == t.day
            && ReadDecimal(s[11..13]) == t.hour && ReadDecimal(s[14..16]) == t.minute && ReadDecimal(s[17..19]) == t.second
            && ReadDecimal(s[20..23]) == t.ms
            && s[4] == s[7] == '-' && s[10] == 'T' && s[13] == s[16] == ':' && s[19] == '.' && s[23] == 'Z'
  {
    Slices(t);
    Separators(t);
    assert Ten(2) == 100 && Ten(3) == 1000 && Ten(4) == 10000;
    PadReads(t.year, 4);
    PadReads(t.month, 2);
    PadReads(t.day, 2);
    PadReads(t.hour, 2);
    PadReads(t.minute, 2);
    PadReads(t.second, 2);
    PadReads(t.ms, 3);
  }
}
