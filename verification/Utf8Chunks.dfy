/** The chunks a child process delivers are bytes, and each is turned into text on its
    own. This is the UTF-8 decoder that never fails: a byte sequence that is no
    character becomes U+FFFD. Text is a sequence of code points. */
module Utf8Chunks {
  import opened LineSplitter

  type Byte = b: int | 0 <= b < 256

  const REPLACEMENT := '\U{FFFD}'

  function Encode(c: char): (b: seq<Byte>)
    ensures |b| > 0
  {
    var n := c as int;
    if n < 0x80 then [n]
    else if n < 0x800 then [0xC0 + n / 64, 0x80 + n % 64]
    else if n < 0x10000 then [0xE0 + n / 4096, 0x80 + n / 64 % 64, 0x80 + n % 64]
    else [0xF0 + n / 262144, 0x80 + n / 4096 % 64, 0x80 + n / 64 % 64, 0x80 + n % 64]
  }

  function Flat(encode: char -> seq<Byte>, s: string): seq<Byte> { if s == "" then [] else encode(s[0]) + Flat(encode, s[1..]) }

  function EncodeAll(s: string): seq<Byte> { Flat(Encode, s) }

  predicate IsContinuation(b: Byte) { 0x80 <= b <= 0xBF }

  /** How many bytes follow a lead byte; none for a byte that leads nothing. */
  function Needed(lead: Byte): nat {
    if 0xC2 <= lead <= 0xDF then 1 else if 0xE0 <= lead <= 0xEF then 2 else if 0xF0 <= lead <= 0xF4 then 3 else 0
  }

  /** May this byte come second? Overlong forms, surrogates and values past U+10FFFF
      are ruled out here. */
  predicate Second(lead: Byte, b: Byte) {
    && IsContinuation(b)
    && (lead == 0xE0 ==> b >= 0xA0) && (lead == 0xED ==> b <= 0x9F)
    && (lead == 0xF0 ==> b >= 0x90) && (lead == 0xF4 ==> b <= 0x8F)
  }

  /** How many of the bytes that follow the lead belong to it. */
  function Follow(b: seq<Byte>): (k: nat)
    requires b != []
    ensures k <= Needed(b[0]) && k < |b|
    ensures forall i :: 1 <= i <= k ==> IsContinuation(b[i])
  {
    if Needed(b[0]) < 1 || |b| < 2 || !Second(b[0], b[1]) then 0
    else if Needed(b[0]) < 2 || |b| < 3 || !IsContinuation(b[2]) then 1
    else if Needed(b[0]) < 3 || |b| < 4 || !IsContinuation(b[3]) then 2
    else 3
  }

  function Assemble(b: seq<Byte>): (n: int)
    requires b != [] && (b[0] < 0x80 || (Needed(b[0]) > 0 && Follow(b) == Needed(b[0])))
    ensures 0 <= n < 0xD800 || 0xE000 <= n < 0x110000
  {
    if b[0] < 0x80 then b[0]
    else if b[0] <= 0xDF then (b[0] as int - 0xC0) * 64 + (b[1] as int - 0x80)
    else if b[0] <= 0xEF then (b[0] as int - 0xE0) * 4096 + (b[1] as int - 0x80) * 64 + (b[2] as int - 0x80)
    else (b[0] as int - 0xF0) * 262144 + (b[1] as int - 0x80) * 4096 + (b[2] as int - 0x80) * 64 + (b[3] as int - 0x80)
  }

  /** The first character and the number of bytes it takes. */
  function First(b: seq<Byte>): (r: (char, nat))
    requires b != []
    ensures 1 <= r.1 <= |b| && forall i :: 1 <= i < r.1 ==> IsContinuation(b[i])
  {
    if b[0] < 0x80 then (Assemble(b) as char, 1)
    else if Needed(b[0]) > 0 && Follow(b) == Needed(b[0]) then (Assemble(b) as char, 1 + Follow(b))
    else (REPLACEMENT, 1 + Follow(b))
  }

  function Decode(b: seq<Byte>): string
    decreases |b|
  {
    if b == [] then "" else [First(b).0] + Decode(b[First(b).1..])
  }

  // ------------------------------------------------------------------
  // Whole characters decode
  // ------------------------------------------------------------------

  lemma FirstOfEncode(c: char, rest: seq<Byte>)
    ensures First(Encode(c) + rest) == (c, |Encode(c)|)
  {
    var n := c as int;
    if n < 0x80 {
    } else if n < 0x800 {
      FirstOfTwo(c, rest);
    } else if n < 0x10000 {
      FirstOfThree(c, rest);
    } else {
      FirstOfFour(c, rest);
    }
  }

  lemma Base64(a: int, r: int)
    requires 0 <= r < 64
    ensures (a * 64 + r) / 64 == a && (a * 64 + r) % 64 == r
  {
  }

  /** A first character that is read is the one whose encoding the bytes begin with. */
  lemma FirstIsEncoded(b: seq<Byte>)
    requires b != [] && (b[0] < 0x80 || (Needed(b[0]) > 0 && Follow(b) == Needed(b[0])))
    ensures |Encode(First(b).0)| == First(b).1 && Encode(First(b).0) == b[..First(b).1]
  {
    var n := Assemble(b);
    if b[0] < 0x80 {
      assert b[..1] == [b[0]];
    } else if b[0] <= 0xDF {
      Base64(b[0] as int - 0xC0, b[1] as int - 0x80);
      assert b[..2] == [b[0], b[1]];
    } else if b[0] <= 0xEF {
      var high := (b[0] as int - 0xE0) * 64 + (b[1] as int - 0x80);
      assert n == high * 64 + (b[2] as int - 0x80);
      Base64(high, b[2] as int - 0x80);
      Base64(b[0] as int - 0xE0, b[1] as int - 0x80);
      assert b[..3] == [b[0], b[1], b[2]];
    } else {
      FirstOfFourBytes(b);
    }
  }

  lemma FirstOfFourBytes(b: seq<Byte>)
    requires b != [] && b[0] > 0xEF && Needed(b[0]) == 3 && Follow(b) == 3
    ensures |Encode(First(b).0)| == First(b).1 && Encode(First(b).0) == b[..First(b).1]
  {
    var n := Assemble(b);
    var top := (b[0] as int - 0xF0) * 64 + (b[1] as int - 0x80);
    var high := top * 64 + (b[2] as int - 0x80);
    assert n == high * 64 + (b[3] as int - 0x80);
    Base64(high, b[3] as int - 0x80);
    Base64(top, b[2] as int - 0x80);
    Base64(b[0] as int - 0xF0, b[1] as int - 0x80);
    assert b[..4] == [b[0], b[1], b[2], b[3]];
  }

  /** Bytes give a character other than the replacement exactly if they begin with its
      encoding; overlong forms and surrogates do not. */
  lemma OnlyEncodingsDecode(b: seq<Byte>, c: char)
    requires b != [] && c != REPLACEMENT
    ensures First(b).0 == c <==> Encode(c) <= b
  {
    if First(b).0 == c { FirstIsEncoded(b); }
    if Encode(c) <= b {
      FirstOfEncode(c, b[|Encode(c)|..]);
      assert Encode(c) + b[|Encode(c)|..] == b;
    }
  }

  lemma FirstOfTwo(c: char, rest: seq<Byte>)
    requires 0x80 <= c as int < 0x800
    ensures First(Encode(c) + rest) == (c, 2)
  {
    var n, b := c as int, Encode(c) + rest;
    assert b[0] == 0xC0 + n / 64 && b[1] == 0x80 + n % 64;
    assert n == n / 64 * 64 + n % 64;
    assert Follow(b) == 1;
  }

  lemma FirstOfThree(c: char, rest: seq<Byte>)
    requires 0x800 <= c as int < 0x10000
    ensures First(Encode(c) + rest) == (c, 3)
  {
    var n, b := c as int, Encode(c) + rest;
    assert b[0] == 0xE0 + n / 4096 && b[1] == 0x80 + n / 64 % 64 && b[2] == 0x80 + n % 64;
    assert n == n / 4096 * 4096 + n / 64 % 64 * 64 + n % 64;
    assert Follow(b) == 2;
  }

  lemma FirstOfFour(c: char, rest: seq<Byte>)
    requires 0x10000 <= c as int
    ensures First(Encode(c) + rest) == (c, 4)
  {
    var n, b := c as int, Encode(c) + rest;
    FourDigits(n, n / 262144, n / 4096 % 64, n / 64 % 64, n % 64);
    FourBytes(c, b, n / 262144, n / 4096 % 64, n / 64 % 64, n % 64);
  }

  /** A code point above the basic plane in base 64. */
  lemma FourDigits(n: int, x: int, y: int, z: int, u: int)
    requires 0x10000 <= n < 0x110000 && x == n / 262144 && y == n / 4096 % 64 && z == n / 64 % 64 && u == n % 64
    ensures n == x * 262144 + y * 4096 + z * 64 + u
    ensures 0 <= x <= 4 && (x == 0 ==> y >= 16) && (x == 4 ==> y <= 15)
  {
    assert n / 64 == n / 4096 * 64 + z && n / 4096 == n / 262144 * 64 + y;
  }

  lemma FourBytes(c: char, b: seq<Byte>, x: int, y: int, z: int, u: int)
    requires |b| >= 4 && 0 <= x <= 4 && 0 <= y < 64 && 0 <= z < 64 && 0 <= u < 64 && (x == 0 ==> y >= 16) && (x == 4 ==> y <= 15)
    requires b[0] == 0xF0 + x && b[1] == 0x80 + y && b[2] == 0x80 + z && b[3] == 0x80 + u
    requires c as int == x * 262144 + y * 4096 + z * 64 + u
    ensures First(b) == (c, 4)
  {
    assert Follow(b) == 3;
  }

  lemma DecodeOne(c: char, tail: seq<Byte>)
    ensures Decode(Encode(c) + tail) == [c] + Decode(tail)
  {
    FirstOfEncode(c, tail);
    assert (Encode(c) + tail)[|Encode(c)|..] == tail;
  }

  /** A decoder that takes encoded characters off the front takes off whole texts. */
  lemma {:induction false} TakesText(decode: seq<Byte> -> string, encode: char -> seq<Byte>, s: string, rest: seq<Byte>)
    requires forall c: char, tail: seq<Byte> :: decode(encode(c) + tail) == [c] + decode(tail)
    ensures decode(Flat(encode, s) + rest) == s + decode(rest)
  {
    if s == "" {
      assert Flat(encode, s) + rest == rest;
    } else {
      var tail := Flat(encode, s[1..]) + rest;
      assert Flat(encode, s) + rest == encode(s[0]) + tail;
      TakesText(decode, encode, s[1..], rest);
      assert s + decode(rest) == [s[0]] + (s[1..] + decode(rest));
    }
  }

  lemma DecodeOfEncode(s: string, rest: seq<Byte>)
    ensures Decode(EncodeAll(s) + rest) == s + Decode(rest)
  {
    forall c: char, tail: seq<Byte> ensures Decode(Encode(c) + tail) == [c] + Decode(tail) { DecodeOne(c, tail); }
    TakesText(Decode, Encode, s, rest);
  }

  // ------------------------------------------------------------------
  // Chunks
  // ------------------------------------------------------------------

  function Concat(chunks: seq<seq<Byte>>): seq<Byte> { if chunks == [] then [] else chunks[0] + Concat(chunks[1..]) }

  function DecodeEach(chunks: seq<seq<Byte>>): string { if chunks == [] then "" else Decode(chunks[0]) + DecodeEach(chunks[1..]) }

  /** Bytes that start a character. */
  function Leads(b: seq<Byte>): nat { if b == [] then 0 else (if IsContinuation(b[0]) then 0 else 1) + Leads(b[1..]) }

  lemma {:induction false} LeadsCut(a: seq<Byte>, b: seq<Byte>)
    ensures Leads(a + b) == Leads(a) + Leads(b)
  {
    if a == [] {
      assert a + b == b;
    } else {
      assert (a + b)[1..] == a[1..] + b;
      LeadsCut(a[1..], b);
    }
  }

  lemma {:induction false} NoLeads(b: seq<Byte>)
    requires forall i :: 0 <= i < |b| ==> IsContinuation(b[i])
    ensures Leads(b) == 0
  {
    if b != [] { NoLeads(b[1..]); }
  }

  lemma ContinuationsOfEncode(c: char)
    ensures !IsContinuation(Encode(c)[0]) && forall i :: 1 <= i < |Encode(c)| ==> IsContinuation(Encode(c)[i])
  {
  }

  lemma {:induction false} LeadsOfText(s: string)
    ensures Leads(EncodeAll(s)) == |s|
  {
    if s != "" {
      ContinuationsOfEncode(s[0]);
      NoLeads(Encode(s[0])[1..]);
      LeadsCut(Encode(s[0]), EncodeAll(s[1..]));
      LeadsOfText(s[1..]);
    }
  }

  predicate StartsInside(b: seq<Byte>) { b != [] && IsContinuation(b[0]) }

  /** One character comes from a byte and the continuation bytes that belong to it. */
  lemma DecodeStep(b: seq<Byte>) returns (k: nat)
    requires b != []
    ensures 1 <= k <= |b| && (forall i :: 1 <= i < k ==> IsContinuation(b[i]))
    ensures |Decode(b)| == 1 + |Decode(b[k..])|
  {
    k := First(b).1;
  }

  lemma LeadsOfBlock(b: seq<Byte>, k: nat)
    requires 1 <= k <= |b| && forall i :: 1 <= i < k ==> IsContinuation(b[i])
    ensures Leads(b) == (if IsContinuation(b[0]) then 0 else 1) + Leads(b[k..])
  {
    LeadsCut(b[..k], b[k..]);
    assert b == b[..k] + b[k..];
    NoLeads(b[..k][1..]);
  }

  /** Every lead byte yields a character, and so does a stray continuation byte. */
  lemma {:induction false} DecodeLength(b: seq<Byte>)
    ensures |Decode(b)| >= Leads(b) + if StartsInside(b) then 1 else 0
    decreases |b|
  {
    if b != [] {
      var k := DecodeStep(b);
      DecodeLength(b[k..]);
      LeadsOfBlock(b, k);
    }
  }

  predicate SomeStartsInside(chunks: seq<seq<Byte>>) { exists k :: 0 <= k < |chunks| && StartsInside(chunks[k]) }

  lemma {:induction false} DecodeEachLength(chunks: seq<seq<Byte>>)
    ensures |DecodeEach(chunks)| >= Leads(Concat(chunks)) + if SomeStartsInside(chunks) then 1 else 0
  {
    if chunks != [] {
      DecodeLength(chunks[0]);
      LeadsCut(chunks[0], Concat(chunks[1..]));
      DecodeEachLength(chunks[1..]);
      if SomeStartsInside(chunks) && !StartsInside(chunks[0]) {
        var k :| 0 <= k < |chunks| && StartsInside(chunks[k]);
        assert chunks[1..][k - 1] == chunks[k];
      }
    }
  }

  /** A cut before a byte that starts a character falls between characters. */
  lemma {:induction false} CutBetween(s: string, p: nat) returns (i: nat)
    requires p <= |EncodeAll(s)| && !StartsInside(EncodeAll(s)[p..])
    ensures i <= |s| && EncodeAll(s)[..p] == EncodeAll(s[..i]) && EncodeAll(s)[p..] == EncodeAll(s[i..])
  {
    if p == 0 {
      i := 0;
      assert s[0..] == s;
    } else {
      var e, rest := Encode(s[0]), EncodeAll(s[1..]);
      ContinuationsOfEncode(s[0]);
      assert EncodeAll(s) == e + rest && p >= |e|;
      assert EncodeAll(s)[p..] == rest[p - |e|..];
      var j := CutBetween(s[1..], p - |e|);
      i := j + 1;
      assert s[..i][0] == s[0] && s[..i][1..] == s[1..][..j] && s[i..] == s[1..][j..];
      assert EncodeAll(s)[..p] == e + rest[..p - |e|];
    }
  }

  lemma {:induction false} FirstByteOfRest(chunks: seq<seq<Byte>>)
    requires !SomeStartsInside(chunks)
    ensures !StartsInside(Concat(chunks))
  {
    if chunks != [] {
      assert !StartsInside(chunks[0]);
      forall k | 0 <= k < |chunks[1..]| ensures !StartsInside(chunks[1..][k]) { assert chunks[1..][k] == chunks[k + 1]; }
      FirstByteOfRest(chunks[1..]);
    }
  }

  lemma {:induction false} WholeChunksDecode(chunks: seq<seq<Byte>>, s: string)
    requires Concat(chunks) == EncodeAll(s) && !SomeStartsInside(chunks)
    ensures DecodeEach(chunks) == s
  {
    if chunks == [] {
      LeadsOfText(s);
    } else {
      forall k | 0 <= k < |chunks[1..]| ensures !StartsInside(chunks[1..][k]) { assert chunks[1..][k] == chunks[k + 1]; }
      FirstByteOfRest(chunks[1..]);
      var p := |chunks[0]|;
      assert Concat(chunks)[p..] == Concat(chunks[1..]) && Concat(chunks)[..p] == chunks[0];
      var i := CutBetween(s, p);
      WholeChunksDecode(chunks[1..], s[i..]);
      DecodeOfEncode(s[..i], []);
      assert EncodeAll(s[..i]) + [] == chunks[0] && s[..i] + "" == s[..i] && s == s[..i] + s[i..];
    }
  }

  /** Decoding chunk by chunk gives the text that was written exactly when no chunk
      starts inside a character. */
  lemma DecodedExactlyWhen(chunks: seq<seq<Byte>>, s: string)
    requires Concat(chunks) == EncodeAll(s)
    ensures DecodeEach(chunks) == s <==> !SomeStartsInside(chunks)
  {
    if SomeStartsInside(chunks) {
      DecodeEachLength(chunks);
      LeadsOfText(s);
    } else {
      WholeChunksDecode(chunks, s);
    }
  }

  /** A check mark cut after its first byte is lost. */
  lemma CutCheckMark()
    ensures Concat([[0xE2], [0x9C, 0x93]]) == EncodeAll("\U{2713}")
    ensures DecodeEach([[0xE2], [0x9C, 0x93]]) != "\U{2713}"
  {
    var chunks: seq<seq<Byte>> := [[0xE2], [0x9C, 0x93]];
    assert chunks[1..] == [[0x9C, 0x93]] && chunks[1..][1..] == [];
    assert Concat(chunks) == [0xE2] + ([0x9C, 0x93] + []);
    assert EncodeAll("\U{2713}") == Encode('\U{2713}') + EncodeAll("");
    assert StartsInside(chunks[1]);
    DecodedExactlyWhen(chunks, "\U{2713}");
  }

  function Arrivals(chunks: seq<seq<Byte>>): seq<Event> {
    if chunks == [] then [] else Arrivals(chunks[..|chunks| - 1]) + [Stdout(Decode(chunks[|chunks| - 1]))]
  }

  lemma {:induction false} DecodeEachNext(chunks: seq<seq<Byte>>, last: seq<Byte>)
    ensures DecodeEach(chunks + [last]) == DecodeEach(chunks) + Decode(last)
  {
    if chunks != [] {
      DecodeEachNext(chunks[1..], last);
      assert (chunks + [last])[1..] == chunks[1..] + [last];
    }
  }

  lemma {:induction false} ArrivalsText(chunks: seq<seq<Byte>>)
    ensures OutText(Arrivals(chunks)) == DecodeEach(chunks) && ErrText(Arrivals(chunks)) == ""
  {
    if chunks != [] {
      var n := |chunks| - 1;
      ArrivalsText(chunks[..n]);
      DecodeEachNext(chunks[..n], chunks[n]);
      assert chunks == chunks[..n] + [chunks[n]];
      assert Arrivals(chunks)[..|Arrivals(chunks)| - 1] == Arrivals(chunks[..n]);
    }
  }

  /** From bytes to total and log: for every way of cutting the encoded output of a
      silent error stream between characters, they are those of the lines of the text. */
  lemma OutcomeOfBytes(significant: string -> bool, chunks: seq<seq<Byte>>, s: string)
    requires Concat(chunks) == EncodeAll(s) && !SomeStartsInside(chunks)
    ensures Outcome(significant, Arrivals(chunks)) == HandleAll(significant, EMPTY, OutLines(s))
  {
    WholeChunksDecode(chunks, s);
    ArrivalsText(chunks);
    NoNewline("");
    assert ErrLines("") == [];
    OutcomeOfOutput(significant, Arrivals(chunks));
  }
}
