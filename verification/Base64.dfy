/** Query filters travel as base64 text.  The parser trims quotes and tries four decoders in
    turn: standard, URL-safe, raw URL-safe and raw standard (sections 3.2, 4 and 5 of RFC 4648). */
module Base64 {
  import opened Wrappers
  import opened Sequences

  type Byte = b: int | 0 <= b < 256
  type Digit = d: int | 0 <= d < 64

  /** An alphabet (standard or URL-safe) with or without padding. */
  datatype Encoding = Encoding(url: bool, padded: bool)

  const STD := Encoding(false, true)
  const URL := Encoding(true, true)
  const RAW_URL := Encoding(true, false)
  const RAW_STD := Encoding(false, false)

  const PAD := '='

  // ---------- one digit ----------

  function Char(e: Encoding, d: Digit): char {
    if d < 26 then ('A' as int + d) as char
    else if d < 52 then ('a' as int + d - 26) as char
    else if d < 62 then ('0' as int + d - 52) as char
    else if d == 62 then (if e.url then '-' else '+')
    else (if e.url then '_' else '/')
  }

  function Value(e: Encoding, c: char): Option<Digit> {
    if 'A' <= c <= 'Z' then Some(c as int - 'A' as int)
    else if 'a' <= c <= 'z' then Some(c as int - 'a' as int + 26)
    else if '0' <= c <= '9' then Some(c as int - '0' as int + 52)
    else if c == (if e.url then '-' else '+') then Some(62)
    else if c == (if e.url then '_' else '/') then Some(63)
    else None
  }

  // ---------- encoding ----------

  function Padding(e: Encoding, n: nat): string {
    if e.padded then seq(n, i => PAD) else ""
  }

  function Encode(e: Encoding, b: seq<Byte>): string {
    if b == [] then ""
    else if |b| == 1 then
      [Char(e, b[0] / 4), Char(e, b[0] % 4 * 16)] + Padding(e, 2)
    else if |b| == 2 then
      [Char(e, b[0] / 4), Char(e, b[0] % 4 * 16 + b[1] / 16), Char(e, b[1] % 16 * 4)] + Padding(e, 1)
    else
      [Char(e, b[0] / 4), Char(e, b[0] % 4 * 16 + b[1] / 16), Char(e, b[1] % 16 * 4 + b[2] / 64), Char(e, b[2] % 64)]
      + Encode(e, b[3..])
  }

  // ---------- decoding ----------

  /** The decoders ignore line breaks anywhere. */
  function Strip(s: string): string {
    if s == "" then ""
    else if s[0] == '\n' || s[0] == '\r' then Strip(s[1..])
    else [s[0]] + Strip(s[1..])
  }

  function Byte0(d0: Digit, d1: Digit): Byte { d0 * 4 + d1 / 16 }
  function Byte1(d1: Digit, d2: Digit): Byte { d1 % 16 * 16 + d2 / 4 }
  function Byte2(d2: Digit, d3: Digit): Byte { d2 % 4 * 64 + d3 }

  /** Decodes text without line breaks, four characters at a time.  A short last group is legal
      only without padding, padding only at the very end; unused low bits are ignored. */
  function DecodeGroups(e: Encoding, s: string): Option<seq<Byte>> {
    if s == "" then Some([])
    else if |s| == 1 then None
    else
      match (Value(e, s[0]), Value(e, s[1]))
      case (Some(d0), Some(d1)) =>
        if |s| == 2 then
          (if e.padded then None else Some([Byte0(d0, d1)]))
        else
          (match Value(e, s[2])
           case None =>
             if e.padded && s[2] == PAD && |s| == 4 && s[3] == PAD then Some([Byte0(d0, d1)]) else None
           case Some(d2) =>
             if |s| == 3 then
               (if e.padded then None else Some([Byte0(d0, d1), Byte1(d1, d2)]))
             else
               (match Value(e, s[3])
                case None =>
                  if e.padded && s[3] == PAD && |s| == 4 then Some([Byte0(d0, d1), Byte1(d1, d2)]) else None
                case Some(d3) =>
                  (match DecodeGroups(e, s[4..])
                   case None => None
                   case Some(rest) => Some([Byte0(d0, d1), Byte1(d1, d2), Byte2(d2, d3)] + rest))))
      case _ => None
  }

  function Decode(e: Encoding, s: string): Option<seq<Byte>> {
    DecodeGroups(e, Strip(s))
  }

  /** The four decoders in the order the parser tries them. */
  function DecodeBase64(s: string): Option<seq<Byte>> {
    if Decode(STD, s).Some? then Decode(STD, s)
    else if Decode(URL, s).Some? then Decode(URL, s)
    else if Decode(RAW_URL, s).Some? then Decode(RAW_URL, s)
    else Decode(RAW_STD, s)
  }

  function TrimLeft(s: string): string {
    if s != "" && s[0] == '"' then TrimLeft(s[1..]) else s
  }

  function TrimRight(s: string): string {
    if s != "" && s[|s| - 1] == '"' then TrimRight(s[..|s| - 1]) else s
  }

  function TrimQuotes(s: string): string { TrimRight(TrimLeft(s)) }

  // ---------- each encoding inverts itself ----------

  lemma ValueOfChar(e: Encoding, d: Digit)
    ensures Value(e, Char(e, d)) == Some(d)
    ensures Char(e, d) !in ['\n', '\r', '"', PAD]
  {
  }

  predicate Printable(s: string) {
    forall i :: 0 <= i < |s| ==> s[i] !in ['\n', '\r', '"']
  }

  lemma {:induction false} EncodePrintable(e: Encoding, b: seq<Byte>)
    ensures Printable(Encode(e, b))
  {
    forall d: Digit
      ensures Char(e, d) !in ['\n', '\r', '"']
    {
      ValueOfChar(e, d);
    }
    hide Char;
    if |b| >= 3 {
      EncodePrintable(e, b[3..]);
    }
  }

  lemma {:induction false} StripPrintable(s: string)
    requires Printable(s)
    ensures Strip(s) == s
  {
    if s != "" {
      StripPrintable(s[1..]);
    }
  }

  lemma BytesOfDigits(x: Byte, y: Byte, z: Byte)
    ensures Byte0(x / 4, x % 4 * 16 + y / 16) == x
    ensures Byte0(x / 4, x % 4 * 16) == x
    ensures Byte1(x % 4 * 16 + y / 16, y % 16 * 4 + z / 64) == y
    ensures Byte1(x % 4 * 16 + y / 16, y % 16 * 4) == y
    ensures Byte2(y % 16 * 4 + z / 64, z % 64) == z
  {
  }

  /** A full group decodes to its three bytes and the rest. */
  lemma GroupStep(e: Encoding, d0: Digit, d1: Digit, d2: Digit, d3: Digit, rest: string)
    requires DecodeGroups(e, rest).Some?
    ensures DecodeGroups(e, [Char(e, d0), Char(e, d1), Char(e, d2), Char(e, d3)] + rest)
            == Some([Byte0(d0, d1), Byte1(d1, d2), Byte2(d2, d3)] + DecodeGroups(e, rest).value)
  {
    var s := [Char(e, d0), Char(e, d1), Char(e, d2), Char(e, d3)] + rest;
    assert s[4..] == rest;
    ValueOfChar(e, d0);
    ValueOfChar(e, d1);
    ValueOfChar(e, d2);
    ValueOfChar(e, d3);
    hide Char, Value, Byte0, Byte1, Byte2;
  }

  /** A last group of two or three digits decodes to one or two bytes. */
  lemma LastGroup(e: Encoding, d0: Digit, d1: Digit, d2: Digit)
    ensures DecodeGroups(e, [Char(e, d0), Char(e, d1)] + Padding(e, 2)) == Some([Byte0(d0, d1)])
    ensures DecodeGroups(e, [Char(e, d0), Char(e, d1), Char(e, d2)] + Padding(e, 1)) == Some([Byte0(d0, d1), Byte1(d1, d2)])
  {
    ValueOfChar(e, d0);
    ValueOfChar(e, d1);
    ValueOfChar(e, d2);
    assert Value(e, PAD) == None;
    hide Char, Value, Byte0, Byte1;
  }

  lemma OneByte(e: Encoding, b: seq<Byte>)
    requires |b| == 1
    ensures DecodeGroups(e, Encode(e, b)) == Some(b)
  {
    hide DecodeGroups, Char, Byte0, Byte1, Padding;
    BytesOfDigits(b[0], 0, 0);
    LastGroup(e, b[0] / 4, b[0] % 4 * 16, 0);
    assert b == [b[0]];
  }

  lemma TwoBytes(e: Encoding, b: seq<Byte>)
    requires |b| == 2
    ensures DecodeGroups(e, Encode(e, b)) == Some(b)
  {
    hide DecodeGroups, Char, Byte0, Byte1, Padding;
    BytesOfDigits(b[0], b[1], 0);
    LastGroup(e, b[0] / 4, b[0] % 4 * 16 + b[1] / 16, b[1] % 16 * 4);
    assert b == [b[0], b[1]];
  }

  lemma ThreeBytes(e: Encoding, b: seq<Byte>)
    requires |b| >= 3 && DecodeGroups(e, Encode(e, b[3..])) == Some(b[3..])
    ensures DecodeGroups(e, Encode(e, b)) == Some(b)
  {
    hide DecodeGroups, Char, Byte0, Byte1, Byte2, Padding;
    BytesOfDigits(b[0], b[1], b[2]);
    GroupStep(e, b[0] / 4, b[0] % 4 * 16 + b[1] / 16, b[1] % 16 * 4 + b[2] / 64, b[2] % 64, Encode(e, b[3..]));
    assert b == [b[0], b[1], b[2]] + b[3..];
  }

  lemma {:induction false} DecodeGroupsEncode(e: Encoding, b: seq<Byte>)
    ensures DecodeGroups(e, Encode(e, b)) == Some(b)
  {
    hide Encode;
    if b == [] {
      assert DecodeGroups(e, Encode(e, b)) == Some([]) by { NoBytes(e); }
    } else if |b| == 1 {
      OneByte(e, b);
    } else if |b| == 2 {
      TwoBytes(e, b);
    } else {
      DecodeGroupsEncode(e, b[3..]);
      ThreeBytes(e, b);
    }
  }

  lemma NoBytes(e: Encoding)
    ensures DecodeGroups(e, Encode(e, [])) == Some([])
  {
  }

  lemma DecodeEncode(e: Encoding, b: seq<Byte>)
    ensures Decode(e, Encode(e, b)) == Some(b)
  {
    EncodePrintable(e, b);
    StripPrintable(Encode(e, b));
    DecodeGroupsEncode(e, b);
  }

  // ---------- what a text means ----------

  const UPPER := "ABCDEFGHIJKLMNOPQRSTUVWXYZ"
  const LOWER := "abcdefghijklmnopqrstuvwxyz"
  const NUMERALS := "0123456789"

  /** The alphabets of sections 4 and 5 of RFC 4648. */
  function Alphabet(e: Encoding): (a: string)
    ensures |a| == 64
  {
    UPPER + LOWER + NUMERALS + if e.url then "-_" else "+/"
  }

  /** Character c stands at position p of the alphabet. */
  predicate At(e: Encoding, c: char, p: int) {
    0 <= p < 64 && Alphabet(e)[p] == c
  }

  lemma Letters(d: nat)
    requires d < 26
    ensures UPPER[d] == ('A' as int + d) as char && LOWER[d] == ('a' as int + d) as char
  {
  }

  lemma Numerals(d: nat)
    requires d < 10
    ensures NUMERALS[d] == ('0' as int + d) as char
  {
  }

  /** A place in four strings put together. */
  lemma Place(a: string, b: string, c: string, d: string, i: nat)
    requires i < |a| + |b| + |c| + |d|
    ensures (a + b + c + d)[i] ==
              if i < |a| then a[i]
              else if i < |a| + |b| then b[i - |a|]
              else if i < |a| + |b| + |c| then c[i - |a| - |b|]
              else d[i - |a| - |b| - |c|]
  {
  }

  lemma CharAt(e: Encoding, d: Digit)
    ensures At(e, Char(e, d), d)
  {
    Place(UPPER, LOWER, NUMERALS, if e.url then "-_" else "+/", d);
    if d < 26 {
      Letters(d);
    } else if d < 52 {
      Letters(d - 26);
    } else if d < 62 {
      Numerals(d - 52);
    }
  }

  lemma ValueAt(e: Encoding, c: char, p: int)
    ensures Value(e, c) == Some(p) <==> At(e, c, p)
  {
    if Value(e, c).Some? {
      CharOfValue(e, c);
      CharAt(e, Value(e, c).value);
    }
    if At(e, c, p) {
      CharAt(e, p);
      ValueOfChar(e, p);
    }
  }

  lemma CharOfValue(e: Encoding, c: char)
    requires Value(e, c).Some?
    ensures Char(e, Value(e, c).value) == c
  {
  }

  /** The length of a text of n digits: groups of four, a last one of at least two, padded if need be. */
  predicate Filled(e: Encoding, length: nat, n: nat) {
    n % 4 != 1 && length == n + if e.padded then (4 - n % 4) % 4 else 0
  }

  lemma FilledMore(e: Encoding, length: nat, n: nat)
    requires length >= 4 && n >= 4
    ensures Filled(e, length, n) <==> Filled(e, length - 4, n - 4)
  {
  }

  /** The text is the characters at some positions of the alphabet, one short of a group at most two of
      them, filled up with padding where the encoding has it. */
  ghost predicate IsText(e: Encoding, text: string, ps: seq<Digit>) {
    && |ps| <= |text| && Filled(e, |text|, |ps|)
    && (forall i :: 0 <= i < |ps| ==> At(e, text[i], ps[i]))
    && (forall i :: |ps| <= i < |text| ==> text[i] == '=')
  }

  /** Four positions are the 24 bits of three bytes. */
  predicate Block(p0: int, p1: int, p2: int, p3: int, b0: int, b1: int, b2: int) {
    b0 * 65536 + b1 * 256 + b2 == p0 * 262144 + p1 * 4096 + p2 * 64 + p3
  }

  /** Two positions are a byte and four bits more, three are two bytes and two bits more. */
  predicate Tail(ps: seq<Digit>, data: seq<Byte>)
    requires |data| == |ps| * 3 / 4
  {
    && (|ps| % 4 == 2 ==> Two(ps, data))
    && (|ps| % 4 == 3 ==> Three(ps, data))
  }

  predicate Two(ps: seq<Digit>, data: seq<Byte>)
    requires |ps| >= 2 && |data| >= 1
  {
    var (n, m) := (|ps|, |data|);
    0 <= ps[n - 2] * 64 + ps[n - 1] - data[m - 1] * 16 < 16
  }

  predicate Three(ps: seq<Digit>, data: seq<Byte>)
    requires |ps| >= 3 && |data| >= 2
  {
    var (n, m) := (|ps|, |data|);
    0 <= ps[n - 3] * 4096 + ps[n - 2] * 64 + ps[n - 1] - (data[m - 2] * 256 + data[m - 1]) * 4 < 4
  }

  /** The bytes the positions stand for. */
  ghost predicate Means(ps: seq<Digit>, data: seq<Byte>) {
    && |data| == |ps| * 3 / 4
    && (forall g: nat :: 4 * g + 4 <= |ps| ==> BlockAt(ps, data, g))
    && Tail(ps, data)
  }

  predicate BlockAt(ps: seq<Digit>, data: seq<Byte>, g: nat)
    requires 4 * g + 4 <= |ps| && |data| == |ps| * 3 / 4
  {
    Block(ps[4 * g], ps[4 * g + 1], ps[4 * g + 2], ps[4 * g + 3], data[3 * g], data[3 * g + 1], data[3 * g + 2])
  }

  lemma TextMore(e: Encoding, text: string, ps: seq<Digit>)
    requires |text| >= 4 && |ps| >= 4
    ensures IsText(e, text, ps) <==>
              IsText(e, text[4..], ps[4..]) && forall i :: 0 <= i < 4 ==> At(e, text[i], ps[i])
  {
    hide At, Filled;
    var t, q := text[4..], ps[4..];
    FilledMore(e, |text|, |ps|);
    if IsText(e, text, ps) {
      assert forall i :: 0 <= i < |q| ==> t[i] == text[i + 4] && q[i] == ps[i + 4];
      assert forall i :: |q| <= i < |t| ==> t[i] == text[i + 4];
    }
    if IsText(e, t, q) && forall i :: 0 <= i < 4 ==> At(e, text[i], ps[i]) {
      forall i | 0 <= i < |ps|
        ensures At(e, text[i], ps[i])
      {
        if i >= 4 {
          assert text[i] == t[i - 4] && ps[i] == q[i - 4];
        }
      }
      assert forall i :: |ps| <= i < |text| ==> text[i] == t[i - 4];
    }
  }

  lemma TwoMore(ps: seq<Digit>, data: seq<Byte>)
    requires |ps| >= 6 && |data| >= 4
    ensures Two(ps, data) <==> Two(ps[4..], data[3..])
  {
  }

  lemma ThreeMore(ps: seq<Digit>, data: seq<Byte>)
    requires |ps| >= 7 && |data| >= 5
    ensures Three(ps, data) <==> Three(ps[4..], data[3..])
  {
  }

  lemma TailMore(ps: seq<Digit>, data: seq<Byte>)
    requires |ps| >= 4 && |data| >= 3 && |data| == |ps| * 3 / 4
    ensures Tail(ps, data) <==> Tail(ps[4..], data[3..])
  {
    hide Two, Three;
    assert (|ps| - 4) % 4 == |ps| % 4;
    if |ps| % 4 == 2 {
      TwoMore(ps, data);
    }
    if |ps| % 4 == 3 {
      ThreeMore(ps, data);
    }
  }

  lemma BlockMore(ps: seq<Digit>, data: seq<Byte>, g: nat)
    requires |ps| >= 4 && |data| == |ps| * 3 / 4 && 4 * g + 8 <= |ps|
    ensures BlockAt(ps, data, g + 1) <==> BlockAt(ps[4..], data[3..], g)
  {
    hide Block;
  }

  lemma MeansMore(ps: seq<Digit>, data: seq<Byte>)
    requires |ps| >= 4 && |data| >= 3
    ensures Means(ps, data) <==>
              Means(ps[4..], data[3..]) && Block(ps[0], ps[1], ps[2], ps[3], data[0], data[1], data[2])
  {
    hide Block, BlockAt, Tail;
    var q, d := ps[4..], data[3..];
    assert |data| == |ps| * 3 / 4 <==> |d| == |q| * 3 / 4;
    if |data| == |ps| * 3 / 4 {
      TailMore(ps, data);
      FirstBlock(ps, data);
      forall g: nat | 4 * g + 4 <= |q|
        ensures BlockAt(ps, data, g + 1) <==> BlockAt(q, d, g)
      {
        BlockMore(ps, data, g);
      }
      assert forall g: nat :: 4 * g + 4 <= |ps| && g > 0 ==> (BlockAt(ps, data, g) <==> BlockAt(q, d, g - 1));
    }
  }

  lemma FirstBlock(ps: seq<Digit>, data: seq<Byte>)
    requires |ps| >= 4 && |data| == |ps| * 3 / 4
    ensures BlockAt(ps, data, 0) <==> Block(ps[0], ps[1], ps[2], ps[3], data[0], data[1], data[2])
  {
  }

  lemma BlockBytes(p0: Digit, p1: Digit, p2: Digit, p3: Digit, b0: Byte, b1: Byte, b2: Byte)
    ensures Block(p0, p1, p2, p3, b0, b1, b2) <==> b0 == Byte0(p0, p1) && b1 == Byte1(p1, p2) && b2 == Byte2(p2, p3)
  {
    assert p1 == p1 / 16 * 16 + p1 % 16 && p2 == p2 / 4 * 4 + p2 % 4;
  }

  /** Decoding gives what the text means. */
  lemma {:induction false} DecodedMeans(e: Encoding, s: string) returns (ps: seq<Digit>)
    requires DecodeGroups(e, s).Some?
    ensures IsText(e, s, ps) && Means(ps, DecodeGroups(e, s).value)
  {
    if s == "" {
      ps := [];
    } else if |s| >= 4 && Value(e, s[2]).Some? && Value(e, s[3]).Some? {
      var rest := DecodedMeans(e, s[4..]);
      ps := [Value(e, s[0]).value, Value(e, s[1]).value, Value(e, s[2]).value, Value(e, s[3]).value] + rest;
      GroupMeans(e, s, ps, rest);
    } else {
      ps := LastMeans(e, s);
    }
  }

  lemma GroupMeans(e: Encoding, s: string, ps: seq<Digit>, rest: seq<Digit>)
    requires |s| >= 4 && DecodeGroups(e, s).Some? && Value(e, s[2]).Some? && Value(e, s[3]).Some?
    requires ps == [Value(e, s[0]).value, Value(e, s[1]).value, Value(e, s[2]).value, Value(e, s[3]).value] + rest
    requires IsText(e, s[4..], rest) && Means(rest, DecodeGroups(e, s[4..]).value)
    ensures IsText(e, s, ps) && Means(ps, DecodeGroups(e, s).value)
  {
    hide IsText, Means, Value, At;
    var data := DecodeGroups(e, s).value;
    assert ps[4..] == rest && data[3..] == DecodeGroups(e, s[4..]).value;
    ValueAt(e, s[0], ps[0]);
    ValueAt(e, s[1], ps[1]);
    ValueAt(e, s[2], ps[2]);
    ValueAt(e, s[3], ps[3]);
    BlockBytes(ps[0], ps[1], ps[2], ps[3], data[0], data[1], data[2]);
    TextMore(e, s, ps);
    MeansMore(ps, data);
  }

  lemma LastMeans(e: Encoding, s: string) returns (ps: seq<Digit>)
    requires s != "" && DecodeGroups(e, s).Some? && !(|s| >= 4 && Value(e, s[2]).Some? && Value(e, s[3]).Some?)
    ensures IsText(e, s, ps) && Means(ps, DecodeGroups(e, s).value)
  {
    hide Value, At, Byte0, Byte1, Tail;
    ps := [Value(e, s[0]).value, Value(e, s[1]).value];
    ValueAt(e, s[0], ps[0]);
    ValueAt(e, s[1], ps[1]);
    if |s| >= 3 && Value(e, s[2]).Some? {
      ps := ps + [Value(e, s[2]).value];
      ValueAt(e, s[2], ps[2]);
    }
    TailBytes(ps, DecodeGroups(e, s).value);
  }

  /** A text that means some bytes decodes to them. */
  lemma {:induction false} MeaningDecodes(e: Encoding, s: string, ps: seq<Digit>, data: seq<Byte>)
    requires IsText(e, s, ps) && Means(ps, data)
    ensures DecodeGroups(e, s) == Some(data)
    decreases |s|
  {
    if |ps| >= 4 {
      TextMore(e, s, ps);
      MeansMore(ps, data);
      MeaningDecodes(e, s[4..], ps[4..], data[3..]);
      GroupDecodes(e, s, ps, data);
    } else if |ps| >= 2 {
      LastDecodes(e, s, ps, data);
    } else {
      assert s == "" && data == [];
    }
  }

  lemma GroupDecodes(e: Encoding, s: string, ps: seq<Digit>, data: seq<Byte>)
    requires |s| >= 4 && |ps| >= 4 && |data| >= 3 && forall i :: 0 <= i < 4 ==> At(e, s[i], ps[i])
    requires Block(ps[0], ps[1], ps[2], ps[3], data[0], data[1], data[2])
    requires DecodeGroups(e, s[4..]) == Some(data[3..])
    ensures DecodeGroups(e, s) == Some(data)
  {
    ValueAt(e, s[0], ps[0]);
    ValueAt(e, s[1], ps[1]);
    ValueAt(e, s[2], ps[2]);
    ValueAt(e, s[3], ps[3]);
    BlockBytes(ps[0], ps[1], ps[2], ps[3], data[0], data[1], data[2]);
    hide Value, At, Byte0, Byte1, Byte2, Block;
    assert data == [data[0], data[1], data[2]] + data[3..];
  }

  lemma TwoPositions(p0: Digit, p1: Digit, b0: Byte)
    ensures 0 <= p0 * 64 + p1 - b0 * 16 < 16 <==> b0 == Byte0(p0, p1)
  {
    assert p1 == p1 / 16 * 16 + p1 % 16;
  }

  lemma ThreePositions(p0: Digit, p1: Digit, p2: Digit, b0: Byte, b1: Byte)
    ensures 0 <= p0 * 4096 + p1 * 64 + p2 - (b0 * 256 + b1) * 4 < 4 <==> b0 == Byte0(p0, p1) && b1 == Byte1(p1, p2)
  {
    assert p1 == p1 / 16 * 16 + p1 % 16;
    assert p2 == p2 / 4 * 4 + p2 % 4;
  }

  lemma TailBytes(ps: seq<Digit>, data: seq<Byte>)
    requires 2 <= |ps| <= 3 && |data| == |ps| - 1
    ensures Tail(ps, data) <==> data[0] == Byte0(ps[0], ps[1]) && (|ps| == 3 ==> data[1] == Byte1(ps[1], ps[2]))
  {
    hide Byte0, Byte1;
    if |ps| == 2 {
      TwoPositions(ps[0], ps[1], data[0]);
    } else {
      ThreePositions(ps[0], ps[1], ps[2], data[0], data[1]);
    }
  }

  lemma LastDecodes(e: Encoding, s: string, ps: seq<Digit>, data: seq<Byte>)
    requires IsText(e, s, ps) && Means(ps, data) && 2 <= |ps| <= 3
    ensures DecodeGroups(e, s) == Some(data)
  {
    hide Value, At, Byte0, Byte1;
    TailBytes(ps, data);
    ValueAt(e, s[0], ps[0]);
    ValueAt(e, s[1], ps[1]);
    PadIsNoDigit(e);
    if |ps| == 3 {
      ValueAt(e, s[2], ps[2]);
      assert data == [data[0], data[1]];
    } else {
      assert data == [data[0]];
    }
  }

  lemma PadIsNoDigit(e: Encoding)
    ensures Value(e, '=') == None
  {
  }

  /** The main theorem of the decoders, for every text: an encoding decodes it to some bytes if and only
      if it is, line breaks aside, a text of that encoding's alphabet and padding whose positions stand
      for them, six bits to a character and eight to a byte. */
  lemma DecodeExactly(e: Encoding, s: string, data: seq<Byte>)
    ensures Decode(e, s) == Some(data) <==> exists ps :: IsText(e, Strip(s), ps) && Means(ps, data)
  {
    hide IsText, Means, Strip;
    if Decode(e, s) == Some(data) {
      var ps := DecodedMeans(e, Strip(s));
    }
    if exists ps :: IsText(e, Strip(s), ps) && Means(ps, data) {
      var ps :| IsText(e, Strip(s), ps) && Means(ps, data);
      MeaningDecodes(e, Strip(s), ps, data);
    }
  }

  /** The unused low bits of the last position are zero. */
  predicate Canonical(ps: seq<Digit>) {
    && (|ps| % 4 == 2 ==> ps[|ps| - 1] % 16 == 0)
    && (|ps| % 4 == 3 ==> ps[|ps| - 1] % 4 == 0)
  }

  /** What is encoded means the bytes that went in, with no stray bits. */
  lemma {:induction false} EncodeMeans(e: Encoding, b: seq<Byte>) returns (ps: seq<Digit>)
    ensures IsText(e, Encode(e, b), ps) && Means(ps, b) && Canonical(ps)
  {
    if b == [] {
      ps := [];
    } else if |b| < 3 {
      ps := EncodeLast(e, b);
    } else {
      var rest := EncodeMeans(e, b[3..]);
      ps := [b[0] / 4, b[0] % 4 * 16 + b[1] / 16, b[1] % 16 * 4 + b[2] / 64, b[2] % 64] + rest;
      EncodeGroup(e, b, ps, rest);
    }
  }

  lemma EncodeGroup(e: Encoding, b: seq<Byte>, ps: seq<Digit>, rest: seq<Digit>)
    requires |b| >= 3 && IsText(e, Encode(e, b[3..]), rest) && Means(rest, b[3..]) && Canonical(rest)
    requires ps == [b[0] / 4, b[0] % 4 * 16 + b[1] / 16, b[1] % 16 * 4 + b[2] / 64, b[2] % 64] + rest
    ensures IsText(e, Encode(e, b), ps) && Means(ps, b) && Canonical(ps)
  {
    hide IsText, Means, At, Char, Byte0, Byte1, Byte2, Block;
    assert ps[4..] == rest && Encode(e, b)[4..] == Encode(e, b[3..]);
    CharAt(e, ps[0]);
    CharAt(e, ps[1]);
    CharAt(e, ps[2]);
    CharAt(e, ps[3]);
    BytesOfDigits(b[0], b[1], b[2]);
    BlockBytes(ps[0], ps[1], ps[2], ps[3], b[0], b[1], b[2]);
    TextMore(e, Encode(e, b), ps);
    MeansMore(ps, b);
  }

  lemma EncodeLast(e: Encoding, b: seq<Byte>) returns (ps: seq<Digit>)
    requires 1 <= |b| <= 2
    ensures IsText(e, Encode(e, b), ps) && Means(ps, b) && Canonical(ps)
  {
    hide IsText, Means, Encode;
    if |b| == 1 {
      ps := EncodeOne(e, b);
    } else {
      ps := EncodeTwo(e, b);
    }
  }

  lemma EncodeOne(e: Encoding, b: seq<Byte>) returns (ps: seq<Digit>)
    requires |b| == 1
    ensures IsText(e, Encode(e, b), ps) && Means(ps, b) && Canonical(ps)
  {
    hide At, Char, Byte0, Byte1, Tail, Padding, Two, Three;
    ps := [b[0] / 4, b[0] % 4 * 16];
    BytesOfDigits(b[0], 0, 0);
    Fill(e);
    CharAt(e, ps[0]);
    CharAt(e, ps[1]);
    TailBytes(ps, b);
  }

  lemma EncodeTwo(e: Encoding, b: seq<Byte>) returns (ps: seq<Digit>)
    requires |b| == 2
    ensures IsText(e, Encode(e, b), ps) && Means(ps, b) && Canonical(ps)
  {
    hide Byte0, Byte1, Tail, IsText, Char;
    ps := [b[0] / 4, b[0] % 4 * 16 + b[1] / 16, b[1] % 16 * 4];
    BytesOfDigits(b[0], b[1], 0);
    TailBytes(ps, b);
    ThreeText(e, ps);
  }

  lemma ThreeText(e: Encoding, ps: seq<Digit>)
    requires |ps| == 3
    ensures IsText(e, [Char(e, ps[0]), Char(e, ps[1]), Char(e, ps[2])] + Padding(e, 1), ps)
  {
    hide At, Char, Padding;
    Fill(e);
    CharAt(e, ps[0]);
    CharAt(e, ps[1]);
    CharAt(e, ps[2]);
  }

  lemma Fill(e: Encoding)
    ensures Padding(e, 1) == (if e.padded then "=" else "") && Padding(e, 2) == if e.padded then "==" else ""
  {
  }

  /** What is skipped while decoding: the line breaks, and nothing else. */
  lemma {:induction false} StripExactly(s: string)
    ensures Strip(s) == Filter(s, (c: char) => c != '\n' && c != '\r')
  {
    if s != "" {
      var p := (c: char) => c != '\n' && c != '\r';
      StripExactly(s[1..]);
      assert s == [s[0]] + s[1..];
      FilterAppend([s[0]], s[1..], p);
      assert [s[0]][..0] == [];
    }
  }

  // ---------- the fallback is unambiguous ----------

  /** On every text, whoever wrote it, any two decoders that both accept it agree. */
  lemma {:induction false} GroupsAgree(d: Encoding, e: Encoding, s: string)
    requires DecodeGroups(d, s).Some? && DecodeGroups(e, s).Some?
    ensures DecodeGroups(d, s) == DecodeGroups(e, s)
  {
    if |s| >= 4 && Value(d, s[2]).Some? && Value(d, s[3]).Some? {
      GroupsAgree(d, e, s[4..]);
    }
  }

  /** So the order of the four attempts does not matter: the chain gives what any decoder that
      accepts the text gives, and fails only when all four do. */
  lemma ChainUnambiguous(s: string, e: Encoding)
    ensures Decode(e, s).Some? ==> DecodeBase64(s) == Decode(e, s)
    ensures DecodeBase64(s) == None <==> forall d: Encoding :: Decode(d, s) == None
  {
    forall c: Encoding, d: Encoding | Decode(c, s).Some? && Decode(d, s).Some?
      ensures Decode(c, s) == Decode(d, s)
    {
      GroupsAgree(c, d, Strip(s));
    }
    if DecodeBase64(s) == None {
      forall d: Encoding
        ensures Decode(d, s) == None
      {
        assert d == Encoding(d.url, d.padded);
      }
    }
  }

  /** The chain decodes a text to some bytes if and only if they are what it means in one of the four
      encodings. */
  lemma ChainExactly(s: string, data: seq<Byte>)
    ensures DecodeBase64(s) == Some(data) <==> exists e: Encoding, ps :: IsText(e, Strip(s), ps) && Means(ps, data)
  {
    hide IsText, Means, Strip, Decode;
    if DecodeBase64(s) == Some(data) {
      var e := if Decode(STD, s).Some? then STD else if Decode(URL, s).Some? then URL else if Decode(RAW_URL, s).Some? then RAW_URL else RAW_STD;
      assert Decode(e, s) == Some(data);
      DecodeExactly(e, s, data);
    }
    if exists e: Encoding, ps :: IsText(e, Strip(s), ps) && Means(ps, data) {
      var e: Encoding, ps :| IsText(e, Strip(s), ps) && Means(ps, data);
      DecodeExactly(e, s, data);
      ChainUnambiguous(s, e);
    }
  }

  /** An empty filter: "e30=" is "{}" in base64. */
  lemma EmptyFilterText()
    ensures DecodeBase64("e30=") == Some([123, 125])
  {
    var text := "e30=";
    assert Strip(text) == text;
    assert text[0] == 'e' && text[1] == '3' && text[2] == '0' && text[3] == '=';
  }

  /** Quotes are trimmed from both ends, all of them and nothing else. */
  lemma TrimExactly(s: string) returns (left: nat, right: nat)
    ensures s == seq(left, i => '"') + TrimQuotes(s) + seq(right, i => '"')
    ensures TrimQuotes(s) != "" ==> TrimQuotes(s)[0] != '"' && TrimQuotes(s)[|TrimQuotes(s)| - 1] != '"'
  {
    left := TrimmedLeft(s);
    right := TrimmedRight(TrimLeft(s));
  }

  lemma {:induction false} TrimmedLeft(s: string) returns (n: nat)
    ensures s == seq(n, i => '"') + TrimLeft(s) && (TrimLeft(s) != "" ==> TrimLeft(s)[0] != '"')
  {
    if s != "" && s[0] == '"' {
      var m := TrimmedLeft(s[1..]);
      n := m + 1;
    } else {
      n := 0;
    }
  }

  lemma {:induction false} TrimmedRight(s: string) returns (n: nat)
    ensures s == TrimRight(s) + seq(n, i => '"')
    ensures TrimRight(s) != "" ==> TrimRight(s)[|TrimRight(s)| - 1] != '"' && TrimRight(s)[0] == s[0]
  {
    if s != "" && s[|s| - 1] == '"' {
      var m := TrimmedRight(s[..|s| - 1]);
      n := m + 1;
    } else {
      n := 0;
    }
  }

  lemma {:induction false} TrimLeftQuotes(n: nat, s: string)
    ensures TrimLeft(seq(n, i => '"') + s) == TrimLeft(s)
  {
    var q := seq(n, i => '"') + s;
    if n > 0 {
      assert q[1..] == seq(n - 1, i => '"') + s;
      TrimLeftQuotes(n - 1, s);
    } else {
      assert q == s;
    }
  }

  lemma {:induction false} TrimRightQuotes(n: nat, s: string)
    ensures TrimRight(s + seq(n, i => '"')) == TrimRight(s)
  {
    var q := s + seq(n, i => '"');
    if n > 0 {
      assert q[..|q| - 1] == s + seq(n - 1, i => '"');
      TrimRightQuotes(n - 1, s);
    } else {
      assert q == s;
    }
  }

  /** The main theorem: every byte string, written with any of the four encodings and wrapped in
      any number of quotes on either side, comes back unchanged. */
  lemma RoundTrip(e: Encoding, b: seq<Byte>, left: nat, right: nat)
    ensures DecodeBase64(TrimQuotes(seq(left, i => '"') + Encode(e, b) + seq(right, i => '"'))) == Some(b)
  {
    var text := Encode(e, b);
    EncodePrintable(e, b);
    var ql, qr := seq(left, i => '"'), seq(right, i => '"');
    TrimLeftQuotes(left, text + qr);
    assert ql + text + qr == ql + (text + qr);
    if text == "" {
      TrimLeftQuotes(right, "");
      assert text + qr == qr + "";
    } else {
      assert (text + qr)[0] == text[0];
      TrimRightQuotes(right, text);
    }
    DecodeEncode(e, b);
    ChainUnambiguous(text, e);
  }

  // ---------- filters ----------

  datatype ParseError = BadBase64 | BadJson

  /** ParseFilters; the JSON decoder is a parameter. */
  function ParseFilters<T>(encoded: string, zero: T, unmarshal: seq<Byte> -> Option<T>): Result<T, ParseError> {
    if encoded == "" then Success(zero)
    else
      match DecodeBase64(TrimQuotes(encoded))
      case None => Failure(BadBase64)
      case Some(data) =>
        match unmarshal(data)
        case None => Failure(BadJson)
        case Some(v) => Success(v)
  }

  /** EncodeFilters; the JSON encoder is a parameter and may fail. */
  function EncodeFilters<T>(v: T, marshal: T -> Option<seq<Byte>>): string {
    match marshal(v)
    case None => ""
    case Some(data) => Encode(STD, data)
  }

  /** Parsing what EncodeFilters wrote, quoted or not, gives the filters back; when they cannot be
      marshalled it gives the zero value. */
  lemma FiltersRoundTrip<T>(v: T, zero: T, marshal: T -> Option<seq<Byte>>, unmarshal: seq<Byte> -> Option<T>)
    requires marshal(v).Some? ==> marshal(v).value != [] && unmarshal(marshal(v).value) == Some(v)
    ensures var text := EncodeFilters(v, marshal);
            ParseFilters(text, zero, unmarshal) == Success(if marshal(v).Some? then v else zero)
    ensures marshal(v).Some? ==> ParseFilters("\"" + EncodeFilters(v, marshal) + "\"", zero, unmarshal) == Success(v)
  {
    if marshal(v).Some? {
      var text := EncodeFilters(v, marshal);
      RoundTrip(STD, marshal(v).value, 0, 0);
      assert seq(0, i => '"') + text + seq(0, i => '"') == text;
      RoundTrip(STD, marshal(v).value, 1, 1);
      assert seq(1, i => '"') + text + seq(1, i => '"') == "\"" + text + "\"";
    }
  }

  /** Filters in any of the four encodings, in any number of quotes, are parsed to what their bytes say. */
  lemma ParsesEveryEncoding<T>(e: Encoding, b: seq<Byte>, left: nat, right: nat, zero: T, unmarshal: seq<Byte> -> Option<T>)
    ensures var text := seq(left, i => '"') + Encode(e, b) + seq(right, i => '"');
            ParseFilters(text, zero, unmarshal) ==
              if text == "" then Success(zero)
              else if unmarshal(b).Some? then Success(unmarshal(b).value) else Failure(BadJson)
  {
    RoundTrip(e, b, left, right);
  }

  /** The parser rejects a text exactly when no decoder accepts it or its bytes are not JSON. */
  lemma RejectsExactly<T>(encoded: string, zero: T, unmarshal: seq<Byte> -> Option<T>)
    ensures ParseFilters(encoded, zero, unmarshal).Failure? <==>
              && encoded != ""
              && forall e: Encoding, data: seq<Byte> ::
                   Decode(e, TrimQuotes(encoded)) == Some(data) ==> unmarshal(data) == None
  {
    var s := TrimQuotes(encoded);
    forall e: Encoding
      ensures Decode(e, s).Some? ==> DecodeBase64(s) == Decode(e, s)
    {
      ChainUnambiguous(s, e);
    }
    ChainUnambiguous(s, STD);
  }
}
