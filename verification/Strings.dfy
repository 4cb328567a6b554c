/** The string functions of Go's standard library that the modelled code calls. */
module Strings {
  import opened Wrappers

  // ---------- splitting and joining at a separator ----------

  /** strings.Split with a one-character separator: never empty, not even for "". */
  function Split(s: string, sep: char): (parts: seq<string>)
    ensures |parts| >= 1
    ensures forall i :: 0 <= i < |parts| ==> sep !in parts[i]
  {
    if s == "" then [""]
    else if s[0] == sep then [""] + Split(s[1..], sep)
    else
      var rest := Split(s[1..], sep);
      [[s[0]] + rest[0]] + rest[1..]
  }

  function Join(parts: seq<string>, sep: char): string {
    if |parts| == 0 then ""
    else if |parts| == 1 then parts[0]
    else parts[0] + [sep] + Join(parts[1..], sep)
  }

  lemma {:induction false} SplitPlain(s: string, sep: char)
    requires sep !in s
    ensures Split(s, sep) == [s]
  {
    if s != "" {
      SplitPlain(s[1..], sep);
      assert s == [s[0]] + s[1..];
    }
  }

  lemma {:induction false} SplitAppend(a: string, b: string, sep: char)
    ensures Split(a + [sep] + b, sep) == Split(a, sep) + Split(b, sep)
  {
    var s := a + [sep] + b;
    if a == "" {
      assert s[1..] == b;
    } else {
      assert s[1..] == a[1..] + [sep] + b;
      SplitAppend(a[1..], b, sep);
    }
  }

  lemma {:induction false} SplitJoin(parts: seq<string>, sep: char)
    requires parts != [] && forall i :: 0 <= i < |parts| ==> sep !in parts[i]
    ensures Split(Join(parts, sep), sep) == parts
  {
    SplitPlain(parts[0], sep);
    if |parts| > 1 {
      SplitJoin(parts[1..], sep);
      SplitAppend(parts[0], Join(parts[1..], sep), sep);
    }
  }

  // ---------- white space ----------

  /** unicode.IsSpace. */
  predicate IsSpace(c: char) {
    || '\t' <= c <= '\r' || c == ' ' || c == 0x85 as char || c == 0xA0 as char || c == 0x1680 as char
    || 0x2000 as char <= c <= 0x200A as char || c == 0x2028 as char || c == 0x2029 as char
    || c == 0x202F as char || c == 0x205F as char || c == 0x3000 as char
  }

  function TrimSpace(s: string): (t: string)
    ensures t != "" ==> !IsSpace(t[0]) && !IsSpace(t[|t| - 1])
    ensures forall c :: c in t ==> c in s
  {
    if s == "" then ""
    else if IsSpace(s[0]) then TrimSpace(s[1..])
    else if IsSpace(s[|s| - 1]) then TrimSpace(s[..|s| - 1])
    else s
  }

  /** strings.Fields: the maximal runs without white space. */
  function Fields(s: string): seq<string> {
    if s == "" then []
    else if IsSpace(s[0]) then Fields(s[1..])
    else if |s| == 1 || IsSpace(s[1]) then [[s[0]]] + Fields(s[1..])
    else
      var rest := Fields(s[1..]);
      if rest == [] then [[s[0]]] else [[s[0]] + rest[0]] + rest[1..]
  }

  predicate Word(s: string) {
    s != "" && forall i :: 0 <= i < |s| ==> !IsSpace(s[i])
  }

  lemma {:induction false} FieldsAppend(w: string, s: string)
    requires Word(w) && (s == "" || IsSpace(s[0]))
    ensures Fields(w + s) == [w] + Fields(s)
  {
    var t := w + s;
    if |w| == 1 {
      assert t[1..] == s && w == [w[0]];
    } else {
      assert t[1..] == w[1..] + s && !IsSpace(t[1]);
      FieldsAppend(w[1..], s);
      assert w == [w[0]] + w[1..];
    }
  }

  /** Leading white space is skipped, however much there is. */
  lemma {:induction false} FieldsSkip(blanks: string, s: string)
    requires forall i :: 0 <= i < |blanks| ==> IsSpace(blanks[i])
    ensures Fields(blanks + s) == Fields(s)
  {
    if blanks == "" {
      assert blanks + s == s;
    } else {
      assert (blanks + s)[1..] == blanks[1..] + s;
      FieldsSkip(blanks[1..], s);
    }
  }

  lemma {:induction false} FieldsJoin(words: seq<string>)
    requires forall i :: 0 <= i < |words| ==> Word(words[i])
    ensures Fields(Join(words, ' ')) == words
  {
    if |words| == 1 {
      assert words[0] + "" == words[0];
      FieldsAppend(words[0], "");
    } else if |words| > 1 {
      var rest := Join(words[1..], ' ');
      FieldsJoin(words[1..]);
      assert Join(words, ' ') == words[0] + ([' '] + rest);
      FieldsAppend(words[0], [' '] + rest);
      assert ([' '] + rest)[1..] == rest;
    }
  }

  // ---------- decimal integers ----------

  const MAX_INT: int := 0x7fff_ffff_ffff_ffff
  const MIN_INT: int := -0x8000_0000_0000_0000

  predicate IsDigit(c: char) { '0' <= c <= '9' }

  function Digit(d: nat): (c: char)
    requires d < 10
    ensures IsDigit(c) && c as int - '0' as int == d
  {
    ('0' as int + d) as char
  }

  function Digits(n: nat): (s: string)
    ensures s != "" && forall i :: 0 <= i < |s| ==> IsDigit(s[i])
  {
    if n < 10 then [Digit(n)] else Digits(n / 10) + [Digit(n % 10)]
  }

  /** The %d verb. */
  function Itoa(n: int): string {
    if n < 0 then "-" + Digits(-n) else Digits(n)
  }

  /** The value of a string of digits; the empty string is none. */
  function DigitsValue(s: string): Option<nat> {
    if s == "" || !IsDigit(s[|s| - 1]) then None
    else
      var d := s[|s| - 1] as int - '0' as int;
      if |s| == 1 then Some(d)
      else
        match DigitsValue(s[..|s| - 1])
        case None => None
        case Some(v) => Some(v * 10 + d)
  }

  /** strconv.Atoi with a 64-bit int: an optional sign, then digits, within range. */
  function Atoi(s: string): (r: Option<int>)
    ensures r.Some? ==> MIN_INT <= r.value <= MAX_INT
  {
    if s == "" then None
    else
      var signed := s[0] == '-' || s[0] == '+';
      match DigitsValue(if signed then s[1..] else s)
      case None => None
      case Some(v) =>
        var n: int := if s[0] == '-' then -(v as int) else v as int;
        if MIN_INT <= n <= MAX_INT then Some(n) else None
  }

  lemma {:induction false} DigitsRoundTrip(n: nat)
    ensures DigitsValue(Digits(n)) == Some(n)
  {
    if n >= 10 {
      DigitsRoundTrip(n / 10);
      assert Digits(n)[..|Digits(n)| - 1] == Digits(n / 10);
    }
  }

  lemma AtoiItoa(n: int)
    requires MIN_INT <= n <= MAX_INT
    ensures Atoi(Itoa(n)) == Some(n)
  {
    hide DigitsValue, Digits;
    if n < 0 {
      DigitsRoundTrip(-n);
      assert Itoa(n)[1..] == Digits(-n);
    } else {
      DigitsRoundTrip(n);
      assert IsDigit(Digits(n)[0]);
    }
  }

  lemma ItoaPlain(n: int)
    ensures Itoa(n) != "" && forall i :: 0 <= i < |Itoa(n)| ==> IsDigit(Itoa(n)[i]) || (i == 0 && Itoa(n)[i] == '-' && n < 0)
  {
  }

  lemma ItoaInjective(a: int, b: int)
    requires Itoa(a) == Itoa(b)
    ensures a == b
  {
    ItoaPlain(a);
    ItoaPlain(b);
    if a < 0 {
      assert Itoa(b)[0] == '-';
      DigitsRoundTrip(-a);
      DigitsRoundTrip(-b);
      assert Itoa(a)[1..] == Digits(-a) && Itoa(b)[1..] == Digits(-b);
    } else {
      assert IsDigit(Itoa(b)[0]);
      DigitsRoundTrip(a);
      DigitsRoundTrip(b);
    }
  }

  // ---------- what the functions compute ----------

  /** Splitting cuts at every separator and drops nothing else. */
  lemma {:induction false} JoinSplit(s: string, sep: char)
    ensures Join(Split(s, sep), sep) == s
  {
    if s != "" {
      JoinSplit(s[1..], sep);
      var rest := Split(s[1..], sep);
      if s[0] == sep {
        assert ([""] + rest)[1..] == rest;
      } else {
        JoinFirst(s[0], rest, sep);
      }
    }
  }

  lemma JoinFirst(c: char, parts: seq<string>, sep: char)
    requires parts != []
    ensures Join([[c] + parts[0]] + parts[1..], sep) == [c] + Join(parts, sep)
  {
    var more := [[c] + parts[0]] + parts[1..];
    assert more[1..] == parts[1..];
  }

  /** Trimming takes white space from both ends and nothing else. */
  lemma {:induction false} TrimExactly(s: string) returns (i: nat, j: nat)
    ensures i <= j <= |s| && TrimSpace(s) == s[i..j]
    ensures forall k :: 0 <= k < i || j <= k < |s| ==> IsSpace(s[k])
  {
    hide IsSpace;
    if s != "" && IsSpace(s[0]) {
      var a, b := TrimExactly(s[1..]);
      CutFront(s, s[1..], a, b);
      i, j := a + 1, b + 1;
    } else if s != "" && IsSpace(s[|s| - 1]) {
      var a, b := TrimExactly(s[..|s| - 1]);
      CutBack(s, s[..|s| - 1], a, b);
      i, j := a, b;
    } else {
      i, j := 0, |s|;
      assert s[0..|s|] == s;
    }
  }

  lemma CutFront(s: string, rest: string, a: nat, b: nat)
    requires s != "" && IsSpace(s[0]) && a <= b <= |s| - 1 && rest == s[1..]
    requires forall k :: 0 <= k < a || b <= k < |rest| ==> IsSpace(rest[k])
    ensures rest[a..b] == s[a + 1..b + 1]
    ensures forall k :: 0 <= k < a + 1 || b + 1 <= k < |s| ==> IsSpace(s[k])
  {
    hide IsSpace;
    forall k | 0 < k < a + 1 || b + 1 <= k < |s|
      ensures IsSpace(s[k])
    {
      assert s[k] == rest[k - 1];
    }
  }

  lemma CutBack(s: string, init: string, a: nat, b: nat)
    requires s != "" && IsSpace(s[|s| - 1]) && a <= b <= |s| - 1 && init == s[..|s| - 1]
    requires forall k :: 0 <= k < a || b <= k < |init| ==> IsSpace(init[k])
    ensures init[a..b] == s[a..b]
    ensures forall k :: 0 <= k < a || b <= k < |s| ==> IsSpace(s[k])
  {
    hide IsSpace;
    forall k | 0 <= k < a || b <= k < |s| - 1
      ensures IsSpace(s[k])
    {
      assert s[k] == init[k];
    }
  }

  const NUMERALS := "0123456789"

  lemma Numeral(d: nat)
    requires d < 10
    ensures Digit(d) == NUMERALS[d]
  {
  }

  /** The decimal text of a number: its last digit stands for the remainder by ten, what precedes it for the
      quotient, and no text but "0" starts with a zero. */
  lemma {:induction false} DigitsExactly(n: nat)
    ensures Digits(n)[|Digits(n)| - 1] == NUMERALS[n % 10]
    ensures Digits(n)[..|Digits(n)| - 1] == if n < 10 then "" else Digits(n / 10)
    ensures n > 0 ==> Digits(n)[0] != '0'
  {
    Numeral(n % 10);
    if n >= 10 {
      DigitsExactly(n / 10);
    }
  }

  lemma {:induction false} OnlyDigits(s: string)
    ensures DigitsValue(s).Some? <==> s != "" && forall i :: 0 <= i < |s| ==> s[i] in NUMERALS
  {
    assert forall c :: c in NUMERALS <==> IsDigit(c) by {
      forall c
        ensures c in NUMERALS <==> IsDigit(c)
      {
        if IsDigit(c) {
          Numeral(c as int - '0' as int);
        }
      }
    }
    if |s| > 1 {
      OnlyDigits(s[..|s| - 1]);
    }
  }

  lemma {:induction false} LeadingZero(s: string)
    requires s != ""
    ensures DigitsValue("0" + s) == DigitsValue(s)
  {
    var t := "0" + s;
    assert t[..|t| - 1] == "0" + s[..|s| - 1];
    if |s| > 1 {
      LeadingZero(s[..|s| - 1]);
    } else {
      assert s[..|s| - 1] == "";
      assert DigitsValue("0") == Some(0);
    }
  }

  lemma AtoiUnsigned(text: string, v: nat)
    requires DigitsValue(text) == Some(v) && text != "" && IsDigit(text[0])
    ensures Atoi(text) == (if v <= 9223372036854775807 then Some(v as int) else None)
  {
    hide DigitsValue;
  }

  lemma AtoiPlus(text: string, v: nat)
    requires DigitsValue(text) == Some(v)
    ensures Atoi("+" + text) == (if v <= 9223372036854775807 then Some(v as int) else None)
  {
    hide DigitsValue;
    assert ("+" + text)[1..] == text;
  }

  lemma AtoiMinus(text: string, v: nat)
    requires DigitsValue(text) == Some(v)
    ensures Atoi("-" + text) == (if v <= 9223372036854775808 then Some(-(v as int)) else None)
  {
    hide DigitsValue;
    assert ("-" + text)[1..] == text;
  }

  /** What a number's text may look like: a sign or none, any zeros, then its digits; the value has to fit
      into 64 bits. */
  lemma AtoiOfText(n: nat, zeros: nat)
    ensures var text := seq(zeros, i => '0') + Digits(n);
            && Atoi(text) == (if n <= 9223372036854775807 then Some(n as int) else None)
            && Atoi("+" + text) == (if n <= 9223372036854775807 then Some(n as int) else None)
            && Atoi("-" + text) == (if n <= 9223372036854775808 then Some(-(n as int)) else None)
  {
    hide DigitsValue, Atoi;
    ZerosFirst(n, zeros);
    var text := seq(zeros, i => '0') + Digits(n);
    AtoiUnsigned(text, n);
    AtoiPlus(text, n);
    AtoiMinus(text, n);
  }

  lemma {:induction false} ZerosFirst(n: nat, zeros: nat)
    ensures DigitsValue(seq(zeros, i => '0') + Digits(n)) == Some(n)
  {
    if zeros == 0 {
      DigitsRoundTrip(n);
      assert seq(0, i => '0') + Digits(n) == Digits(n);
    } else {
      ZerosFirst(n, zeros - 1);
      LeadingZero(seq(zeros - 1, i => '0') + Digits(n));
      assert seq(zeros, i => '0') + Digits(n) == "0" + (seq(zeros - 1, i => '0') + Digits(n));
    }
  }
}
