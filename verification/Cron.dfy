/** The single-instance cron scheduler: the field parser, whole expressions, and the two kinds
    of schedule. */
module Cron {
  import opened Wrappers
  import opened Strings

  datatype FieldError =
    | InvalidStep | InvalidRangeStart | InvalidRangeEnd | RangeOutOfBounds
    | InvalidValue | ValueOutOfBounds | EmptyField

  /** The bounds of a field: all five fields start at 0 or 1. */
  predicate Bounds(min: int, max: int) {
    0 <= min <= 1 && min <= max < 100
  }

  /** 64-bit wrap-around. */
  function Wrap(n: int): int {
    (n - MIN_INT) % 0x1_0000_0000_0000_0000 + MIN_INT
  }

  predicate OnStep(i: int, min: int, step: int)
    requires step > 0
  {
    (i - min) % step == 0
  }

  function Range(lo: int, hi: int): (r: set<int>)
    ensures forall i :: i in r <==> lo <= i <= hi
    decreases hi - lo
  {
    if lo > hi then {} else {lo} + Range(lo + 1, hi)
  }

  /** The values of "*" + "/" + step.  When the loop variable overflows, which takes a lower bound
      of 1 and the largest step, it comes back through two negative values. */
  function StepValues(min: int, max: int, step: int): set<int>
    requires step > 0
  {
    (set i | min <= i <= max && OnStep(i, min, step))
    + (if min + step > MAX_INT then {MIN_INT, -1} else {})
  }

  /** The values one trimmed part of a field denotes. */
  function PartValues(part: string, min: int, max: int): Result<set<int>, FieldError> {
    if part == "*" then
      Success(Range(min, max))
    else if "*/" <= part then
      match Atoi(part[2..])
      case None => Failure(InvalidStep)
      case Some(step) => if step <= 0 then Failure(InvalidStep) else Success(StepValues(min, max, step))
    else if '-' in part then
      var (lo, hi) := (Atoi(Before(part, '-')), Atoi(After(part, '-')));
      if lo == None then Failure(InvalidRangeStart)
      else if hi == None then Failure(InvalidRangeEnd)
      else if lo.value < min || hi.value > max || lo.value > hi.value then Failure(RangeOutOfBounds)
      else Success(Range(lo.value, hi.value))
    else
      match Atoi(part)
      case None => Failure(InvalidValue)
      case Some(v) => if v < min || v > max then Failure(ValueOutOfBounds) else Success({v})
  }

  /** The two sides of the first occurrence of c. */
  function Before(s: string, c: char): string
    requires c in s
  {
    if s[0] == c then "" else [s[0]] + Before(s[1..], c)
  }

  function After(s: string, c: char): string
    requires c in s
  {
    if s[0] == c then s[1..] else After(s[1..], c)
  }

  /** Adds values to a result, unless it is an error. */
  function Including(values: set<int>, r: Result<set<int>, FieldError>): Result<set<int>, FieldError> {
    match r
    case Failure(e) => Failure(e)
    case Success(v) => Success(values + v)
  }

  lemma IncludingNothing(r: Result<set<int>, FieldError>)
    ensures Including({}, r) == r
  {
    if r.Success? {
      assert {} + r.value == r.value;
    }
  }

  lemma IncludingTwice(x: set<int>, y: set<int>, r: Result<set<int>, FieldError>)
    ensures Including(x, Including(y, r)) == Including(x + y, r)
  {
    if r.Success? {
      assert x + (y + r.value) == x + y + r.value;
    }
  }

  /** The union over all parts, or the first error. */
  function PartsValues(parts: seq<string>, min: int, max: int): Result<set<int>, FieldError> {
    if parts == [] then Success({})
    else
      match PartValues(TrimSpace(parts[0]), min, max)
      case Failure(e) => Failure(e)
      case Success(v) => Including(v, PartsValues(parts[1..], min, max))
  }

  function FieldValues(field: string, min: int, max: int): Result<set<int>, FieldError> {
    match PartsValues(Split(field, ','), min, max)
    case Failure(e) => Failure(e)
    case Success(v) => if v == {} then Failure(EmptyField) else Success(v)
  }

  // ---------- the parser's loops ----------

  lemma MulSign(step: int, m: int)
    requires step > 0
    ensures m >= 1 ==> step * m >= step
    ensures m <= 0 ==> step * m <= 0
    ensures m <= -1 ==> step * m <= -step
  {
    if m >= 1 {
      MulNonNegative(step, m - 1);
      assert step * m == step * (m - 1) + step;
    } else {
      MulNonNegative(step, -m);
      assert step * m == -(step * -m);
      if m <= -1 {
        MulNonNegative(step, -m - 1);
        assert step * -m == step * (-m - 1) + step;
      }
    }
  }

  lemma MulNonNegative(a: nat, b: nat)
    ensures a * b >= 0
  {
  }

  /** Distinct multiples of step lie at least one step apart. */
  lemma ModGap(a: nat, b: nat, step: nat)
    requires step > 0 && a % step == 0 && b % step == 0 && a < b
    ensures a + step <= b
  {
    var m := b / step - a / step;
    assert step * (a / step) == a && step * (b / step) == b;
    assert step * m == b - a;
    MulSign(step, m);
  }

  lemma NextMultiple(a: nat, step: nat)
    requires step > 0 && a % step == 0
    ensures (a + step) % step == 0
  {
    var m := (a + step) / step - a / step - 1;
    var r := (a + step) % step;
    assert step * (a / step) == a && step * ((a + step) / step) + r == a + step;
    assert step * m == -r;
    MulSign(step, m);
  }

  /** The values the loop has passed when it stands at i, in range or past it. */
  function Passed(min: int, max: int, step: int, i: int): set<int>
    requires step > 0
  {
    set j | min <= j <= max && j < i && OnStep(j, min, step)
  }

  lemma PassOne(min: int, max: int, step: int, i: int)
    requires step > 0 && min <= i <= max && OnStep(i, min, step)
    ensures OnStep(i + step, min, step)
    ensures Passed(min, max, step, i + step) == Passed(min, max, step, i) + {i}
  {
    NextMultiple(i - min, step);
    forall j | i < j < i + step
      ensures !OnStep(j, min, step)
    {
      if OnStep(j, min, step) {
        ModGap(i - min, j - min, step);
      }
    }
    hide OnStep;
  }

  lemma OverflowValues(min: int, max: int, step: int)
    requires Bounds(min, max) && 0 < step <= MAX_INT && min + step > MAX_INT
    ensures min == 1 && step == MAX_INT
    ensures StepValues(min, max, step) == {1, MIN_INT, -1}
  {
    assert OnStep(1, 1, MAX_INT);
    assert forall j :: 1 < j <= max ==> !OnStep(j, 1, MAX_INT);
  }

  /** The loop from 1 in the largest steps: three rounds, at 1, MIN_INT and -1. */
  method OverflowLoop(values: set<int>, max: int) returns (r: set<int>)
    requires 1 <= max < 100
    ensures r == values + {1, MIN_INT, -1}
  {
    r := values;
    var i := 1;
    ghost var round := 0;
    while i <= max
      invariant 0 <= round <= 3
      invariant i == [1, MIN_INT, -1, MAX_INT - 1][round]
      invariant r == values + [{}, {1}, {1, MIN_INT}, {1, MIN_INT, -1}][round]
      decreases 3 - round
    {
      r := r + {i};
      i := Wrap(i + MAX_INT);
      round := round + 1;
    }
  }

  /** for i := min; i <= max; i += step, on 64-bit integers. */
  method StepLoop(values: set<int>, min: int, max: int, step: int) returns (r: set<int>)
    requires Bounds(min, max) && 0 < step <= MAX_INT
    ensures r == values + StepValues(min, max, step)
  {
    r := values;
    var i := min;
    if min + step > MAX_INT {
      OverflowValues(min, max, step);
      r := OverflowLoop(values, max);
    } else {
      while i <= max
        invariant min <= i <= MAX_INT && OnStep(i, min, step)
        invariant r == values + Passed(min, max, step, i)
        decreases max - i
      {
        PassOne(min, max, step, i);
        if i > min {
          ModGap(0, i - min, step);
        }
        assert Wrap(i + step) == i + step;
        r := r + {i};
        i := Wrap(i + step);
      }
    }
  }

  method RangeLoop(values: set<int>, lo: int, hi: int) returns (r: set<int>)
    ensures r == values + Range(lo, hi)
  {
    r := values;
    var i := lo;
    while i <= hi
      invariant lo <= i && (i <= hi + 1 || i == lo)
      invariant r == values + Range(lo, i - 1)
      decreases hi - i
    {
      r := r + {i};
      i := i + 1;
    }
  }

  /** One round of the parser's main loop. */
  method AddPart(values: set<int>, part: string, min: int, max: int) returns (result: Result<set<int>, FieldError>)
    requires Bounds(min, max)
    ensures result == Including(values, PartValues(part, min, max))
  {
    if part == "*" {
      var r := RangeLoop(values, min, max);
      return Success(r);
    }
    if "*/" <= part {
      var step := Atoi(part[2..]);
      if step == None || step.value <= 0 {
        return Failure(InvalidStep);
      }
      var r := StepLoop(values, min, max, step.value);
      return Success(r);
    }
    if '-' in part {
      var lo := Atoi(Before(part, '-'));
      if lo == None {
        return Failure(InvalidRangeStart);
      }
      var hi := Atoi(After(part, '-'));
      if hi == None {
        return Failure(InvalidRangeEnd);
      }
      if lo.value < min || hi.value > max || lo.value > hi.value {
        return Failure(RangeOutOfBounds);
      }
      var r := RangeLoop(values, lo.value, hi.value);
      return Success(r);
    }
    var v := Atoi(part);
    if v == None {
      return Failure(InvalidValue);
    }
    if v.value < min || v.value > max {
      return Failure(ValueOutOfBounds);
    }
    result := Success(values + {v.value});
  }

  /** parseField: the values of all parts are collected in one set. */
  method ParseField(field: string, min: int, max: int) returns (result: Result<set<int>, FieldError>)
    requires Bounds(min, max)
    ensures result == FieldValues(field, min, max)
  {
    hide PartValues, TrimSpace, Split;
    var values: set<int> := {};
    var parts := Split(field, ',');
    var n := 0;
    assert parts[0..] == parts;
    IncludingNothing(PartsValues(parts, min, max));
    while n < |parts|
      invariant 0 <= n <= |parts|
      invariant PartsValues(parts, min, max) == Including(values, PartsValues(parts[n..], min, max))
    {
      assert parts[n..][0] == parts[n] && parts[n..][1..] == parts[n + 1..];
      var r := AddPart(values, TrimSpace(parts[n]), min, max);
      if r.Failure? {
        return Failure(r.error);
      }
      IncludingTwice(values, PartValues(TrimSpace(parts[n]), min, max).value, PartsValues(parts[n + 1..], min, max));
      values := r.value;
      n := n + 1;
    }
    assert parts[n..] == [];
    if values == {} {
      return Failure(EmptyField);
    }
    result := Success(values);
  }

  // ---------- what a field can denote ----------

  /** An accepted part that makes the step loop overflow. */
  predicate Overflows(part: string, min: int) {
    "*/" <= part && Atoi(part[2..]) == Some(MAX_INT) && min == 1
  }

  lemma PartRange(part: string, min: int, max: int)
    requires Bounds(min, max) && PartValues(part, min, max).Success?
    ensures PartValues(part, min, max).value * Range(min, max) != {}
    ensures PartValues(part, min, max).value <= Range(min, max) <==> !Overflows(part, min)
  {
    var v := PartValues(part, min, max).value;
    if part == "*" {
      assert min in v;
    } else if "*/" <= part {
      assert OnStep(min, min, Atoi(part[2..]).value);
      assert min in v;
      if Overflows(part, min) {
        assert -1 in v;
      }
    } else if '-' in part {
      assert Atoi(Before(part, '-')).value in v * Range(min, max);
    } else {
      assert Atoi(part).value in v * Range(min, max);
    }
  }

  lemma {:induction false} PartsRange(parts: seq<string>, min: int, max: int)
    requires Bounds(min, max) && PartsValues(parts, min, max).Success?
    ensures parts != [] ==> PartsValues(parts, min, max).value * Range(min, max) != {}
    ensures PartsValues(parts, min, max).value <= Range(min, max)
            <==> forall i :: 0 <= i < |parts| ==> !Overflows(TrimSpace(parts[i]), min)
  {
    if parts != [] {
      var v := PartValues(TrimSpace(parts[0]), min, max).value;
      var rest := PartsValues(parts[1..], min, max).value;
      PartRange(TrimSpace(parts[0]), min, max);
      PartsRange(parts[1..], min, max);
      var some :| some in v * Range(min, max);
      assert some in PartsValues(parts, min, max).value * Range(min, max);
    }
  }

  /** An accepted text denotes at least one value in bounds, so the parser's empty-field error is
      unreachable; it denotes nothing out of bounds exactly when no part steps by the largest
      64-bit integer in a field that starts at 1. */
  lemma FieldRange(field: string, min: int, max: int)
    requires Bounds(min, max)
    ensures FieldValues(field, min, max) != Failure(EmptyField)
    ensures FieldValues(field, min, max).Success? ==>
              && FieldValues(field, min, max).value * Range(min, max) != {}
              && (FieldValues(field, min, max).value <= Range(min, max)
                  <==> forall part :: part in Split(field, ',') ==> !Overflows(TrimSpace(part), min))
  {
    var parts := Split(field, ',');
    PartErrorNotEmpty(parts, min, max);
    if PartsValues(parts, min, max).Success? {
      PartsRange(parts, min, max);
    }
  }

  lemma {:induction false} PartErrorNotEmpty(parts: seq<string>, min: int, max: int)
    ensures PartsValues(parts, min, max) != Failure(EmptyField)
  {
    if parts != [] {
      PartErrorNotEmpty(parts[1..], min, max);
    }
  }

  lemma OnePart(field: string, min: int, max: int)
    requires Split(field, ',') == [field] && TrimSpace(field) == field
    requires PartValues(field, min, max).Success? && PartValues(field, min, max).value != {}
    ensures FieldValues(field, min, max) == PartValues(field, min, max)
  {
    hide Split, TrimSpace, PartValues;
    var v := PartValues(field, min, max).value;
    assert [field][1..] == [] && v + {} == v;
    assert PartsValues([field], min, max) == Including(v, PartsValues([], min, max));
  }

  /** Stepping through the days of the month by the largest integer is accepted, with two stray
      values beside the first day. */
  lemma OverflowingField()
    ensures FieldValues("*/" + Itoa(MAX_INT), 1, 31) == Success({1, MIN_INT, -1})
    ensures MAX_INT == 9223372036854775807 && MIN_INT == -9223372036854775808
  {
    var n := Itoa(MAX_INT);
    AtoiItoa(MAX_INT);
    ItoaPlain(MAX_INT);
    var field := "*/" + n;
    assert Word(field) && ',' !in field;
    SplitPlain(field, ',');
    TrimPlain(field);
    assert field[2..] == n;
    OverflowValues(1, 31, MAX_INT);
    hide Itoa, Atoi, TrimSpace, Split, StepValues;
    assert PartValues(field, 1, 31) == Success(StepValues(1, 31, MAX_INT));
    OnePart(field, 1, 31);
  }

  // ---------- comma is union ----------

  lemma {:induction false} PartsAppend(a: seq<string>, b: seq<string>, min: int, max: int)
    ensures PartsValues(a + b, min, max) ==
            match PartsValues(a, min, max)
            case Failure(e) => Failure(e)
            case Success(v) => Including(v, PartsValues(b, min, max))
  {
    hide PartValues, TrimSpace;
    if a == [] {
      assert a + b == b;
      IncludingNothing(PartsValues(b, min, max));
    } else {
      assert (a + b)[0] == a[0] && (a + b)[1..] == a[1..] + b;
      PartsAppend(a[1..], b, min, max);
      var first, rest := PartValues(TrimSpace(a[0]), min, max), PartsValues(a[1..], min, max);
      if first.Success? && rest.Success? {
        IncludingTwice(first.value, rest.value, PartsValues(b, min, max));
      }
    }
  }

  /** For all texts: two fields joined by a comma denote the union, or the first error. */
  lemma CommaIsUnion(a: string, b: string, min: int, max: int)
    requires Bounds(min, max)
    ensures FieldValues(a + "," + b, min, max) ==
            match FieldValues(a, min, max)
            case Failure(e) => Failure(e)
            case Success(v) => Including(v, FieldValues(b, min, max))
  {
    SplitAppend(a, b, ',');
    PartsAppend(Split(a, ','), Split(b, ','), min, max);
    FieldRange(a, min, max);
    FieldRange(b, min, max);
    FieldRange(a + "," + b, min, max);
  }

  // ---------- printing ----------

  function Texts(values: seq<int>): (texts: seq<string>)
    ensures |texts| == |values| && forall i :: 0 <= i < |values| ==> texts[i] == Itoa(values[i])
  {
    seq(|values|, i requires 0 <= i < |values| => Itoa(values[i]))
  }

  function Print(values: seq<int>): string {
    Join(Texts(values), ',')
  }

  lemma TrimPlain(s: string)
    requires Word(s)
    ensures TrimSpace(s) == s
  {
  }

  lemma PrintedPart(v: int, min: int, max: int)
    requires Bounds(min, max) && min <= v <= max
    ensures PartValues(TrimSpace(Itoa(v)), min, max) == Success({v})
    ensures Word(Itoa(v)) && ',' !in Itoa(v)
  {
    var s := Itoa(v);
    ItoaPlain(v);
    TrimPlain(s);
    AtoiItoa(v);
    assert forall i :: 0 <= i < |s| ==> IsDigit(s[i]);
    assert s[0] != '*';
  }

  function SetOf(values: seq<int>): set<int> {
    set v | v in values
  }

  lemma SetOfCons(values: seq<int>)
    requires values != []
    ensures SetOf(values) == {values[0]} + SetOf(values[1..])
  {
    assert values == [values[0]] + values[1..];
  }

  lemma {:induction false} PrintedParts(values: seq<int>, min: int, max: int)
    requires Bounds(min, max) && forall i :: 0 <= i < |values| ==> min <= values[i] <= max
    ensures PartsValues(Texts(values), min, max) == Success(SetOf(values))
  {
    hide PartValues, TrimSpace, Itoa;
    if values != [] {
      var rest := values[1..];
      PrintedPart(values[0], min, max);
      PrintedParts(rest, min, max);
      assert Texts(values)[1..] == Texts(rest);
      SetOfCons(values);
      hide SetOf;
    } else {
      assert SetOf(values) == {};
    }
  }

  /** Printing any values of the field, in any order, as comma-separated decimals and parsing the
      text gives back exactly the set of them. */
  lemma PrintParse(values: seq<int>, min: int, max: int)
    requires Bounds(min, max) && values != []
    requires forall i :: 0 <= i < |values| ==> min <= values[i] <= max
    ensures FieldValues(Print(values), min, max) == Success(SetOf(values))
  {
    hide PartValues, TrimSpace, Itoa, Split, Join, PartsValues;
    var parts := Texts(values);
    forall i | 0 <= i < |parts|
      ensures ',' !in parts[i]
    {
      PrintedPart(values[i], min, max);
    }
    SplitJoin(parts, ',');
    PrintedParts(values, min, max);
    assert values[0] in SetOf(values);
  }

  // ---------- what each form denotes ----------

  /** The first hyphen after a text without one. */
  lemma {:induction false} CutAtHyphen(a: string, b: string)
    requires '-' !in a
    ensures Before(a + "-" + b, '-') == a && After(a + "-" + b, '-') == b
  {
    var s := a + "-" + b;
    if a != "" {
      assert s[1..] == a[1..] + "-" + b;
      CutAtHyphen(a[1..], b);
    } else {
      assert s == ['-'] + b;
    }
  }

  lemma FormField(field: string, min: int, max: int)
    requires Word(field) && ',' !in field
    ensures match PartValues(field, min, max)
            case Failure(e) => FieldValues(field, min, max) == Failure(e)
            case Success(v) => v != {} ==> FieldValues(field, min, max) == Success(v)
  {
    SplitPlain(field, ',');
    TrimPlain(field);
    hide Split, TrimSpace, PartValues;
    assert [field][1..] == [];
    assert PartsValues([], min, max) == Success({});
    if PartValues(field, min, max).Success? {
      var v := PartValues(field, min, max).value;
      assert v + {} == v;
    }
  }

  /** "*" is every value of the field. */
  lemma StarField(min: int, max: int)
    requires Bounds(min, max)
    ensures FieldValues("*", min, max).Success?
    ensures forall v :: v in FieldValues("*", min, max).value <==> min <= v <= max
  {
    assert min in PartValues("*", min, max).value;
    FormField("*", min, max);
  }

  /** "a-b" is every value from a to b when they lie in this order within the bounds, and an error
      otherwise. */
  lemma RangeField(lo: nat, hi: nat, min: int, max: int)
    requires Bounds(min, max) && lo <= MAX_INT && hi <= MAX_INT
    ensures var r := FieldValues(Itoa(lo) + "-" + Itoa(hi), min, max);
            if min <= lo <= hi <= max then r.Success? && forall v :: v in r.value <==> lo <= v <= hi
            else r == Failure(RangeOutOfBounds)
  {
    var a, b := Itoa(lo), Itoa(hi);
    var field := a + "-" + b;
    ItoaPlain(lo);
    ItoaPlain(hi);
    AtoiItoa(lo);
    AtoiItoa(hi);
    assert field[0] == a[0] && IsDigit(a[0]) && field[|a|] == '-';
    assert Word(field) && ',' !in field && '-' !in a;
    CutAtHyphen(a, b);
    RangePart(field, lo, hi, min, max);
    FormField(field, min, max);
    hide FieldValues, PartValues, Itoa, Atoi;
    assert min <= lo <= hi <= max ==> lo in Range(lo, hi);
  }

  lemma RangePart(field: string, lo: nat, hi: nat, min: int, max: int)
    requires field != "" && field[0] != '*' && '-' in field
    requires Atoi(Before(field, '-')) == Some(lo) && Atoi(After(field, '-')) == Some(hi)
    ensures PartValues(field, min, max)
            == if min <= lo <= hi <= max then Success(Range(lo, hi)) else Failure(RangeOutOfBounds)
  {
    hide Atoi, Before, After;
  }

  /** A step: every step-th value from the lower bound on, as long as the loop variable stays within 64
      bits; a step that is not positive is an error. */
  lemma StepField(step: int, min: int, max: int)
    requires Bounds(min, max) && MIN_INT <= step <= MAX_INT - min
    ensures var r := FieldValues("*/" + Itoa(step), min, max);
            if step >= 1 then r.Success? && forall v :: v in r.value <==> min <= v <= max && (v - min) % step == 0
            else r == Failure(InvalidStep)
  {
    var n := Itoa(step);
    var field := "*/" + n;
    ItoaPlain(step);
    AtoiItoa(step);
    assert field[2..] == n && Word(field) && ',' !in field;
    FormField(field, min, max);
    StepPart(field, step, min, max);
    hide FieldValues, PartValues, Itoa, Atoi;
    if step >= 1 {
      assert OnStep(min, min, step);
      assert min in StepValues(min, max, step);
    }
  }

  lemma StepPart(field: string, step: int, min: int, max: int)
    requires "*/" <= field && |field| > 2 && Atoi(field[2..]) == Some(step)
    ensures PartValues(field, min, max) == if step >= 1 then Success(StepValues(min, max, step)) else Failure(InvalidStep)
  {
    hide Atoi;
    assert field != "*";
  }

  /** A single number: that value within the bounds, an error outside. */
  lemma ValueField(v: nat, min: int, max: int)
    requires Bounds(min, max) && v <= MAX_INT
    ensures FieldValues(Itoa(v), min, max) == if min <= v <= max then Success({v}) else Failure(ValueOutOfBounds)
  {
    var s := Itoa(v);
    ItoaPlain(v);
    AtoiItoa(v);
    assert Word(s) && ',' !in s && '-' !in s && s[0] != '*';
    FormField(s, min, max);
    hide Itoa, Atoi, FieldValues;
    assert PartValues(s, min, max) == if min <= v <= max then Success({v}) else Failure(ValueOutOfBounds);
  }
}
