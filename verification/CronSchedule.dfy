/** Whole cron expressions and the schedules they denote. */
module CronSchedule {
  import opened Wrappers
  import opened Strings
  import C = Cron

  datatype Schedule =
    | CronFields(minute: set<int>, hour: set<int>, dom: set<int>, month: set<int>, dow: set<int>)
    | Every(interval: int)

  datatype ParseError =
    | WrongFieldCount | InField(field: nat, error: C.FieldError)
    | InvalidDuration | TooShort | UnknownShortcut

  /** Nanoseconds. */
  const MINUTE: int := 60_000_000_000

  /** The bounds of the five fields. */
  const MINS := [0, 0, 1, 1, 0]
  const MAXS := [59, 23, 31, 12, 6]

  function FieldAt(fields: seq<string>, i: nat): Result<set<int>, C.FieldError>
    requires |fields| == 5 && i < 5
  {
    C.FieldValues(fields[i], MINS[i], MAXS[i])
  }

  /** The five fields, or the error of the first bad one. */
  function FiveFields(expr: string): Result<Schedule, ParseError> {
    var f := Fields(expr);
    if |f| != 5 then Failure(WrongFieldCount)
    else if FieldAt(f, 0).Failure? then Failure(InField(0, FieldAt(f, 0).error))
    else if FieldAt(f, 1).Failure? then Failure(InField(1, FieldAt(f, 1).error))
    else if FieldAt(f, 2).Failure? then Failure(InField(2, FieldAt(f, 2).error))
    else if FieldAt(f, 3).Failure? then Failure(InField(3, FieldAt(f, 3).error))
    else if FieldAt(f, 4).Failure? then Failure(InField(4, FieldAt(f, 4).error))
    else Success(CronFields(FieldAt(f, 0).value, FieldAt(f, 1).value, FieldAt(f, 2).value, FieldAt(f, 3).value, FieldAt(f, 4).value))
  }

  /** parseShortcut; the duration parser of Go's standard library is a parameter. */
  function Shortcut(expr: string, duration: string -> Option<int>): Result<Schedule, ParseError> {
    if expr == "@hourly" then FiveFields("0 * * * *")
    else if expr == "@daily" then FiveFields("0 0 * * *")
    else if expr == "@weekly" then FiveFields("0 0 * * 0")
    else if "@every " <= expr then
      match duration(expr[7..])
      case None => Failure(InvalidDuration)
      case Some(d) => if d < MINUTE then Failure(TooShort) else Success(Every(d))
    else Failure(UnknownShortcut)
  }

  function ScheduleOf(expr: string, duration: string -> Option<int>): Result<Schedule, ParseError> {
    var e := TrimSpace(expr);
    if "@" <= e then Shortcut(e, duration) else FiveFields(e)
  }

  method ParseFields(expr: string) returns (result: Result<Schedule, ParseError>)
    ensures result == FiveFields(expr)
  {
    hide C.FieldValues, Fields;
    var fields := Fields(expr);
    if |fields| != 5 {
      return Failure(WrongFieldCount);
    }
    var minute := C.ParseField(fields[0], 0, 59);
    if minute.Failure? {
      return Failure(InField(0, minute.error));
    }
    var hour := C.ParseField(fields[1], 0, 23);
    if hour.Failure? {
      return Failure(InField(1, hour.error));
    }
    var dom := C.ParseField(fields[2], 1, 31);
    if dom.Failure? {
      return Failure(InField(2, dom.error));
    }
    var month := C.ParseField(fields[3], 1, 12);
    if month.Failure? {
      return Failure(InField(3, month.error));
    }
    var dow := C.ParseField(fields[4], 0, 6);
    if dow.Failure? {
      return Failure(InField(4, dow.error));
    }
    result := Success(CronFields(minute.value, hour.value, dom.value, month.value, dow.value));
  }

  // ---------- printing whole expressions ----------

  function PrintFields(values: seq<seq<int>>): string {
    Join(FieldTexts(values), ' ')
  }

  function FieldTexts(values: seq<seq<int>>): (texts: seq<string>)
    ensures |texts| == |values| && forall i :: 0 <= i < |values| ==> texts[i] == C.Print(values[i])
  {
    seq(|values|, i requires 0 <= i < |values| => C.Print(values[i]))
  }

  lemma {:induction false} JoinWords(parts: seq<string>)
    requires parts != [] && forall i :: 0 <= i < |parts| ==> Word(parts[i])
    ensures Word(Join(parts, ','))
    ensures parts[0] != "" && Join(parts, ',')[0] == parts[0][0]
  {
    if |parts| > 1 {
      JoinWords(parts[1..]);
    }
  }

  lemma PrintedWord(values: seq<int>)
    requires values != [] && forall i :: 0 <= i < |values| ==> 0 <= values[i]
    ensures Word(C.Print(values)) && C.Print(values)[0] != '@'
  {
    forall i | 0 <= i < |values|
      ensures Word(Itoa(values[i])) && IsDigit(Itoa(values[i])[0])
    {
      ItoaPlain(values[i]);
    }
    JoinWords(C.Texts(values));
  }

  /** The first and last characters of words joined by blanks are not blank. */
  lemma {:induction false} JoinedEnds(words: seq<string>)
    requires words != [] && forall i :: 0 <= i < |words| ==> Word(words[i])
    ensures var s := Join(words, ' '); s != "" && words[0] != "" && s[0] == words[0][0] && !IsSpace(s[|s| - 1])
  {
    if |words| > 1 {
      JoinedEnds(words[1..]);
    }
  }

  /** Any schedule with values in bounds, printed field by field and parsed, comes back. */
  lemma PrintParse(values: seq<seq<int>>, duration: string -> Option<int>)
    requires |values| == 5
    requires forall i :: 0 <= i < 5 ==> values[i] != [] && forall j :: 0 <= j < |values[i]| ==> MINS[i] <= values[i][j] <= MAXS[i]
    ensures ScheduleOf(PrintFields(values), duration) ==
            Success(CronFields(C.SetOf(values[0]), C.SetOf(values[1]), C.SetOf(values[2]), C.SetOf(values[3]), C.SetOf(values[4])))
  {
    var texts := FieldTexts(values);
    forall i | 0 <= i < 5
      ensures Word(texts[i]) && texts[i][0] != '@'
      ensures C.FieldValues(texts[i], MINS[i], MAXS[i]) == Success(C.SetOf(values[i]))
    {
      PrintedWord(values[i]);
      C.PrintParse(values[i], MINS[i], MAXS[i]);
    }
    PrintedExpression(texts);
    hide C.Print, C.FieldValues, C.SetOf, Fields, Join, TrimSpace;
    assert FieldAt(texts, 0).value == C.SetOf(values[0]);
  }

  lemma PrintedExpression(words: seq<string>)
    requires words != [] && forall i :: 0 <= i < |words| ==> Word(words[i])
    requires words[0] != "" && words[0][0] != '@'
    ensures var s := Join(words, ' ');
            TrimSpace(s) == s && Fields(s) == words && !("@" <= s)
  {
    JoinedEnds(words);
    FieldsJoin(words);
  }

  // ---------- shortcuts ----------

  lemma FiveWords(words: seq<string>)
    requires |words| == 5 && forall i :: 0 <= i < 5 ==> Word(words[i])
    ensures Fields(Join(words, ' ')) == words
  {
    FieldsJoin(words);
  }

  /** "0" and "*" in the five fields. */
  lemma ShortcutFields()
    ensures C.FieldValues("0", 0, 59) == Success({0}) && C.FieldValues("0", 0, 23) == Success({0})
    ensures C.FieldValues("0", 0, 6) == Success({0})
    ensures forall i :: 0 <= i < 5 ==>
              C.FieldValues("*", MINS[i], MAXS[i]).Success?
              && forall v :: v in C.FieldValues("*", MINS[i], MAXS[i]).value <==> MINS[i] <= v <= MAXS[i]
  {
    C.ValueField(0, 0, 59);
    C.ValueField(0, 0, 23);
    C.ValueField(0, 0, 6);
    assert Itoa(0) == "0";
    hide C.FieldValues, Itoa;
    forall i | 0 <= i < 5
      ensures C.FieldValues("*", MINS[i], MAXS[i]).Success?
      ensures forall v :: v in C.FieldValues("*", MINS[i], MAXS[i]).value <==> MINS[i] <= v <= MAXS[i]
    {
      C.StarField(MINS[i], MAXS[i]);
    }
  }

  /** A schedule that fires at the given minutes and hours, on the given weekdays of every month. */
  ghost predicate FiresAt(r: Result<Schedule, ParseError>, hourly: bool, weekly: bool) {
    && r.Success? && r.value.CronFields?
    && r.value.minute == {0}
    && (forall v :: v in r.value.hour <==> if hourly then 0 <= v <= 23 else v == 0)
    && (forall v :: v in r.value.dom <==> 1 <= v <= 31)
    && (forall v :: v in r.value.month <==> 1 <= v <= 12)
    && (forall v :: v in r.value.dow <==> if weekly then v == 0 else 0 <= v <= 6)
  }

  lemma FieldsFire(expr: string, words: seq<string>, hourly: bool, weekly: bool)
    requires Fields(expr) == words == ["0", if hourly then "*" else "0", "*", "*", if weekly then "0" else "*"]
    ensures FiresAt(FiveFields(expr), hourly, weekly)
  {
    ShortcutFields();
    hide C.FieldValues, Fields;
    assert FieldAt(words, 2) == C.FieldValues("*", MINS[2], MAXS[2]) && FieldAt(words, 3) == C.FieldValues("*", MINS[3], MAXS[3]);
    assert FieldAt(words, 1) == C.FieldValues(words[1], MINS[1], MAXS[1]);
    assert FieldAt(words, 4) == C.FieldValues(words[4], MINS[4], MAXS[4]);
  }

  lemma WordsOf(a: string, b: string, c: string, d: string, e: string)
    requires Word(a) && Word(b) && Word(c) && Word(d) && Word(e)
    ensures Fields(a + " " + b + " " + c + " " + d + " " + e) == [a, b, c, d, e]
  {
    hide Fields, Join, Word;
    FiveWords([a, b, c, d, e]);
    FiveJoined(a, b, c, d, e);
  }

  lemma ShortcutWords()
    ensures Fields("0 * * * *") == ["0", "*", "*", "*", "*"]
    ensures Fields("0 0 * * *") == ["0", "0", "*", "*", "*"]
    ensures Fields("0 0 * * 0") == ["0", "0", "*", "*", "0"]
  {
    hide Fields;
    WordsOf("0", "*", "*", "*", "*");
    WordsOf("0", "0", "*", "*", "*");
    WordsOf("0", "0", "*", "*", "0");
    assert "0" + " " + "*" + " " + "*" + " " + "*" + " " + "*" == "0 * * * *";
    assert "0" + " " + "0" + " " + "*" + " " + "*" + " " + "*" == "0 0 * * *";
    assert "0" + " " + "0" + " " + "*" + " " + "*" + " " + "0" == "0 0 * * 0";
  }

  lemma OneMoreJoined(a: string, rest: seq<string>)
    requires rest != []
    ensures Join([a] + rest, ' ') == a + " " + Join(rest, ' ')
  {
    assert ([a] + rest)[1..] == rest;
  }

  lemma FiveJoined(a: string, b: string, c: string, d: string, e: string)
    ensures Join([a, b, c, d, e], ' ') == a + " " + b + " " + c + " " + d + " " + e
  {
    OneMoreJoined(d, [e]);
    OneMoreJoined(c, [d, e]);
    OneMoreJoined(b, [c, d, e]);
    OneMoreJoined(a, [b, c, d, e]);
    hide Join;
    assert [a] + [b, c, d, e] == [a, b, c, d, e] && [b] + [c, d, e] == [b, c, d, e] && [c] + [d, e] == [c, d, e] && [d] + [e] == [d, e];
  }

  /** "@every" takes durations of at least a minute. */
  lemma EveryShortcut(expr: string, duration: string -> Option<int>)
    ensures Shortcut("@every " + expr, duration) ==
              match duration(expr)
              case None => Failure(InvalidDuration)
              case Some(d) => if d >= 60_000_000_000 then Success(Every(d)) else Failure(TooShort)
  {
    hide FiveFields;
    var every := "@every " + expr;
    assert every[7..] == expr && every[1] == 'e';
  }

  lemma Dispatched(duration: string -> Option<int>)
    ensures ScheduleOf("@hourly", duration) == FiveFields("0 * * * *")
    ensures ScheduleOf("@daily", duration) == FiveFields("0 0 * * *")
    ensures ScheduleOf("@weekly", duration) == FiveFields("0 0 * * 0")
  {
    hide FiveFields;
    TrimmedAlready("@hourly");
    TrimmedAlready("@daily");
    TrimmedAlready("@weekly");
    hide TrimSpace;
    assert "@hourly"[1] == 'h' && "@daily"[1] == 'd' && "@weekly"[1] == 'w';
  }

  /** What the shortcuts mean: every full hour, midnight of every day, midnight of every Sunday. */
  lemma Shortcuts(duration: string -> Option<int>)
    ensures FiresAt(ScheduleOf("@hourly", duration), true, false)
    ensures FiresAt(ScheduleOf("@daily", duration), false, false)
    ensures FiresAt(ScheduleOf("@weekly", duration), false, true)
  {
    hide FiveFields, FiresAt, Fields, ScheduleOf;
    ShortcutWords();
    FieldsFire("0 * * * *", ["0", "*", "*", "*", "*"], true, false);
    FieldsFire("0 0 * * *", ["0", "0", "*", "*", "*"], false, false);
    FieldsFire("0 0 * * 0", ["0", "0", "*", "*", "0"], false, true);
    Dispatched(duration);
  }

  /** Everything else after "@" is refused. */
  lemma OtherShortcuts(expr: string, duration: string -> Option<int>)
    requires "@" <= expr && !("@every " <= expr) && expr != "@hourly" && expr != "@daily" && expr != "@weekly"
    ensures Shortcut(expr, duration) == Failure(UnknownShortcut)
  {
  }

  lemma TrimmedAlready(s: string)
    requires s != "" && !IsSpace(s[0]) && !IsSpace(s[|s| - 1])
    ensures TrimSpace(s) == s
  {
  }

  // ---------- matching ----------

  datatype Clock = Clock(minute: int, hour: int, day: int, month: int, weekday: int)

  predicate Matches(s: Schedule, t: Clock)
    requires s.CronFields?
  {
    t.minute in s.minute && t.hour in s.hour && t.day in s.dom && t.month in s.month && t.weekday in s.dow
  }

  /** The minutes of a day, as (hour, minute), at which a schedule fires. */
  function FiringMinutes(s: Schedule, day: int, month: int, weekday: int): set<(int, int)>
    requires s.CronFields?
  {
    set h, m | h in C.Range(0, 23) && m in C.Range(0, 59) && Matches(s, Clock(m, h, day, month, weekday)) :: (h, m)
  }

  function Pairs<A, B>(a: set<A>, b: set<B>): set<(A, B)> {
    set x, y | x in a && y in b :: (x, y)
  }

  lemma {:induction false} RowSize<A, B>(x: A, b: set<B>)
    ensures |Pairs({x}, b)| == |b|
    decreases b
  {
    if b != {} {
      var y :| y in b;
      RowSize(x, b - {y});
      assert Pairs({x}, b) == Pairs({x}, b - {y}) + {(x, y)};
    } else {
      assert Pairs({x}, b) == {};
    }
  }

  lemma PairsSplit<A, B>(a: set<A>, b: set<B>, x: A)
    requires x in a
    ensures Pairs(a, b) == Pairs({x}, b) + Pairs(a - {x}, b)
    ensures Pairs({x}, b) !! Pairs(a - {x}, b)
  {
  }

  lemma OneMoreRow(n: int, m: int)
    ensures (n + 1) * m == m + n * m
  {
  }

  lemma {:induction false} PairsSize<A, B>(a: set<A>, b: set<B>)
    ensures |Pairs(a, b)| == |a| * |b|
    decreases a
  {
    if a != {} {
      hide Pairs;
      var x :| x in a;
      var rest := a - {x};
      PairsSize(rest, b);
      RowSize(x, b);
      PairsSplit(a, b, x);
      OneMoreRow(|rest|, |b|);
      assert |a| == |rest| + 1;
    } else {
      assert Pairs(a, b) == {};
    }
  }

  lemma FiringPairs(s: Schedule, day: int, month: int, weekday: int)
    requires s.CronFields? && s.minute <= C.Range(0, 59) && s.hour <= C.Range(0, 23)
    ensures FiringMinutes(s, day, month, weekday)
            == if day in s.dom && month in s.month && weekday in s.dow then Pairs(s.hour, s.minute) else {}
  {
    hide C.Range;
  }

  /** The hour and minute fields of an accepted expression hold values in bounds, and some. */
  lemma TimeFields(expr: string, s: Schedule)
    requires FiveFields(expr) == Success(s)
    ensures s.CronFields?
    ensures {} < s.hour <= C.Range(0, 23) && {} < s.minute <= C.Range(0, 59)
  {
    hide C.FieldValues, C.Range, Fields;
    var f := Fields(expr);
    C.FieldRange(f[0], 0, 59);
    C.FieldRange(f[1], 0, 23);
    assert FieldAt(f, 0) == Success(s.minute) && FieldAt(f, 1) == Success(s.hour);
  }

  /** For every accepted five-field expression and every day: it fires at as many minutes as there
      are pairs of an hour and a minute, which is at least once, or not at all that day. */
  lemma FiringCount(expr: string, s: Schedule, day: int, month: int, weekday: int)
    requires FiveFields(expr) == Success(s)
    ensures s.CronFields? && |s.hour| >= 1 && |s.minute| >= 1
    ensures |FiringMinutes(s, day, month, weekday)|
            == if day in s.dom && month in s.month && weekday in s.dow then |s.hour| * |s.minute| else 0
  {
    TimeFields(expr, s);
    hide FiveFields;
    FiringPairs(s, day, month, weekday);
    PairsSize(s.hour, s.minute);
  }

  // ---------- @every ----------

  /** Integer division as Go's conversion of a float of minutes to int does it: towards zero. */
  function Truncate(ns: int): int {
    if ns >= 0 then ns / MINUTE else -(-ns / MINUTE)
  }

  /** Go's remainder has the sign of the dividend; only its being zero matters. */
  predicate Divides(d: int, n: int)
    requires d > 0
  {
    n % d == 0
  }

  /** One call of Matches: the start it leaves behind, and whether it fires. */
  function EveryStep(interval: int, start: Option<int>, t: int): (Option<int>, bool) {
    if start == None then (Some(t), true)
    else
      var every := Truncate(interval);
      (start, every > 0 && Divides(every, Truncate(t - start.value)))
  }

  class IntervalSchedule {
    const interval: int
    var start: Option<int>

    constructor (interval: int)
      ensures this.interval == interval && start == None
    {
      this.interval := interval;
      start := None;
    }

    /** The first tick sets the start and fires. */
    method Matches(t: int) returns (fires: bool)
      modifies this
      ensures (start, fires) == EveryStep(interval, old(start), t)
    {
      if start == None {
        start := Some(t);
        return true;
      }
      var elapsed := t - start.value;
      var every := Truncate(interval);
      if every <= 0 {
        return false;
      }
      fires := Truncate(elapsed) % every == 0;
    }
  }

  /** The start after n one-minute ticks from first on. */
  function StartAfter(interval: int, first: int, n: nat): Option<int> {
    if n == 0 then None else EveryStep(interval, StartAfter(interval, first, n - 1), first + (n - 1) * MINUTE).0
  }

  lemma {:induction false} StartStays(interval: int, first: int, n: nat)
    requires n > 0
    ensures StartAfter(interval, first, n) == Some(first)
  {
    if n > 1 {
      StartStays(interval, first, n - 1);
    }
  }

  /** An accepted "@every" schedule, driven by exact one-minute ticks, fires at tick n exactly
      when n is a multiple of the whole minutes of its interval. */
  lemma EveryFires(interval: int, first: int, n: nat)
    requires interval >= MINUTE
    ensures EveryStep(interval, StartAfter(interval, first, n), first + n * MINUTE).1 <==> n % (interval / MINUTE) == 0
    ensures MINUTE == 60_000_000_000
  {
    if n > 0 {
      StartStays(interval, first, n);
      assert (first + n * MINUTE) - first == n * MINUTE;
      assert n * MINUTE / MINUTE == n;
    }
  }
}
