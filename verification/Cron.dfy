/**
 Cron expressions: what a field text denotes, the minute-by-minute search for the next match, and
 how far the one-year horizon of that search reaches.

 An instant is a number of microseconds since the start of 1 January of year 1 (UTC), a minute the
 number of whole minutes since then.
 */
module Cron {
  import opened Basics
  import opened Calendar

  // ---- text ----

  /** The text before and after the first `c`; all of it and nothing when there is none. */
  function Partition(s: string, c: char): (string, string) {
    if s == "" then ("", "")
    else if s[0] == c then ("", s[1..])
    else var (before, after) := Partition(s[1..], c); ([s[0]] + before, after)
  }

  /** The pieces between separators. */
  function Split(s: string, c: char): (parts: seq<string>)
    ensures parts != []
  {
    if s == "" then [""]
    else
      var rest := Split(s[1..], c);
      if s[0] == c then [""] + rest else [[s[0]] + rest[0]] + rest[1..]
  }

  function Join(parts: seq<string>, c: char): string {
    if parts == [] then "" else if |parts| == 1 then parts[0] else parts[0] + [c] + Join(parts[1..], c)
  }

  /** Splitting loses nothing, and no piece holds a separator. */
  lemma {:induction false} SplitJoins(s: string, c: char)
    ensures Join(Split(s, c), c) == s
    ensures forall i :: 0 <= i < |Split(s, c)| ==> c !in Split(s, c)[i]
  {
    if s != "" {
      SplitJoins(s[1..], c);
      var rest := Split(s[1..], c);
      assert s == [s[0]] + s[1..];
      if s[0] == c {
        assert ([""] + rest)[1..] == rest;
        assert Join([""] + rest, c) == "" + [c] + Join(rest, c);
      } else {
        LongerFirst(s[0], rest, c);
      }
    }
  }

  lemma LongerFirst(x: char, rest: seq<string>, c: char)
    requires rest != []
    ensures Join([[x] + rest[0]] + rest[1..], c) == [x] + Join(rest, c)
  {
    var longer := [[x] + rest[0]] + rest[1..];
    assert longer[1..] == rest[1..];
    if |rest| > 1 {
      assert [x] + rest[0] + [c] + Join(rest[1..], c) == [x] + (rest[0] + [c] + Join(rest[1..], c));
    }
  }

  /** The characters that separate words: the ASCII blanks and the Unicode ones. */
  predicate IsBlank(c: char) {
    var n := c as int;
    || 9 <= n <= 13 || 28 <= n <= 32 || n == 0x85 || n == 0xa0 || n == 0x1680 || 0x2000 <= n <= 0x200a
    || n == 0x2028 || n == 0x2029 || n == 0x202f || n == 0x205f || n == 0x3000
  }

  /** The words of a text, of which `word` has been read. */
  function WordsFrom(word: string, s: string): seq<string>
    decreases |s|
  {
    var sofar := if word == "" then [] else [word];
    if s == "" then sofar
    else if IsBlank(s[0]) then sofar + WordsFrom("", s[1..])
    else WordsFrom(word + [s[0]], s[1..])
  }

  function Words(s: string): seq<string> {
    WordsFrom("", s)
  }

  predicate IsWord(s: string) {
    s != "" && forall i :: 0 <= i < |s| ==> !IsBlank(s[i])
  }

  function Concat(parts: seq<string>): string {
    if parts == [] then "" else parts[0] + Concat(parts[1..])
  }

  lemma {:induction false} WordsFromKeep(word: string, s: string)
    requires word == "" || IsWord(word)
    ensures forall i :: 0 <= i < |WordsFrom(word, s)| ==> IsWord(WordsFrom(word, s)[i])
    ensures Concat(WordsFrom(word, s)) == word + Filter(s, (c: char) => !IsBlank(c))
    decreases |s|
  {
    if s == "" {
      assert word + "" == word;
    } else if IsBlank(s[0]) {
      WordsFromKeep("", s[1..]);
      var rest := WordsFrom("", s[1..]);
      assert Filter(s, (c: char) => !IsBlank(c)) == [] + Filter(s[1..], (c: char) => !IsBlank(c));
      if word == "" {
        assert [] + rest == rest;
      } else {
        assert ([word] + rest)[0] == word && ([word] + rest)[1..] == rest;
      }
    } else {
      WordsFromKeep(word + [s[0]], s[1..]);
      assert (word + [s[0]]) + Filter(s[1..], (c: char) => !IsBlank(c)) == word + ([s[0]] + Filter(s[1..], (c: char) => !IsBlank(c)));
    }
  }

  /** The words of a text hold no blank and, put together, are the text without its blanks. */
  lemma WordsKeepText(s: string)
    ensures forall i :: 0 <= i < |Words(s)| ==> IsWord(Words(s)[i])
    ensures Concat(Words(s)) == Filter(s, (c: char) => !IsBlank(c))
  {
    WordsFromKeep("", s);
    assert "" + Filter(s, (c: char) => !IsBlank(c)) == Filter(s, (c: char) => !IsBlank(c));
  }

  lemma {:induction false} WordAhead(word: string, part: string, s: string)
    requires forall i :: 0 <= i < |part| ==> !IsBlank(part[i])
    ensures WordsFrom(word, part + s) == WordsFrom(word + part, s)
    decreases |part|
  {
    if part == "" {
      assert "" + s == s && word + "" == word;
    } else {
      WordAhead(word + [part[0]], part[1..], s);
      assert (part + s)[1..] == part[1..] + s;
      assert (word + [part[0]]) + part[1..] == word + part;
    }
  }

  /** Words joined by single spaces are read back. */
  lemma {:induction false} WordsOfJoined(parts: seq<string>)
    requires forall i :: 0 <= i < |parts| ==> IsWord(parts[i])
    ensures Words(Join(parts, ' ')) == parts
    decreases |parts|
  {
    if |parts| == 1 {
      WordAhead("", parts[0], "");
      assert parts[0] + "" == parts[0] && "" + parts[0] == parts[0];
    } else if |parts| > 1 {
      var rest := Join(parts[1..], ' ');
      WordsOfJoined(parts[1..]);
      WordAhead("", parts[0], [' '] + rest);
      assert "" + parts[0] == parts[0];
      assert parts[0] + ([' '] + rest) == parts[0] + [' '] + rest;
      assert ([' '] + rest)[1..] == rest;
      assert parts == [parts[0]] + parts[1..];
    }
  }

  /** Decimal digits, single underscores allowed between two of them. */
  function ParseDigits(s: string, value: nat, afterDigit: bool): Option<nat> {
    if s == "" then (if afterDigit then Some(value) else None)
    else if '0' <= s[0] <= '9' then ParseDigits(s[1..], 10 * value + (s[0] as int - '0' as int), true)
    else if s[0] == '_' && afterDigit then ParseDigits(s[1..], value, false)
    else None
  }

  /** int() over ASCII text without blanks: an optional sign and digits. */
  function ParseInt(s: string): Option<int> {
    if s == "" then None
    else
      var n := ParseDigits(if s[0] in {'-', '+'} then s[1..] else s, 0, false);
      if n.None? then None
      else if s[0] == '-' then Some(-(n.value as int))
      else Some(n.value as int)
  }

  // ---- fields ----

  /** One element of a field: the values start, start + step, ... up to end. */
  datatype Progression = Progression(start: int, end: int, step: int)

  function ParsePart(part: string, lo: nat, hi: nat): Option<Progression> {
    var (range, stepText) := Partition(part, '/');
    var step := if stepText == "" then Some(1) else ParseInt(stepText);
    if step.None? || step.value < 1 then None
    else
      var ends :=
        if range == "*" then Some((lo, hi))
        else if '-' in range then
          var (a, b) := Partition(range, '-');
          var start, end := ParseInt(a), ParseInt(b);
          if start.None? || end.None? then None else Some((start.value, end.value))
        else
          var n := ParseInt(range);
          if n.None? then None else Some((n.value, n.value));
      if ends.None? then None
      else
        var (start, end) := ends.value;
        if start < lo || end > hi || start > end then None else Some(Progression(start, end, step.value))
  }

  predicate Denotes(p: Progression, v: nat)
    requires p.step >= 1
  {
    p.start <= v <= p.end && (v - p.start) % p.step == 0
  }

  lemma PartInBounds(part: string, lo: nat, hi: nat)
    ensures var p := ParsePart(part, lo, hi);
            p.Some? ==> lo <= p.value.start <= p.value.end <= hi && p.value.step >= 1
  {}

  ghost predicate FieldOk(field: string, lo: nat, hi: nat) {
    forall part :: part in Split(field, ',') ==> ParsePart(part, lo, hi).Some?
  }

  /** What a field text denotes: the union of its bounded progressions. */
  ghost predicate InField(field: string, lo: nat, hi: nat, v: nat) {
    exists part :: part in Split(field, ',') && Piece(part, lo, hi, v)
  }

  /** The same over the first `n` pieces of the text. */
  ghost predicate InPieces(parts: seq<string>, n: nat, lo: nat, hi: nat, v: nat)
    requires n <= |parts|
  {
    exists j :: 0 <= j < n && Piece(parts[j], lo, hi, v)
  }

  ghost predicate Piece(part: string, lo: nat, hi: nat, v: nat) {
    ParsePart(part, lo, hi).Some? && (PartInBounds(part, lo, hi); Denotes(ParsePart(part, lo, hi).value, v))
  }

  lemma OnePieceMore(parts: seq<string>, i: nat, lo: nat, hi: nat, v: nat)
    requires i < |parts|
    ensures InPieces(parts, i + 1, lo, hi, v) <==> InPieces(parts, i, lo, hi, v) || Piece(parts[i], lo, hi, v)
  {}

  lemma PiecesAreField(field: string, lo: nat, hi: nat, v: nat)
    ensures InPieces(Split(field, ','), |Split(field, ',')|, lo, hi, v) <==> InField(field, lo, hi, v)
    ensures InField(field, lo, hi, v) ==> lo <= v <= hi
  {
    var parts := Split(field, ',');
    if InField(field, lo, hi, v) {
      var part :| part in parts && Piece(part, lo, hi, v);
      PartInBounds(part, lo, hi);
      var j :| 0 <= j < |parts| && parts[j] == part;
    }
  }

  lemma StartIsDenoted(p: Progression)
    requires p.step >= 1 && 0 <= p.start <= p.end
    ensures Denotes(p, p.start)
  {}

  method ParseField(field: string, lo: nat, hi: nat) returns (r: Option<set<nat>>)
    ensures r.Some? <==> FieldOk(field, lo, hi)
    ensures r.Some? ==> forall v: nat :: v in r.value <==> InField(field, lo, hi, v)
    ensures r.Some? ==> r.value != {} && forall v: nat :: v in r.value ==> lo <= v <= hi
  {
    var out: set<nat> := {};
    var parts := Split(field, ',');
    for i := 0 to |parts|
      invariant forall j :: 0 <= j < i ==> ParsePart(parts[j], lo, hi).Some?
      invariant forall v: nat :: v in out <==> InPieces(parts, i, lo, hi, v)
      invariant i > 0 ==> out != {}
    {
      PartInBounds(parts[i], lo, hi);
      var p := ParsePart(parts[i], lo, hi);
      if p.None? { return None; }
      var values := Values(p.value);
      forall v: nat ensures v in out + values <==> InPieces(parts, i + 1, lo, hi, v) { OnePieceMore(parts, i, lo, hi, v); }
      StartIsDenoted(p.value);
      out := out + values;
    }
    forall v: nat ensures InPieces(parts, |parts|, lo, hi, v) <==> InField(field, lo, hi, v) {
      PiecesAreField(field, lo, hi, v);
    }
    return Some(out);
  }

  /** range(start, end + 1, step) as a set. */
  function Values(p: Progression): (s: set<nat>)
    requires p.step >= 1
    ensures forall v: nat :: v in s <==> Denotes(p, v)
  {
    set v: nat | p.start <= v <= p.end && Denotes(p, v)
  }

  // ---- expressions ----

  /** A parsed expression; a flag is set when the field is anything but the single star. */
  datatype Expr = Expr(minutes: set<nat>, hours: set<nat>, doms: set<nat>, months: set<nat>, dows: set<nat>,
                       domRestricted: bool, dowRestricted: bool)

  ghost predicate IsExpr(parts: seq<string>, e: Expr) {
    && |parts| == 5
    && FieldOk(parts[0], 0, 59) && FieldOk(parts[1], 0, 23) && FieldOk(parts[2], 1, 31)
    && FieldOk(parts[3], 1, 12) && FieldOk(parts[4], 0, 6)
    && (forall v: nat :: v in e.minutes <==> InField(parts[0], 0, 59, v))
    && (forall v: nat :: v in e.hours <==> InField(parts[1], 0, 23, v))
    && (forall v: nat :: v in e.doms <==> InField(parts[2], 1, 31, v))
    && (forall v: nat :: v in e.months <==> InField(parts[3], 1, 12, v))
    && (forall v: nat :: v in e.dows <==> InField(parts[4], 0, 6, v))
    && e.domRestricted == (parts[2] != "*") && e.dowRestricted == (parts[4] != "*")
  }

  predicate FiveFields(parts: seq<string>) {
    |parts| == 5
  }

  /** The five fields of an expression; nothing when their number is another or one is invalid. */
  method ParseCron(spec: string) returns (r: Option<Expr>)
    ensures r.Some? <==>
              && FiveFields(Words(spec)) && FieldOk(Words(spec)[0], 0, 59) && FieldOk(Words(spec)[1], 0, 23)
              && FieldOk(Words(spec)[2], 1, 31) && FieldOk(Words(spec)[3], 1, 12) && FieldOk(Words(spec)[4], 0, 6)
    ensures r.Some? ==> IsExpr(Words(spec), r.value) && Proper(r.value)
  {
    var parts := Words(spec);
    if |parts| != 5 { return None; }
    var minutes := ParseField(parts[0], 0, 59);
    if minutes.None? { return None; }
    var hours := ParseField(parts[1], 0, 23);
    if hours.None? { return None; }
    var doms := ParseField(parts[2], 1, 31);
    if doms.None? { return None; }
    var months := ParseField(parts[3], 1, 12);
    if months.None? { return None; }
    var dows := ParseField(parts[4], 0, 6);
    if dows.None? { return None; }
    StarIsEverything(1, 31);
    StarIsEverything(0, 6);
    return Some(Expr(minutes.value, hours.value, doms.value, months.value, dows.value, parts[2] != "*", parts[4] != "*"));
  }

  lemma SingleCharacter(x: char, c: char)
    requires x != c
    ensures Split([x], c) == [[x]] && Partition([x], c) == ([x], "")
  {
    assert [x][1..] == "";
    assert Split("", c) == [""] && Partition("", c) == ("", "");
    assert [x] + "" == [x] && [""][1..] == [] && [[x]] + [] == [[x]];
  }

  lemma StarIsOk(lo: nat, hi: nat)
    requires lo <= hi
    ensures FieldOk("*", lo, hi)
  {
    SingleCharacter('*', ',');
    SingleCharacter('*', '/');
  }

  lemma StarIsEverything(lo: nat, hi: nat)
    requires lo <= hi
    ensures forall v: nat :: InField("*", lo, hi, v) <==> lo <= v <= hi
  {
    SingleCharacter('*', ',');
    SingleCharacter('*', '/');
    assert ParsePart("*", lo, hi) == Some(Progression(lo, hi, 1));
    forall v: nat ensures InField("*", lo, hi, v) <==> lo <= v <= hi {
      assert "*" in Split("*", ',');
    }
  }

  /** What every parsed expression satisfies. */
  ghost predicate Proper(e: Expr) {
    && e.minutes != {} && e.hours != {} && e.doms != {} && e.months != {} && e.dows != {}
    && (forall v: nat :: v in e.minutes ==> 0 <= v <= 59)
    && (forall v: nat :: v in e.hours ==> 0 <= v <= 23)
    && (forall v: nat :: v in e.doms ==> 1 <= v <= 31)
    && (forall v: nat :: v in e.months ==> 1 <= v <= 12)
    && (forall v: nat :: v in e.dows ==> 0 <= v <= 6)
    && (!e.domRestricted ==> forall v: nat :: 1 <= v <= 31 ==> v in e.doms)
    && (!e.dowRestricted ==> forall v: nat :: 0 <= v <= 6 ==> v in e.dows)
  }

  // ---- matching ----

  const MINUTES_PER_DAY: nat := 1440
  const MICROS_PER_MINUTE: nat := 60_000_000
  const HORIZON: nat := 366 * 1440

  /** Cron counts weekdays from Sunday. */
  function CronWeekday(day: nat): nat {
    (Weekday(day) + 1) % 7
  }

  /** Either day field suffices when both are restricted; otherwise both must agree. */
  predicate DayMatches(e: Expr, day: nat) {
    var domOk, dowOk := DateOf(day).day in e.doms, CronWeekday(day) in e.dows;
    if e.domRestricted && e.dowRestricted then domOk || dowOk else domOk && dowOk
  }

  predicate Matches(e: Expr, t: nat) {
    && t % 60 in e.minutes && t / 60 % 24 in e.hours
    && DateOf(t / MINUTES_PER_DAY).month in e.months && DayMatches(e, t / MINUTES_PER_DAY)
  }

  /** What an expression permits, rule by rule: its minute, hour and month, and of the two day fields
      those that are restricted, either of them being enough when both are. */
  ghost predicate Permits(e: Expr, t: nat) {
    DateOfCounts(t / 1440);
    var date := DateOf(t / 1440);
    && t % 60 in e.minutes && t / 60 % 24 in e.hours && date.month in e.months
    && (e.domRestricted && e.dowRestricted ==> date.day in e.doms || DayOfWeek(date) in e.dows)
    && (e.domRestricted && !e.dowRestricted ==> date.day in e.doms)
    && (!e.domRestricted && e.dowRestricted ==> DayOfWeek(date) in e.dows)
  }

  lemma MatchesIsPermits(e: Expr, t: nat)
    requires Proper(e)
    ensures Matches(e, t) <==> Permits(e, t)
  {
    DateOfCounts(t / 1440);
    WeekdayIsAnchored(t / 1440);
  }

  /** The next whole minute after an instant. */
  function FirstMinute(after: nat): nat {
    after / MICROS_PER_MINUTE + 1
  }

  lemma FirstMinuteIsNext(after: nat)
    ensures FirstMinute(after) * MICROS_PER_MINUTE > after
    ensures forall t: nat :: t * MICROS_PER_MINUTE > after ==> t >= FirstMinute(after)
  {}

  ghost predicate IsNext(e: Expr, after: nat, t: nat) {
    && t * MICROS_PER_MINUTE > after && Matches(e, t) && t <= FirstMinute(after) + HORIZON
    && forall s: nat :: s * MICROS_PER_MINUTE > after && Matches(e, s) ==> t <= s
  }

  /** The least minute after the instant that matches, searched minute by minute; nothing exactly
      when no minute of the horizon matches. */
  method CronNext(e: Expr, after: nat) returns (r: Option<nat>)
    ensures r.Some? ==> IsNext(e, after, r.value)
    ensures r.None? <==> forall t :: FirstMinute(after) <= t <= FirstMinute(after) + HORIZON ==> !Matches(e, t)
    ensures Proper(e) && r.Some? ==>
              && Permits(e, r.value) && r.value * 60_000_000 > after
              && forall t: nat :: t * 60_000_000 > after && Permits(e, t) ==> r.value <= t
    ensures Proper(e) ==>
              (r.None? <==> forall t: nat :: t * 60_000_000 > after && t <= after / 60_000_000 + 1 + 366 * 1440 ==>
                              !Permits(e, t))
  {
    FirstMinuteIsNext(after);
    if Proper(e) {
      forall t: nat ensures Matches(e, t) <==> Permits(e, t) { MatchesIsPermits(e, t); }
    }
    var t := FirstMinute(after);
    var limit := t + HORIZON;
    while t <= limit
      invariant FirstMinute(after) <= t
      invariant forall s :: FirstMinute(after) <= s < t ==> !Matches(e, s)
      decreases limit + 1 - t
    {
      if t % 60 in e.minutes && t / 60 % 24 in e.hours && DateOf(t / MINUTES_PER_DAY).month in e.months {
        var cronDow := (Weekday(t / MINUTES_PER_DAY) + 1) % 7;
        var domOk := DateOf(t / MINUTES_PER_DAY).day in e.doms;
        var dowOk := cronDow in e.dows;
        var matched := if e.domRestricted && e.dowRestricted then domOk || dowOk else domOk && dowOk;
        if matched {
          assert Matches(e, t);
          return Some(t);
        }
      }
      t := t + 1;
    }
    return None;
  }

  // ---- the horizon ----

  lemma Member(s: set<nat>) returns (x: nat)
    requires s != {}
    ensures x in s
  {
    x :| x in s;
  }

  /** Some permitted pair of month and day exists in every year. */
  ghost predicate HasYearlyDay(e: Expr) {
    exists m: nat, d: nat :: m in e.months && d in e.doms && EveryYear(m, d)
  }

  lemma MinuteOf(day: nat, h: nat, m: nat)
    requires h <= 23 && m <= 59
    ensures var t := day * MINUTES_PER_DAY + h * 60 + m;
            t / MINUTES_PER_DAY == day && t / 60 % 24 == h && t % 60 == m
  {
    var t := day * MINUTES_PER_DAY + h * 60 + m;
    assert t == 60 * (24 * day + h) + m;
    assert t / 60 == 24 * day + h;
  }

  /** From any minute, some matching day lies close enough for its permitted minute to fall in the horizon. */
  lemma DayWithinHorizon(e: Expr, start: nat, h: nat, m: nat) returns (t: nat)
    requires Proper(e) && h in e.hours && m in e.minutes
    requires e.dowRestricted || HasYearlyDay(e)
    ensures start <= t <= start + HORIZON && Matches(e, t)
  {
    var day := start / MINUTES_PER_DAY;
    var from := if start <= day * MINUTES_PER_DAY + h * 60 + m then day else day + 1;
    var n := MatchingDay(e, from);
    t := n * MINUTES_PER_DAY + h * 60 + m;
    MinuteOf(n, h, m);
  }

  lemma CronWeekdayOf(n: nat, dow: nat)
    requires dow <= 6 && Weekday(n) == (dow + 6) % 7
    ensures CronWeekday(n) == dow
  {}

  /** With the weekday restricted, a permitted weekday is enough; otherwise a permitted day of the month is. */
  lemma DayFieldsMatch(e: Expr, n: nat)
    requires Proper(e)
    requires if e.dowRestricted then CronWeekday(n) in e.dows else DateOf(n).day in e.doms
    ensures DayMatches(e, n)
  {
    DateOfCounts(n);
  }

  lemma MatchingDay(e: Expr, from: nat) returns (n: nat)
    requires Proper(e) && (e.dowRestricted || HasYearlyDay(e))
    ensures from <= n <= from + 365 && DateOf(n).month in e.months && DayMatches(e, n)
  {
    if e.dowRestricted {
      var month := Member(e.months);
      var dow := Member(e.dows);
      n := WeekdayOfMonthComesRound(from, month, (dow + 6) % 7);
      CronWeekdayOf(n, dow);
    } else {
      var m: nat, d: nat :| m in e.months && d in e.doms && EveryYear(m, d);
      var earlier: int;
      n, earlier := EveryYearComesRound(from, m, d);
    }
    DayFieldsMatch(e, n);
  }

  /** The days from 2 March of year 1 to 2 March of year 2: a year without 29 February. */
  lemma QuietDate(d: Date)
    requires IsDate(d) && d.month == 2 && d.day == 29 && 60 <= DaysBefore(d)
    ensures DaysBefore(d) > 426
  {
    MonthEntry(d.year, 2);
    if d.year >= 3 { LaterYears(3, d.year); }
  }

  lemma QuietYear(n: nat)
    requires 60 <= n <= 60 + 366
    ensures !(DateOf(n).month == 2 && DateOf(n).day == 29)
  {
    DateOfCounts(n);
    if DateOf(n).month == 2 && DateOf(n).day == 29 { QuietDate(DateOf(n)); }
  }

  /** The search that starts at a minute finds a match. */
  ghost predicate Answered(e: Expr, start: nat) {
    exists t: nat :: start <= t <= start + HORIZON && Matches(e, t)
  }

  /** A minute whose year ahead has no 29 February: 2 March of year 1. */
  const QUIET_MINUTE: nat := 60 * MINUTES_PER_DAY

  lemma QuietMinuteUnanswered(e: Expr)
    requires Proper(e) && !e.dowRestricted && !HasYearlyDay(e)
    ensures !Answered(e, QUIET_MINUTE)
  {
    forall t: nat | QUIET_MINUTE <= t <= QUIET_MINUTE + HORIZON ensures !Matches(e, t) {
      QuietYear(t / MINUTES_PER_DAY);
      if Matches(e, t) { UnyearlyDay(e, t / MINUTES_PER_DAY); }
    }
  }

  /** The search always answers, from every instant, exactly when the weekday field is restricted or
      some permitted pair of month and day exists in every year: an expression that names only
      29 February, or only days no month has, can come back with nothing. */
  lemma AlwaysAnsweredIff(e: Expr)
    requires Proper(e)
    ensures (forall start: nat :: Answered(e, start)) <==>
            e.dowRestricted || HasYearlyDay(e)
  {
    if e.dowRestricted || HasYearlyDay(e) {
      var h := Member(e.hours);
      var m := Member(e.minutes);
      forall start: nat ensures Answered(e, start) {
        var t := DayWithinHorizon(e, start, h, m);
      }
    } else {
      QuietMinuteUnanswered(e);
    }
  }

  /** Without a yearly day and with every weekday allowed, only 29 February can match. */
  lemma UnyearlyDay(e: Expr, n: nat)
    requires Proper(e) && !e.dowRestricted && !HasYearlyDay(e)
    requires DateOf(n).month in e.months && DayMatches(e, n)
    ensures DateOf(n).month == 2 && DateOf(n).day == 29
  {
    DateOfCounts(n);
    var d := DateOf(n);
    PairsOfAYear(d.year, d.month, d.day);
    assert !EveryYear(d.month, d.day);
  }

  lemma MinuteOfDay(e: Expr, n: nat) returns (t: nat)
    requires Proper(e) && DateOf(n).month in e.months && DayMatches(e, n)
    ensures Matches(e, t)
  {
    var h := Member(e.hours);
    var m := Member(e.minutes);
    MinuteOf(n, h, m);
    t := n * MINUTES_PER_DAY + h * 60 + m;
  }

  /** 29 February of year 4 matches every expression that permits that day whatever the weekday. */
  lemma LeapDayMatches(e: Expr) returns (t: nat)
    requires Proper(e) && !e.dowRestricted && 2 in e.months && 29 in e.doms
    ensures Matches(e, t)
  {
    var n := DaysBefore(Date(4, 2, 29));
    DateIsReached(Date(4, 2, 29));
    DayFieldsMatch(e, n);
    t := MinuteOfDay(e, n);
  }

  /** Every permitted day is missing from its month in every year. */
  ghost predicate OnlyMissingDays(e: Expr) {
    forall m: nat, d: nat :: m in e.months && d in e.doms ==> !SomeYear(m, d)
  }

  /** An expression matches at no time at all exactly when every weekday is allowed and every
      permitted day is missing from its month in every year. */
  lemma NeverMatchesIff(e: Expr)
    requires Proper(e)
    ensures (forall t: nat :: !Matches(e, t)) <==> !e.dowRestricted && OnlyMissingDays(e)
  {
    if e.dowRestricted || HasYearlyDay(e) {
      AlwaysAnsweredIff(e);
      assert Answered(e, 0);
      if HasYearlyDay(e) { YearlyDayExists(e); }
    } else if 2 in e.months && 29 in e.doms {
      var t := LeapDayMatches(e);
      assert SomeYear(2, 29);
    } else {
      forall t: nat ensures !Matches(e, t) {
        if Matches(e, t) { UnyearlyDay(e, t / MINUTES_PER_DAY); }
      }
      forall m: nat, d: nat | m in e.months && d in e.doms ensures !SomeYear(m, d) {
        PairsOfAYear(1, m, d);
      }
    }
  }

  lemma YearlyDayExists(e: Expr)
    requires HasYearlyDay(e)
    ensures !OnlyMissingDays(e)
  {
    var m: nat, d: nat :| m in e.months && d in e.doms && EveryYear(m, d);
    PairsOfAYear(1, m, d);
    assert SomeYear(m, d);
  }

  // ---- 29 February ----

  const LEAP_DAY_TEXT := "0 0 29 2 *"

  /** "0 0 29 2 *" once parsed. */
  function LeapDayExpression(): Expr {
    Expr({0}, {0}, {29}, {2}, {0, 1, 2, 3, 4, 5, 6}, true, false)
  }

  predicate AllDigits(s: string) {
    s != "" && forall i :: 0 <= i < |s| ==> '0' <= s[i] <= '9'
  }

  lemma {:induction false} NoSeparator(s: string, c: char)
    requires c !in s
    ensures Split(s, c) == [s] && Partition(s, c) == (s, "")
  {
    if s != "" {
      NoSeparator(s[1..], c);
      assert [s[0]] + s[1..] == s;
      assert [[s[0]] + s[1..]] + [] == [s];
    }
  }

  lemma {:induction false} PartitionAt(a: string, c: char, b: string)
    requires c !in a
    ensures Partition(a + [c] + b, c) == (a, b)
  {
    var s := a + [c] + b;
    if a == "" {
      assert s == [c] + b;
    } else {
      PartitionAt(a[1..], c, b);
      assert s[1..] == a[1..] + [c] + b;
      assert [a[0]] + a[1..] == a;
    }
  }

  /** One character in front of a text that has been split. */
  function Ahead(x: char, rest: seq<string>, c: char): seq<string>
    requires rest != []
  {
    if x == c then [""] + rest else [[x] + rest[0]] + rest[1..]
  }

  lemma AheadOfMore(x: char, rest: seq<string>, more: seq<string>, c: char)
    requires rest != []
    ensures Ahead(x, rest + more, c) == Ahead(x, rest, c) + more
  {
    assert (rest + more)[0] == rest[0] && (rest + more)[1..] == rest[1..] + more;
    if x == c {
      assert [""] + (rest + more) == ([""] + rest) + more;
    } else {
      assert [[x] + rest[0]] + (rest[1..] + more) == ([[x] + rest[0]] + rest[1..]) + more;
    }
  }

  lemma SplitAhead(s: string, c: char)
    requires s != ""
    ensures Split(s, c) == Ahead(s[0], Split(s[1..], c), c)
  {}

  lemma {:induction false} SplitAt(a: string, c: char, b: string)
    ensures Split(a + [c] + b, c) == Split(a, c) + Split(b, c)
  {
    var s := a + [c] + b;
    SplitAhead(s, c);
    if a == "" {
      assert s[0] == c && s[1..] == b;
    } else {
      SplitAt(a[1..], c, b);
      assert s[0] == a[0] && s[1..] == a[1..] + [c] + b;
      AheadOfMore(a[0], Split(a[1..], c), Split(b, c), c);
      SplitAhead(a, c);
    }
  }

  /** A list denotes what either of its halves denotes, and is valid when both are. */
  lemma ListDenotesUnion(a: string, b: string, lo: nat, hi: nat)
    ensures FieldOk(a + "," + b, lo, hi) <==> FieldOk(a, lo, hi) && FieldOk(b, lo, hi)
    ensures forall v: nat :: InField(a + "," + b, lo, hi, v) <==> InField(a, lo, hi, v) || InField(b, lo, hi, v)
  {
    SplitAt(a, ',', b);
    assert a + [','] + b == a + "," + b;
  }

  lemma DigitsHold(s: string)
    requires AllDigits(s)
    ensures ',' !in s && '/' !in s && '-' !in s && s != "*" && s[0] != '+'
  {
    assert s[0] != '*' && "*"[0] == '*';
  }

  lemma OnePart(text: string, lo: nat, hi: nat)
    requires ',' !in text
    ensures FieldOk(text, lo, hi) <==> ParsePart(text, lo, hi).Some?
    ensures forall v: nat :: InField(text, lo, hi, v) <==> Piece(text, lo, hi, v)
  {
    NoSeparator(text, ',');
    assert text in Split(text, ',');
  }

  lemma RangeParts(a: string, b: string, n: string)
    requires AllDigits(a) && AllDigits(b) && AllDigits(n)
    ensures Partition(a + "-" + b + "/" + n, '/') == (a + "-" + b, n) && Partition(a + "-" + b, '-') == (a, b)
    ensures ',' !in a + "-" + b + "/" + n && a + "-" + b != "*" && '-' in a + "-" + b
  {
    DigitsHold(a);
    DigitsHold(b);
    DigitsHold(n);
    PartitionAt(a + "-" + b, '/', n);
    PartitionAt(a, '-', b);
    assert (a + "-" + b)[|a|] == '-';
    assert |a + "-" + b| > |"*"|;
  }

  /** "a-b/n" is valid exactly when a to b is a range within the bounds and n is positive, and denotes a, a + n,
      a + 2n and so on up to b. */
  lemma RangeDenotesSteps(a: string, b: string, n: string, x: nat, y: nat, k: nat, lo: nat, hi: nat)
    requires AllDigits(a) && AllDigits(b) && AllDigits(n)
    requires ParseInt(a) == Some(x) && ParseInt(b) == Some(y) && ParseInt(n) == Some(k)
    ensures FieldOk(a + "-" + b + "/" + n, lo, hi) <==> lo <= x <= y <= hi && k >= 1
    ensures lo <= x <= y <= hi && k >= 1 ==>
              forall v: nat :: InField(a + "-" + b + "/" + n, lo, hi, v) <==> x <= v <= y && (v - x) % k == 0
  {
    var text := a + "-" + b + "/" + n;
    RangeParts(a, b, n);
    OnePart(text, lo, hi);
    assert ParsePart(text, lo, hi) == if lo <= x <= y <= hi && k >= 1 then Some(Progression(x, y, k)) else None;
  }

  /** "* / n", written without the blanks, denotes every n-th value of the field from its first on. */
  lemma StarDenotesSteps(n: string, k: nat, lo: nat, hi: nat)
    requires AllDigits(n) && ParseInt(n) == Some(k) && lo <= hi
    ensures FieldOk("*" + "/" + n, lo, hi) <==> k >= 1
    ensures k >= 1 ==> forall v: nat :: InField("*" + "/" + n, lo, hi, v) <==> lo <= v <= hi && (v - lo) % k == 0
  {
    var text := "*" + "/" + n;
    DigitsHold(n);
    PartitionAt("*", '/', n);
    assert text == "*" + ['/'] + n;
    OnePart(text, lo, hi);
    assert ParsePart(text, lo, hi) == if k >= 1 then Some(Progression(lo, hi, k)) else None;
  }

  /** The decimal text of a number. */
  function DecimalText(n: nat): string {
    if n < 10 then [('0' as int + n) as char] else DecimalText(n / 10) + [('0' as int + n % 10) as char]
  }

  lemma {:induction false} OneMoreDigit(s: string, d: char, value: nat, afterDigit: bool)
    requires '0' <= d <= '9' && ParseDigits(s, value, afterDigit).Some?
    ensures ParseDigits(s + [d], value, afterDigit) ==
            Some(10 * ParseDigits(s, value, afterDigit).value + (d as int - '0' as int))
    decreases |s|
  {
    if s == "" {
      assert s + [d] == [d] && [d][1..] == "";
    } else {
      assert (s + [d])[0] == s[0] && (s + [d])[1..] == s[1..] + [d];
      if '0' <= s[0] <= '9' {
        OneMoreDigit(s[1..], d, 10 * value + (s[0] as int - '0' as int), true);
      } else {
        OneMoreDigit(s[1..], d, value, false);
      }
    }
  }

  /** The decimal text of a number reads back as that number. */
  lemma {:induction false} DecimalReadsBack(n: nat)
    ensures AllDigits(DecimalText(n)) && ParseDigits(DecimalText(n), 0, false) == Some(n)
    ensures ParseInt(DecimalText(n)) == Some(n)
  {
    var d := ('0' as int + n % 10) as char;
    if n < 10 {
      assert DecimalText(n) == [d] && [d][1..] == "";
      assert ParseDigits("", n, true) == Some(n);
    } else {
      DecimalReadsBack(n / 10);
      OneMoreDigit(DecimalText(n / 10), d, 0, false);
    }
    assert DecimalText(n)[0] != '-' && DecimalText(n)[0] != '+';
  }

  /** A plain number denotes itself and nothing else. */
  lemma NumberDenotesItself(text: string, n: nat, lo: nat, hi: nat)
    requires AllDigits(text) && ParseInt(text) == Some(n) && lo <= n <= hi
    ensures FieldOk(text, lo, hi) && forall v: nat :: InField(text, lo, hi, v) <==> v == n
  {
    NoSeparator(text, ',');
    NoSeparator(text, '/');
    assert text[0] != '*' && '-' !in text;
    assert ParsePart(text, lo, hi) == Some(Progression(n, n, 1));
    assert text in Split(text, ',');
  }

  lemma SmallNumbers()
    ensures ParseInt("0") == Some(0) && ParseInt("2") == Some(2) && ParseInt("29") == Some(29)
  {
    assert "0"[1..] == "" && "2"[1..] == "" && "9"[1..] == "" && "29"[1..] == "9";
    assert ParseDigits("9", 2, true) == Some(29);
  }

  lemma LeapDayWords()
    ensures Words(LEAP_DAY_TEXT) == ["0", "0", "29", "2", "*"]
  {
    var parts := ["0", "0", "29", "2", "*"];
    WordsOfJoined(parts);
    JoinFive("0", "0", "29", "2", "*");
    assert LEAP_DAY_TEXT == "0" + " " + ("0" + " " + ("29" + " " + ("2" + " " + "*")));
  }

  lemma JoinFive(a: string, b: string, c: string, d: string, e: string)
    ensures Join([a, b, c, d, e], ' ') == a + " " + (b + " " + (c + " " + (d + " " + e)))
  {
    assert [a, b, c, d, e] == [a] + [b, c, d, e] && [b, c, d, e] == [b] + [c, d, e];
    assert [c, d, e] == [c] + [d, e] && [d, e] == [d] + [e];
    JoinAnother(a, [b, c, d, e]);
    JoinAnother(b, [c, d, e]);
    JoinAnother(c, [d, e]);
    JoinAnother(d, [e]);
  }

  lemma JoinAnother(word: string, rest: seq<string>)
    requires rest != []
    ensures Join([word] + rest, ' ') == word + " " + Join(rest, ' ')
    ensures |rest| == 1 ==> Join(rest, ' ') == rest[0]
  {
    assert ([word] + rest)[1..] == rest;
  }

  lemma LeapDayFields()
    ensures FieldOk("0", 0, 59) && FieldOk("0", 0, 23) && FieldOk("29", 1, 31) && FieldOk("2", 1, 12) && FieldOk("*", 0, 6)
    ensures forall v: nat :: InField("0", 0, 59, v) <==> v == 0
    ensures forall v: nat :: InField("0", 0, 23, v) <==> v == 0
    ensures forall v: nat :: InField("29", 1, 31, v) <==> v == 29
    ensures forall v: nat :: InField("2", 1, 12, v) <==> v == 2
    ensures forall v: nat :: InField("*", 0, 6, v) <==> v <= 6
  {
    SmallNumbers();
    NumberDenotesItself("0", 0, 0, 59);
    NumberDenotesItself("0", 0, 0, 23);
    NumberDenotesItself("29", 29, 1, 31);
    NumberDenotesItself("2", 2, 1, 12);
    StarIsEverything(0, 6);
    StarIsOk(0, 6);
  }

  lemma LeapDayIsProper()
    ensures Proper(LeapDayExpression())
  {
    assert 0 in LeapDayExpression().dows && 0 in LeapDayExpression().minutes && 0 in LeapDayExpression().hours;
    assert 29 in LeapDayExpression().doms && 2 in LeapDayExpression().months;
  }

  /** Four numbers and a star make up an expression. */
  lemma NumbersAndStar(parts: seq<string>, e: Expr, minute: nat, hour: nat, dom: nat, month: nat)
    requires |parts| == 5 && e.minutes == {minute} && e.hours == {hour} && e.doms == {dom} && e.months == {month}
    requires e.domRestricted && !e.dowRestricted && parts[2] != "*" && parts[4] == "*"
    requires FieldOk(parts[0], 0, 59) && forall v: nat :: InField(parts[0], 0, 59, v) <==> v == minute
    requires FieldOk(parts[1], 0, 23) && forall v: nat :: InField(parts[1], 0, 23, v) <==> v == hour
    requires FieldOk(parts[2], 1, 31) && forall v: nat :: InField(parts[2], 1, 31, v) <==> v == dom
    requires FieldOk(parts[3], 1, 12) && forall v: nat :: InField(parts[3], 1, 12, v) <==> v == month
    requires FieldOk(parts[4], 0, 6) && forall v: nat :: InField(parts[4], 0, 6, v) <==> v in e.dows
    ensures IsExpr(parts, e)
  {}

  lemma LeapDayFromParts(parts: seq<string>)
    requires parts == ["0", "0", "29", "2", "*"]
    ensures IsExpr(parts, LeapDayExpression())
  {
    LeapDayFields();
    assert |parts[2]| == 2;
    NumbersAndStar(parts, LeapDayExpression(), 0, 0, 29, 2);
  }

  /** The text "0 0 29 2 *" is a valid expression and parses to the one above. */
  lemma LeapDayParses()
    ensures IsExpr(Words(LEAP_DAY_TEXT), LeapDayExpression())
  {
    LeapDayWords();
    LeapDayFromParts(Words(LEAP_DAY_TEXT));
  }

  lemma LeapDayHasNoYearlyDay()
    ensures !LeapDayExpression().dowRestricted && !HasYearlyDay(LeapDayExpression())
  {
    assert !EveryYear(2, 29);
  }

  /** That valid expression is left unanswered by the search that starts on 2 March of year 1. */
  lemma LeapDayExpressionUnanswered()
    ensures IsExpr(Words(LEAP_DAY_TEXT), LeapDayExpression()) && !Answered(LeapDayExpression(), QUIET_MINUTE)
  {
    LeapDayParses();
    LeapDayIsProper();
    LeapDayHasNoYearlyDay();
    QuietMinuteUnanswered(LeapDayExpression());
  }

  // ---- either day field ----

  const EITHER_DAY_TEXT := "0 0 1 * 1"

  /** "0 0 1 * 1" once parsed: the first of a month, or a Monday. */
  function EitherDay(): Expr {
    Expr({0}, {0}, {1}, {1, 2, 3, 4, 5, 6, 7, 8, 9, 10, 11, 12}, {1}, true, true)
  }

  lemma EitherDayWords()
    ensures Words(EITHER_DAY_TEXT) == ["0", "0", "1", "*", "1"]
  {
    var parts := ["0", "0", "1", "*", "1"];
    WordsOfJoined(parts);
    JoinFive("0", "0", "1", "*", "1");
    assert EITHER_DAY_TEXT == "0" + " " + ("0" + " " + ("1" + " " + ("*" + " " + "1")));
  }

  lemma EitherDayFields()
    ensures FieldOk("0", 0, 59) && FieldOk("0", 0, 23) && FieldOk("1", 1, 31) && FieldOk("*", 1, 12) && FieldOk("1", 0, 6)
    ensures forall v: nat :: InField("0", 0, 59, v) <==> v == 0
    ensures forall v: nat :: InField("0", 0, 23, v) <==> v == 0
    ensures forall v: nat :: InField("1", 1, 31, v) <==> v == 1
    ensures forall v: nat :: InField("*", 1, 12, v) <==> 1 <= v <= 12
    ensures forall v: nat :: InField("1", 0, 6, v) <==> v == 1
  {
    SmallNumbers();
    assert "1"[1..] == "" && ParseInt("1") == Some(1);
    NumberDenotesItself("0", 0, 0, 59);
    NumberDenotesItself("0", 0, 0, 23);
    NumberDenotesItself("1", 1, 1, 31);
    NumberDenotesItself("1", 1, 0, 6);
    StarIsEverything(1, 12);
    StarIsOk(1, 12);
  }

  lemma TwoNumbersRestricted(parts: seq<string>, e: Expr, minute: nat, hour: nat, dom: nat, dow: nat)
    requires |parts| == 5 && e.minutes == {minute} && e.hours == {hour} && e.doms == {dom} && e.dows == {dow}
    requires e.domRestricted && e.dowRestricted && parts[2] != "*" && parts[4] != "*"
    requires FieldOk(parts[0], 0, 59) && forall v: nat :: InField(parts[0], 0, 59, v) <==> v == minute
    requires FieldOk(parts[1], 0, 23) && forall v: nat :: InField(parts[1], 0, 23, v) <==> v == hour
    requires FieldOk(parts[2], 1, 31) && forall v: nat :: InField(parts[2], 1, 31, v) <==> v == dom
    requires FieldOk(parts[3], 1, 12) && forall v: nat :: InField(parts[3], 1, 12, v) <==> v in e.months
    requires FieldOk(parts[4], 0, 6) && forall v: nat :: InField(parts[4], 0, 6, v) <==> v == dow
    ensures IsExpr(parts, e)
  {}

  lemma EitherDayFromParts(parts: seq<string>)
    requires parts == ["0", "0", "1", "*", "1"]
    ensures IsExpr(parts, EitherDay())
  {
    EitherDayFields();
    assert parts[2][0] == '1' && parts[4][0] == '1';
    TwoNumbersRestricted(parts, EitherDay(), 0, 0, 1, 1);
  }

  lemma EitherDayParses()
    ensures IsExpr(Words(EITHER_DAY_TEXT), EitherDay())
  {
    EitherDayWords();
    EitherDayFromParts(Words(EITHER_DAY_TEXT));
  }

  lemma EitherDayIsProper()
    ensures Proper(EitherDay())
  {
    assert 0 in EitherDay().minutes && 0 in EitherDay().hours && 1 in EitherDay().doms;
    assert 1 in EitherDay().months && 1 in EitherDay().dows;
  }

  /** The last days of January and the first of February of year 1. */
  lemma FirstFebruary(n: nat)
    requires 29 <= n <= 35
    ensures DateOf(n) == if n <= 30 then Date(1, 1, n + 1) else Date(1, 2, n - 30)
  {
    var d := if n <= 30 then Date(1, 1, n + 1) else Date(1, 2, n - 30);
    MonthEntry(1, d.month);
    DateIsReached(d);
  }

  lemma DayOfWeekIs(n: nat)
    ensures IsDate(DateOf(n)) && DayOfWeek(DateOf(n)) == (n + 1) % 7
  {
    WeekdayIsAnchored(n);
    NextWeekday(n);
  }

  lemma PermitsMidnight(e: Expr, n: nat, date: Date, weekday: nat)
    requires DateOf(n) == date && IsDate(date) && DayOfWeek(date) == weekday
    requires e.minutes == {0} && e.hours == {0} && e.domRestricted && e.dowRestricted
    ensures Permits(e, n * 1440) <==> date.month in e.months && (date.day in e.doms || weekday in e.dows)
  {
    MinuteOf(n, 0, 0);
  }

  /** "0 0 1 * 1" permits midnight of 1 and of 5 February of year 1, and no other midnight from 30 January to
      5 February. */
  lemma EitherDaySuffices(n: nat)
    requires 29 <= n <= 35
    ensures Permits(EitherDay(), n * 1440) <==> n == 31 || n == 35
  {
    FirstFebruary(n);
    DayOfWeekIs(n);
    FirstOrMonday(n, DateOf(n));
    PermitsMidnight(EitherDay(), n, DateOf(n), (n + 1) % 7);
  }

  /** Of those midnights one is permitted by its date alone, 1 February (day 31, a Thursday), and one by its
      weekday alone, 5 February (day 35, a Monday). */
  lemma OneFieldSuffices(n: nat)
    requires 29 <= n <= 35
    ensures DateOf(n) == (if n <= 30 then Date(1, 1, n + 1) else Date(1, 2, n - 30))
    ensures IsDate(DateOf(n)) && DayOfWeek(DateOf(n)) == (n + 1) % 7
    ensures DateOf(n).day in EitherDay().doms <==> n == 31
    ensures DayOfWeek(DateOf(n)) in EitherDay().dows <==> n == 35
    ensures Permits(EitherDay(), n * 1440) <==> n == 31 || n == 35
  {
    FirstFebruary(n);
    DayOfWeekIs(n);
    FirstOrMonday(n, DateOf(n));
    EitherDaySuffices(n);
  }

  lemma FirstOrMonday(n: nat, date: Date)
    requires 29 <= n <= 35 && date == if n <= 30 then Date(1, 1, n + 1) else Date(1, 2, n - 30)
    ensures date.month in EitherDay().months
    ensures date.day in EitherDay().doms <==> n == 31
    ensures (n + 1) % 7 in EitherDay().dows <==> n == 35
  {}

  /** So the search that starts on Monday 29 January at midnight answers Thursday 1 February. */
  lemma EitherDayAnswer()
    ensures IsExpr(Words(EITHER_DAY_TEXT), EitherDay())
    ensures NextMatch(EitherDay(), 28 * 1440 * 60_000_000) == Some(31 * 1440)
  {
    var e, after := EitherDay(), 28 * 1440 * 60_000_000;
    EitherDayParses();
    EitherDayIsProper();
    forall t: nat | 28 * 1440 < t < 31 * 1440 ensures !Matches(e, t) {
      NotBeforeFebruary(t);
    }
    EitherDaySuffices(31);
    MatchesIsPermits(e, 31 * 1440);
    assert FirstMinute(after) == 28 * 1440 + 1;
    FirstMinuteIsNext(after);
    assert IsNext(e, after, 31 * 1440);
    assert Answered(e, FirstMinute(after));
    NextIsUnique(e, after, 31 * 1440, NextMatch(e, after).value);
  }

  lemma NotBeforeFebruary(t: nat)
    requires 28 * 1440 < t < 31 * 1440
    ensures !Matches(EitherDay(), t)
  {
    EitherDayIsProper();
    MatchesIsPermits(EitherDay(), t);
    EitherDaySuffices(29);
    EitherDaySuffices(30);
    if t % 60 == 0 && t / 60 % 24 == 0 { Midnight(t); }
  }

  predicate IsLeapDay(n: nat) {
    DateOf(n).month == 2 && DateOf(n).day == 29
  }

  lemma FourthsApart(a: nat, b: nat)
    requires a % 4 == 0 && b % 4 == 0 && a < b
    ensures a + 4 <= b
  {
    assert a == 4 * (a / 4) && b == 4 * (b / 4);
  }

  /** Two dates of 29 February are at least four years apart. */
  lemma LeapDatesApart(a: Date, b: Date)
    requires IsDate(a) && IsDate(b) && a.month == 2 && a.day == 29 && b.month == 2 && b.day == 29
    requires DaysBefore(a) < DaysBefore(b)
    ensures DaysBefore(b) - DaysBefore(a) >= 1460
  {
    if b.year < a.year { YearsApart(b, a); }
    assert a.year == b.year ==> a == b;
    FourthsApart(a.year, b.year);
    LaterYears(a.year, b.year);
    MonthEntry(a.year, 2);
    MonthEntry(b.year, 2);
  }

  lemma LeapDaysApart(n: nat, m: nat)
    requires IsLeapDay(n) && IsLeapDay(m) && n < m
    ensures m - n >= 1460
  {
    DateOfCounts(n);
    DateOfCounts(m);
    LeapDatesApart(DateOf(n), DateOf(m));
  }

  /** Searched from any moment of a leap day, "0 0 29 2 *" has no next match: four years are too far. */
  lemma LeapDayIsTheLast(after: nat)
    requires IsLeapDay(after / MICROS_PER_MINUTE / MINUTES_PER_DAY)
    ensures !Answered(LeapDayExpression(), FirstMinute(after))
  {
    var n := after / MICROS_PER_MINUTE / MINUTES_PER_DAY;
    forall t: nat | FirstMinute(after) <= t <= FirstMinute(after) + HORIZON ensures !Matches(LeapDayExpression(), t) {
      if Matches(LeapDayExpression(), t) {
        LeapDayHasNoYearlyDay();
        LeapDayIsProper();
        UnyearlyDay(LeapDayExpression(), t / MINUTES_PER_DAY);
        Midnight(t);
        NoLeapDayBetween(n, t / MINUTES_PER_DAY);
      }
    }
  }

  lemma NoLeapDayBetween(n: nat, m: nat)
    requires IsLeapDay(n) && IsLeapDay(m)
    ensures m <= n || m >= n + 1460
  {
    if n < m { LeapDaysApart(n, m); }
  }

  lemma Midnight(t: nat)
    requires t % 60 == 0 && t / 60 % 24 == 0
    ensures t == t / MINUTES_PER_DAY * MINUTES_PER_DAY
  {
    assert t == 60 * (t / 60);
  }

  // ---- the answer as a function ----

  /** The answer to a search is determined by what it promises. */
  lemma NextIsUnique(e: Expr, after: nat, s: nat, t: nat)
    requires IsNext(e, after, s) && IsNext(e, after, t)
    ensures s == t
  {}

  lemma {:induction false} LeastMatch(e: Expr, after: nat, t: nat) returns (least: nat)
    requires FirstMinute(after) <= t <= FirstMinute(after) + HORIZON && Matches(e, t)
    ensures IsNext(e, after, least)
    decreases t
  {
    FirstMinuteIsNext(after);
    if s: nat :| FirstMinute(after) <= s < t && Matches(e, s) {
      least := LeastMatch(e, after, s);
    } else {
      least := t;
    }
  }

  ghost function NextMatch(e: Expr, after: nat): (r: Option<nat>)
    ensures r.Some? ==> IsNext(e, after, r.value)
    ensures r.None? <==> !Answered(e, FirstMinute(after))
  {
    if Answered(e, FirstMinute(after)) then
      var t: nat :| FirstMinute(after) <= t <= FirstMinute(after) + HORIZON && Matches(e, t);
      assert exists u: nat :: IsNext(e, after, u) by { var u := LeastMatch(e, after, t); }
      var u: nat :| IsNext(e, after, u);
      Some(u)
    else None
  }
}
