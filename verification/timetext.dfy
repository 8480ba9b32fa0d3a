/** The two readings of a schedule string in the trivia cog: the validator
    `_check_time` (a regular expression) and the parser `strptime(s, "%H:%M")`
    that `_get_schedule` applies to the stored schedule. The two do not accept
    the same strings, and this module proves how they differ. */
module TimeText {
  import opened Wrappers

  predicate IsDigit(c: char)
  {
    '0' <= c <= '9'
  }

  function DigitValue(c: char): (d: int)
    requires IsDigit(c)
    ensures 0 <= d <= 9
  {
    c as int - '0' as int
  }

  function DigitChar(d: int): (c: char)
    requires 0 <= d <= 9
    ensures IsDigit(c) && DigitValue(c) == d
  {
    ('0' as int + d) as char
  }

  /** An hour and a minute as read from a schedule string. */
  datatype HourMinute = HourMinute(hour: int, minute: int)

  predicate ValidHM(hm: HourMinute)
  {
    0 <= hm.hour < 24 && 0 <= hm.minute < 60
  }

  /** The decimal value of the one or two digits `s[from..to]`. */
  function ValueAt(s: string, from: int, to: int): int
    requires 0 <= from < to <= |s| && to - from <= 2
    requires IsDigit(s[from]) && IsDigit(s[to - 1])
  {
    if to - from == 1 then DigitValue(s[from])
    else 10 * DigitValue(s[from]) + DigitValue(s[from + 1])
  }

  // ---------------------------------------------------------------------
  // Tokens, stated on positions of the whole string. The hour token is the
  // language of `[01]?[0-9]|2[0-3]`, which is also the language of
  // strptime's `%H` regex `2[0-3]|[0-1]\d|\d`.

  /** `s[..i]` is an hour token. */
  predicate HourTokenBefore(s: string, i: int)
  {
    || (i == 1 && |s| >= 1 && IsDigit(s[0]))
    || (i == 2 && |s| >= 2 && (s[0] == '0' || s[0] == '1') && IsDigit(s[1]))
    || (i == 2 && |s| >= 2 && s[0] == '2' && '0' <= s[1] <= '3')
  }

  /** `s[i..]` is `[0-5][0-9]`: the validator's minute, always two digits. */
  predicate TwoDigitMinuteFrom(s: string, i: int)
  {
    0 <= i && |s| == i + 2 && '0' <= s[i] <= '5' && IsDigit(s[i + 1])
  }

  /** `s[i..]` is strptime's minute `[0-5]\d|\d`: one digit is enough. */
  predicate MinuteTokenFrom(s: string, i: int)
  {
    TwoDigitMinuteFrom(s, i) || (0 <= i && |s| == i + 1 && IsDigit(s[i]))
  }

  // ---------------------------------------------------------------------
  // `_check_time`: re.match(r'^([01]?[0-9]|2[0-3]):[0-5][0-9]$', s)

  /** The whole of `s` is an hour token, a colon at index `i` and a
      two-digit minute. */
  predicate PatternAt(s: string, i: int)
  {
    1 <= i < |s| && s[i] == ':' && HourTokenBefore(s, i) && TwoDigitMinuteFrom(s, i + 1)
  }

  predicate WholePattern(s: string)
  {
    PatternAt(s, 1) || PatternAt(s, 2)
  }

  /** The validator. Python's `$` matches at the end of the string and also
      just before a newline that ends it, so one trailing "\n" is accepted. */
  function CheckTime(s: string): (r: bool)
    // "H:MM" is the shortest accepted string, "HH:MM\n" the longest
    ensures r ==> 4 <= |s| <= 6
  {
    || WholePattern(s)
    || (|s| > 0 && s[|s| - 1] == '\n' && WholePattern(s[..|s| - 1]))
  }

  // ---------------------------------------------------------------------
  // `datetime.strptime(s, "%H:%M")`: the format compiles to the regex
  // `(?P<H>2[0-3]|[0-1]\d|\d):(?P<M>[0-5]\d|\d)`, which is matched at the
  // start of `s`; the first match the alternation finds is taken, and a
  // match that does not reach the end of `s` is a ValueError
  // ("unconverted data remains").

  /** The strings strptime accepts, described without the regex machinery:
      an hour token, a colon at index `i`, and a minute token that runs to
      the end of `s`. */
  predicate ShapeAt(s: string, i: int)
  {
    1 <= i < |s| && s[i] == ':' && HourTokenBefore(s, i) && MinuteTokenFrom(s, i + 1)
  }

  function ShapeValue(s: string, i: int): HourMinute
    requires ShapeAt(s, i)
  {
    HourMinute(ValueAt(s, 0, i), ValueAt(s, i + 1, |s|))
  }

  /** One way an alternative of a group matches: the value it denotes and
      how many characters it consumes. */
  datatype Field = Field(value: int, width: int)

  /** Alternative number `k` of `%H` (`2[0-3]`, `[0-1]\d`, `\d` in the order
      the alternation tries them) at the start of `s`, if it matches. */
  function HourAlternative(s: string, k: int): (r: Option<Field>)
    ensures r.Some? ==> && (r.value.width == 1 || r.value.width == 2)
                        && HourTokenBefore(s, r.value.width)
                        && r.value.value == ValueAt(s, 0, r.value.width)
                        && 0 <= r.value.value < 24
  {
    if k == 0 && |s| >= 2 && s[0] == '2' && '0' <= s[1] <= '3' then
      Some(Field(20 + DigitValue(s[1]), 2))
    else if k == 1 && |s| >= 2 && (s[0] == '0' || s[0] == '1') && IsDigit(s[1]) then
      Some(Field(10 * DigitValue(s[0]) + DigitValue(s[1]), 2))
    else if k == 2 && |s| >= 1 && IsDigit(s[0]) then
      Some(Field(DigitValue(s[0]), 1))
    else
      None
  }

  /** The first alternative of `%M` (`[0-5]\d`, then `\d`) that matches at
      index `i` of `s`. */
  function MinuteAlternative(s: string, i: int): (r: Option<Field>)
    requires 0 <= i
    ensures r.Some? <==> i < |s| && IsDigit(s[i])
    ensures r.Some? ==> && (r.value.width == 1 || r.value.width == 2)
                        && i + r.value.width <= |s|
                        && IsDigit(s[i + r.value.width - 1])
                        && r.value.value == ValueAt(s, i, i + r.value.width)
                        && 0 <= r.value.value < 60
    ensures r.Some? && i + r.value.width == |s| <==> MinuteTokenFrom(s, i)
  {
    if i + 1 < |s| && '0' <= s[i] <= '5' && IsDigit(s[i + 1]) then
      Some(Field(10 * DigitValue(s[i]) + DigitValue(s[i + 1]), 2))
    else if i < |s| && IsDigit(s[i]) then
      Some(Field(DigitValue(s[i]), 1))
    else
      None
  }

  /** A successful match of the whole format at the start of a string:
      the two values and where the match ends. */
  datatype Match = Match(hour: int, minute: int, end: int)

  /** The first match of the format, trying the hour alternatives from the
      `k`-th on; a later hour alternative is tried only when the colon or
      the minute fails after an earlier one (backtracking). */
  function FirstMatch(s: string, k: nat): (r: Option<Match>)
    ensures r.Some? ==> ValidHM(HourMinute(r.value.hour, r.value.minute))
    ensures r.Some? ==> 3 <= r.value.end <= |s|
    decreases 3 - k
  {
    if k >= 3 then None
    else
      match HourAlternative(s, k)
      case None => FirstMatch(s, k + 1)
      case Some(h) =>
        if h.width < |s| && s[h.width] == ':' && MinuteAlternative(s, h.width + 1).Some? then
          var m := MinuteAlternative(s, h.width + 1).value;
          Some(Match(h.value, m.value, h.width + 1 + m.width))
        else
          FirstMatch(s, k + 1)
  }

  /** `strptime(s, "%H:%M")`: the hour and minute, or None where Python
      raises ValueError. */
  function ParseTime(s: string): (r: Option<HourMinute>)
    ensures r.Some? ==> ValidHM(r.value)
  {
    match FirstMatch(s, 0)
    case None => None
    case Some(m) => if m.end == |s| then Some(HourMinute(m.hour, m.minute)) else None
  }

  /** The parser accepts exactly the strings of the described shape, with
      the values the tokens spell. */
  lemma ParseTimeByShape(s: string)
    ensures ParseTime(s).Some? <==> ShapeAt(s, 1) || ShapeAt(s, 2)
    ensures ShapeAt(s, 1) ==> ParseTime(s) == Some(ShapeValue(s, 1))
    ensures ShapeAt(s, 2) ==> ParseTime(s) == Some(ShapeValue(s, 2))
  {
    if ShapeAt(s, 1) {
      assert HourAlternative(s, 0).None? && HourAlternative(s, 1).None?;
      assert HourAlternative(s, 2).Some?;
    } else if ShapeAt(s, 2) {
      if s[0] == '2' {
        assert HourAlternative(s, 0).Some?;
      } else {
        assert HourAlternative(s, 0).None? && HourAlternative(s, 1).Some?;
      }
    }
  }

  // ---------------------------------------------------------------------
  // What the validator accepts, as renderings of a valid time.

  /** The zero-padded rendering "HH:MM". */
  function Padded(hm: HourMinute): string
    requires ValidHM(hm)
  {
    [DigitChar(hm.hour / 10), DigitChar(hm.hour % 10), ':',
     DigitChar(hm.minute / 10), DigitChar(hm.minute % 10)]
  }

  /** The one-digit-hour rendering "H:MM" of an hour before ten. */
  function Unpadded(hm: HourMinute): string
    requires ValidHM(hm) && hm.hour < 10
  {
    [DigitChar(hm.hour), ':', DigitChar(hm.minute / 10), DigitChar(hm.minute % 10)]
  }

  /** `s` without the one trailing newline Python's `$` lets through. */
  function DropFinalNewline(s: string): string
  {
    if |s| > 0 && s[|s| - 1] == '\n' then s[..|s| - 1] else s
  }

  /** Two digits are recovered from the number they spell. */
  lemma DigitsOfValue(a: char, b: char)
    requires IsDigit(a) && IsDigit(b)
    ensures var v := 10 * DigitValue(a) + DigitValue(b);
            DigitChar(v / 10) == a && DigitChar(v % 10) == b
  {
    var v := 10 * DigitValue(a) + DigitValue(b);
    assert v / 10 == DigitValue(a) && v % 10 == DigitValue(b);
  }

  /** Every string the validator accepts is, once a final newline is
      dropped, the padded or one-digit rendering of a valid time, and the
      parser reads that time back from it. */
  lemma CheckTimeSound(s: string)
    requires CheckTime(s)
    ensures var b := DropFinalNewline(s);
            && ParseTime(b).Some?
            && ValidHM(ParseTime(b).value)
            && (|| b == Padded(ParseTime(b).value)
                || (ParseTime(b).value.hour < 10 && b == Unpadded(ParseTime(b).value)))
  {
    var b := DropFinalNewline(s);
    assert WholePattern(b);
    ParseTimeByShape(b);
    var hm := ParseTime(b).value;
    if PatternAt(b, 1) {
      assert ShapeAt(b, 1) && hm == ShapeValue(b, 1);
      DigitsOfValue(b[2], b[3]);
      assert b == Unpadded(hm);
    } else {
      assert ShapeAt(b, 2) && hm == ShapeValue(b, 2);
      DigitsOfValue(b[0], b[1]);
      DigitsOfValue(b[3], b[4]);
      assert b == Padded(hm);
    }
  }

  /** Conversely, the validator accepts every rendering of a valid time,
      with or without a final newline, and the parser reads the time back
      from the renderings without one. */
  lemma CheckTimeComplete(hm: HourMinute)
    requires ValidHM(hm)
    ensures CheckTime(Padded(hm)) && CheckTime(Padded(hm) + "\n")
    ensures ParseTime(Padded(hm)) == Some(hm)
    ensures hm.hour < 10 ==> CheckTime(Unpadded(hm)) && CheckTime(Unpadded(hm) + "\n")
    ensures hm.hour < 10 ==> ParseTime(Unpadded(hm)) == Some(hm)
  {
    var p := Padded(hm);
    assert PatternAt(p, 2);
    assert (p + "\n")[..|p + "\n"| - 1] == p;
    ParseTimeByShape(p);
    if hm.hour < 10 {
      var u := Unpadded(hm);
      assert PatternAt(u, 1);
      assert (u + "\n")[..|u + "\n"| - 1] == u;
      ParseTimeByShape(u);
    }
  }

  /** The examples of the validator's documentation, and the usual
      rejections. */
  lemma CheckTimeExamples()
    ensures CheckTime("1:24") && CheckTime("16:23") && CheckTime("00:00") && CheckTime("23:59")
    ensures !CheckTime("24:00") && !CheckTime("9:5") && !CheckTime("abc") && !CheckTime("12:60")
  {
  }

  /** The parser is laxer than the validator about a one-digit minute and
      stricter about a final newline. */
  lemma ValidatorAndParserDisagree()
    ensures !CheckTime("9:5") && ParseTime("9:5") == Some(HourMinute(9, 5))
    ensures CheckTime("12:34\n") && ParseTime("12:34\n").None?
  {
    ParseTimeByShape("9:5");
    ParseTimeByShape("12:34\n");
  }
}
