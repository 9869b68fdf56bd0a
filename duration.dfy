/** The duration helpers: the h/m/s shorthand that `seconds_to_human_shorthand_duration`
    prints, a reader for that shorthand, and `word_count_to_seconds`. */
module Duration {
  import opened Wrappers

  /*** Hours, minutes and seconds ***/

  /** Splits a second count into whole hours, minutes and seconds. */
  function Decompose(seconds: nat): (hms: (nat, nat, nat))
    ensures hms.1 < 60 && hms.2 < 60
    ensures 3600 * hms.0 + 60 * hms.1 + hms.2 == seconds
  {
    (seconds / 3600, (seconds % 3600) / 60, seconds % 60)
  }

  /** The decomposition is the only one with minutes and seconds below 60. */
  lemma DecomposeUnique(seconds: nat, h: nat, m: nat, s: nat)
    requires m < 60 && s < 60
    requires 3600 * h + 60 * m + s == seconds
    ensures Decompose(seconds) == (h, m, s)
  {
    var (h', m', s') := Decompose(seconds);
    assert 3600 * (h - h') == 60 * (m' - m) + (s' - s);
  }

  /*** Decimal numerals ***/

  predicate IsDigits(s: string) {
    forall i :: 0 <= i < |s| ==> '0' <= s[i] <= '9'
  }

  function DigitChar(d: nat): (c: char)
    requires d < 10
    ensures '0' <= c <= '9' && c as int - '0' as int == d
  {
    ('0' as int + d) as char
  }

  /** `format!("{}", n)`: the decimal numeral of `n`, without leading zeros. */
  function NatToString(n: nat): (s: string)
    ensures |s| >= 1 && IsDigits(s)
    ensures |s| > 1 ==> s[0] != '0'
    decreases n
  {
    if n < 10 then [DigitChar(n)] else NatToString(n / 10) + [DigitChar(n % 10)]
  }

  /** The value of a decimal numeral. */
  function DigitsValue(s: string): nat
    requires IsDigits(s)
  {
    if s == [] then 0
    else 10 * DigitsValue(s[..|s| - 1]) + (s[|s| - 1] as int - '0' as int)
  }

  lemma {:induction false} NumeralRoundTrip(n: nat)
    ensures DigitsValue(NatToString(n)) == n
    decreases n
  {
    if n >= 10 {
      NumeralRoundTrip(n / 10);
      var s := NatToString(n);
      assert s[..|s| - 1] == NatToString(n / 10);
    }
  }

  /*** Fields joined by single spaces ***/

  /** The strings of `parts` with one space between neighbours. */
  function Join(parts: seq<string>): string {
    if |parts| == 0 then ""
    else if |parts| == 1 then parts[0]
    else parts[0] + " " + Join(parts[1..])
  }

  /** The fields of `s` between single spaces; the inverse of `Join`. */
  function Split(s: string): (fields: seq<string>)
    ensures |fields| >= 1
  {
    if s == [] then [""]
    else
      var rest := Split(s[1..]);
      if s[0] == ' ' then [""] + rest else [[s[0]] + rest[0]] + rest[1..]
  }

  predicate NoSpace(s: string) {
    forall i :: 0 <= i < |s| ==> s[i] != ' '
  }

  lemma {:induction false} SplitField(a: string, rest: string)
    requires NoSpace(a)
    ensures Split(a + rest) == [a + Split(rest)[0]] + Split(rest)[1..]
    decreases |a|
  {
    var fields := Split(rest);
    if a == [] {
      assert a + rest == rest;
      assert a + fields[0] == fields[0];
      assert fields == [fields[0]] + fields[1..];
    } else {
      assert (a + rest)[0] == a[0] && a[0] != ' ';
      assert (a + rest)[1..] == a[1..] + rest;
      SplitField(a[1..], rest);
      var r := Split(a[1..] + rest);
      assert r == [a[1..] + fields[0]] + fields[1..];
      assert Split(a + rest) == [[a[0]] + r[0]] + r[1..];
      assert [a[0]] + (a[1..] + fields[0]) == a + fields[0];
    }
  }

  /** Joining fields free of spaces and splitting the result gives the
      fields back. */
  lemma {:induction false} SplitJoin(parts: seq<string>)
    requires |parts| >= 1
    requires forall k :: 0 <= k < |parts| ==> NoSpace(parts[k])
    ensures Split(Join(parts)) == parts
    decreases |parts|
  {
    if |parts| == 1 {
      SplitField(parts[0], "");
      assert parts[0] + "" == parts[0];
      assert Split("") == [""];
    } else {
      var j := Join(parts[1..]);
      SplitJoin(parts[1..]);
      assert (" " + j)[1..] == j;
      assert Split(" " + j) == [""] + Split(j);
      SplitField(parts[0], " " + j);
      assert parts[0] + " " + j == parts[0] + (" " + j);
      assert parts[0] + "" == parts[0];
      assert parts == [parts[0]] + parts[1..];
    }
  }

  /** Joining non-empty fields free of spaces gives a string with no
      leading, trailing or doubled space. */
  lemma {:induction false} JoinShape(parts: seq<string>)
    requires forall k :: 0 <= k < |parts| ==> parts[k] != [] && NoSpace(parts[k])
    ensures Join(parts) == "" <==> parts == []
    ensures Join(parts) != "" ==> Join(parts)[0] != ' ' && Join(parts)[|Join(parts)| - 1] != ' '
    ensures forall i :: 0 <= i < |Join(parts)| - 1 && Join(parts)[i] == ' ' ==> Join(parts)[i + 1] != ' '
    decreases |parts|
  {
    if |parts| > 1 {
      JoinShape(parts[1..]);
      var a, b := parts[0], Join(parts[1..]);
      var s := Join(parts);
      assert s == a + " " + b;
      forall i | 0 <= i < |s| - 1 ensures s[i] == ' ' ==> s[i + 1] != ' ' {
        if i < |a| {
          assert s[i] == a[i];
        } else if i == |a| {
          assert s[i + 1] == b[0];
        } else {
          assert s[i] == b[i - |a| - 1] && s[i + 1] == b[i - |a|];
        }
      }
    }
  }

  /*** The shorthand ***/

  /** The non-zero components of `seconds`, hours first, each a numeral
      with its unit letter. */
  function Components(seconds: nat): seq<string> {
    var hms := Decompose(seconds);
    Fields(hms.0, hms.1, hms.2)
  }

  /** The fields for `h` hours, `m` minutes and `s` seconds, zeros left out. */
  function Fields(h: nat, m: nat, s: nat): seq<string> {
    OptField(h, 'h') + OptField(m, 'm') + OptField(s, 's')
  }

  /** The field of `n` in unit `unit`, such as `30m`, or none when `n` is 0. */
  function OptField(n: nat, unit: char): seq<string> {
    if n > 0 then [NatToString(n) + [unit]] else []
  }

  /** The shorthand of a second count, such as `1h 1m 1s`. */
  function Shorthand(seconds: nat): string {
    Join(Components(seconds))
  }

  /** `seconds_to_human_shorthand_duration`: appends each non-zero component
      in turn, with a space first when something is already written. */
  method SecondsToHumanShorthand(seconds: nat) returns (formatted: string)
    ensures formatted == Shorthand(seconds)
    ensures formatted == "" <==> seconds == 0
    ensures ReadShorthand(formatted) == Some(seconds)
  {
    var hours := seconds / 3600;
    var minutes := (seconds % 3600) / 60;
    var secs := seconds % 60;
    formatted := "";
    ghost var parts: seq<string> := [];

    if hours > 0 {
      JoinSnoc(parts, NatToString(hours) + "h");
      formatted := formatted + (NatToString(hours) + "h");
      parts := parts + [NatToString(hours) + "h"];
    }
    assert formatted == Join(parts) && (formatted == "" <==> parts == []);

    if minutes > 0 {
      JoinSnoc(parts, NatToString(minutes) + "m");
      if |formatted| > 0 {
        formatted := formatted + " ";
      }
      formatted := formatted + (NatToString(minutes) + "m");
      parts := parts + [NatToString(minutes) + "m"];
    }
    assert formatted == Join(parts) && (formatted == "" <==> parts == []);

    if secs > 0 {
      JoinSnoc(parts, NatToString(secs) + "s");
      if |formatted| > 0 {
        formatted := formatted + " ";
      }
      formatted := formatted + (NatToString(secs) + "s");
      parts := parts + [NatToString(secs) + "s"];
    }

    assert formatted == Join(parts);
    assert Decompose(seconds) == (hours, minutes, secs);
    assert parts == Fields(hours, minutes, secs);
    ShorthandEmptyIffZero(seconds);
    ShorthandRoundTrip(seconds);
  }

  lemma {:induction false} JoinSnoc(parts: seq<string>, x: string)
    ensures Join(parts + [x]) == if parts == [] then x else Join(parts) + " " + x
    decreases |parts|
  {
    if |parts| > 1 {
      JoinSnoc(parts[1..], x);
      assert (parts + [x])[1..] == parts[1..] + [x];
    } else if |parts| == 1 {
      assert (parts + [x])[1..] == [x];
    }
  }

  /** Every component is a numeral followed by one unit letter. */
  lemma ComponentsAreFields(seconds: nat)
    ensures forall k :: 0 <= k < |Components(seconds)| ==>
      Components(seconds)[k] != [] && NoSpace(Components(seconds)[k])
  {
  }

  /** The shorthand is empty exactly for zero seconds. */
  lemma ShorthandEmptyIffZero(seconds: nat)
    ensures Shorthand(seconds) == "" <==> seconds == 0
  {
    ComponentsAreFields(seconds);
    JoinShape(Components(seconds));
  }

  /** The shorthand has no leading, trailing or doubled space. */
  lemma ShorthandShape(seconds: nat)
    ensures var s := Shorthand(seconds);
            && (s != "" ==> s[0] != ' ' && s[|s| - 1] != ' ')
            && forall i :: 0 <= i < |s| - 1 && s[i] == ' ' ==> s[i + 1] != ' '
  {
    ComponentsAreFields(seconds);
    JoinShape(Components(seconds));
  }

  /*** Reading the shorthand back ***/

  function UnitSeconds(unit: char): Option<nat> {
    if unit == 'h' then Some(3600)
    else if unit == 'm' then Some(60)
    else if unit == 's' then Some(1)
    else None
  }

  /** The seconds of one field such as `30m`, or None if it is malformed. */
  function FieldSeconds(field: string): Option<nat> {
    if |field| < 2 || !IsDigits(field[..|field| - 1]) then None
    else
      match UnitSeconds(field[|field| - 1])
      case None => None
      case Some(k) => Some(k * DigitsValue(field[..|field| - 1]))
  }

  function SumFields(fields: seq<string>): Option<nat> {
    if fields == [] then Some(0)
    else
      match FieldSeconds(fields[0])
      case None => None
      case Some(v) =>
        match SumFields(fields[1..])
        case None => None
        case Some(w) => Some(v + w)
  }

  /** The number of seconds a shorthand stands for; the empty shorthand
      stands for zero. */
  function ReadShorthand(s: string): Option<nat> {
    if s == "" then Some(0) else SumFields(Split(s))
  }

  lemma FieldRoundTrip(n: nat, unit: char)
    requires UnitSeconds(unit).Some?
    ensures FieldSeconds(NatToString(n) + [unit]) == Some(UnitSeconds(unit).value * n)
  {
    var f := NatToString(n) + [unit];
    assert f[..|f| - 1] == NatToString(n);
    NumeralRoundTrip(n);
  }

  /** Reading one more field in front adds its seconds. */
  lemma SumFieldsCons(f: string, v: nat, rest: seq<string>, w: nat)
    requires FieldSeconds(f) == Some(v) && SumFields(rest) == Some(w)
    ensures SumFields([f] + rest) == Some(v + w)
  {
    assert ([f] + rest)[0] == f && ([f] + rest)[1..] == rest;
  }

  /** An optional field in front adds its seconds. */
  lemma OptFieldCons(n: nat, unit: char, k: nat, rest: seq<string>, w: nat)
    requires UnitSeconds(unit) == Some(k) && SumFields(rest) == Some(w)
    ensures SumFields(OptField(n, unit) + rest) == Some(k * n + w)
  {
    if n > 0 {
      FieldRoundTrip(n, unit);
      SumFieldsCons(NatToString(n) + [unit], k * n, rest, w);
    } else {
      assert OptField(n, unit) + rest == rest;
    }
  }

  /** The fields of `h`, `m` and `s` add up to `3600h + 60m + s` seconds. */
  lemma SumOfFields(h: nat, m: nat, s: nat)
    ensures SumFields(Fields(h, m, s)) == Some(3600 * h + 60 * m + s)
  {
    var hs, ms, ss := OptField(h, 'h'), OptField(m, 'm'), OptField(s, 's');
    assert Fields(h, m, s) == hs + (ms + ss);
    MinutesAndSecondsFields(m, s);
    OptFieldCons(h, 'h', 3600, ms + ss, 60 * m + s);
  }

  lemma MinutesAndSecondsFields(m: nat, s: nat)
    ensures SumFields(OptField(m, 'm') + OptField(s, 's')) == Some(60 * m + s)
  {
    OptFieldCons(s, 's', 1, [], 0);
    assert OptField(s, 's') + [] == OptField(s, 's');
    OptFieldCons(m, 'm', 60, OptField(s, 's'), s);
  }

  /** Reading the shorthand of a second count gives that count back. */
  lemma ShorthandRoundTrip(seconds: nat)
    ensures ReadShorthand(Shorthand(seconds)) == Some(seconds)
  {
    ShorthandEmptyIffZero(seconds);
    if seconds != 0 {
      var hms := Decompose(seconds);
      ComponentsAreFields(seconds);
      SplitJoin(Components(seconds));
      SumOfFields(hms.0, hms.1, hms.2);
    }
  }

  /*** Words to seconds ***/

  /** 2^53: below it every integer is exact as an `f64`. */
  const ExactLimit: nat := 0x20_0000_0000_0000

  /** `f64::round` of the quotient `num / den`: the nearest integer, a tie
      rounded away from zero (here: up, as the quotient is not negative). */
  function RoundHalfAwayFromZero(num: nat, den: nat): (r: nat)
    requires den > 0
    ensures -(den as int) < 2 * den * r - 2 * num <= den
  {
    (2 * num + den) / (2 * den)
  }

  /** `word_count_to_seconds`: `word_count * 2.5` rounded. With
      `5 * wordCount` below 2^53 the product `5 * wordCount / 2` is exact in
      an `f64`, so it is the rounding of that quotient. */
  function WordCountToSeconds(wordCount: nat): (secs: nat)
    requires 5 * wordCount < ExactLimit
    ensures 5 * wordCount <= 2 * secs <= 5 * wordCount + 1
  {
    RoundHalfAwayFromZero(5 * wordCount, 2)
  }

  /** The closed form: `(5n + 1) / 2`. */
  lemma WordCountToSecondsClosedForm(wordCount: nat)
    requires 5 * wordCount < ExactLimit
    ensures WordCountToSeconds(wordCount) == (5 * wordCount + 1) / 2
  {
  }

  /** More words never take less time, and every extra word takes time. */
  lemma WordCountToSecondsMonotone(n: nat, m: nat)
    requires 5 * m < ExactLimit
    requires n <= m
    ensures WordCountToSeconds(n) <= WordCountToSeconds(m)
    ensures n < m ==> WordCountToSeconds(n) < WordCountToSeconds(m)
  {
  }
}
