/**
 * The settings row of the allocation engine and the parser of its
 * comma-separated list of check offsets (`Setting.check_windows`), together
 * with the serialiser that writes the list back (`",".join(str(x) for x in xs)`).
 *
 * Every time of day and every duration is an integer number of minutes;
 * times of day count from midnight of the operating day.
 */
module Settings {
  import opened Wrappers

  datatype Settings = Settings(
    start: int,               // opening of the operating window
    end: int,                 // close of the operating window
    shiftMin: int,            // standard slot length (shift_hours)
    specialMin: int,          // extended slot length (special_hours)
    lunchMin: int,
    dinnerMin: int,
    showerMin: int,
    maxConcurrentLunch: int,
    checkWindowsMin: string,  // comma-separated check offsets from `start`
    checkWindowLenMin: int)

  /** The field defaults of the settings row: 09:00-22:00, 2h and 1.5h slots. */
  const Defaults: Settings :=
    Settings(9 * 60, 22 * 60, 120, 90, 20, 10, 10, 2, "30,60,90,120", 10)

  /** A missing settings row is a configuration error. */
  datatype ConfigError = SettingsMissing

  function LoadSettings(row: Option<Settings>): (r: Result<Settings, ConfigError>)
    ensures r.Err? <==> row.None?
    ensures r.Ok? ==> r.value == row.value
  {
    match row
    case None => Err(SettingsMissing)
    case Some(s) => Ok(s)
  }

  // ---------------------------------------------------------------------
  // str.split(",")
  // ---------------------------------------------------------------------

  /** The segments of `s` between commas, as Python's `s.split(",")`: never empty. */
  function Split(s: string): (r: seq<string>)
    ensures |r| >= 1
  {
    if s == [] then [[]]
    else if s[0] == ',' then [[]] + Split(s[1..])
    else
      var rest := Split(s[1..]);
      [[s[0]] + rest[0]] + rest[1..]
  }

  /** The segments glued back together with commas (`",".join`). */
  function JoinWith(segs: seq<string>): string
  {
    if |segs| == 0 then []
    else if |segs| == 1 then segs[0]
    else segs[0] + [','] + JoinWith(segs[1..])
  }

  lemma {:induction false} SplitConcat(a: string, b: string)
    ensures Split(a + [','] + b) == Split(a) + Split(b)
  {
    if a == [] {
      assert a + [','] + b == [','] + b;
      assert ([','] + b)[1..] == b;
    } else {
      assert (a + [','] + b)[1..] == a[1..] + [','] + b;
      SplitConcat(a[1..], b);
    }
  }

  lemma {:induction false} SplitNoComma(s: string)
    requires ',' !in s
    ensures Split(s) == [s]
  {
    if s != [] {
      assert s[0] != ',' && ',' !in s[1..];
      SplitNoComma(s[1..]);
      assert s == [s[0]] + s[1..];
    }
  }

  /** No segment contains a comma, and joining the segments gives back the string. */
  lemma {:induction false} SplitJoin(s: string)
    ensures forall i :: 0 <= i < |Split(s)| ==> ',' !in Split(s)[i]
    ensures JoinWith(Split(s)) == s
  {
    if s != [] {
      SplitJoin(s[1..]);
      var rest := Split(s[1..]);
      if s[0] == ',' {
        assert Split(s) == [[]] + rest;
        if |rest| == 1 {
          assert JoinWith(Split(s)) == [] + [','] + rest[0];
        } else {
          assert (Split(s))[1..] == rest;
        }
        assert s == [','] + s[1..];
      } else {
        assert Split(s) == [[s[0]] + rest[0]] + rest[1..];
        forall i | 0 <= i < |Split(s)| ensures ',' !in Split(s)[i] {
          if i > 0 { assert Split(s)[i] == rest[i]; }
        }
        if |rest| == 1 {
          assert JoinWith(Split(s)) == [s[0]] + rest[0];
        } else {
          assert JoinWith(rest) == rest[0] + [','] + JoinWith(rest[1..]);
          assert Split(s)[1..] == rest[1..];
          assert JoinWith(Split(s)) == [s[0]] + rest[0] + [','] + JoinWith(rest[1..]);
        }
        assert s == [s[0]] + s[1..];
      }
    }
  }

  // ---------------------------------------------------------------------
  // The `if v` filter of the comprehension
  // ---------------------------------------------------------------------

  /** The non-empty segments, in their original order. */
  function NonEmpty(segs: seq<string>): (r: seq<string>)
    ensures |r| <= |segs|
    ensures forall i :: 0 <= i < |r| ==> r[i] != []
  {
    if segs == [] then []
    else if segs[0] == [] then NonEmpty(segs[1..])
    else [segs[0]] + NonEmpty(segs[1..])
  }

  lemma {:induction false} NonEmptyConcat(a: seq<string>, b: seq<string>)
    ensures NonEmpty(a + b) == NonEmpty(a) + NonEmpty(b)
  {
    if a != [] {
      assert (a + b)[1..] == a[1..] + b;
      NonEmptyConcat(a[1..], b);
    } else {
      assert a + b == b;
    }
  }

  lemma {:induction false} NonEmptyKeepsAll(segs: seq<string>)
    requires forall i :: 0 <= i < |segs| ==> segs[i] != []
    ensures NonEmpty(segs) == segs
  {
    if segs != [] {
      NonEmptyKeepsAll(segs[1..]);
    }
  }

  // ---------------------------------------------------------------------
  // int(v) on one segment
  // ---------------------------------------------------------------------

  predicate IsDigit(c: char) { '0' <= c <= '9' }

  predicate AllDigits(s: string) { forall i :: 0 <= i < |s| ==> IsDigit(s[i]) }

  /** The value of a decimal numeral. */
  function DigitsValue(s: string): nat
    requires AllDigits(s)
  {
    if s == [] then 0
    else DigitsValue(s[..|s| - 1]) * 10 + (s[|s| - 1] as int - '0' as int)
  }

  predicate IsNumeral(v: string)
  {
    if |v| > 0 && (v[0] == '-' || v[0] == '+') then |v| > 1 && AllDigits(v[1..])
    else |v| > 0 && AllDigits(v)
  }

  /** `int(v)`: an optionally signed decimal numeral, and nothing else, has a value. */
  function ParseInt(v: string): (r: Option<int>)
    ensures r.Some? <==> IsNumeral(v)
  {
    if |v| > 0 && (v[0] == '-' || v[0] == '+') then
      if |v| > 1 && AllDigits(v[1..]) then
        Some(if v[0] == '-' then -(DigitsValue(v[1..]) as int) else DigitsValue(v[1..]))
      else None
    else if |v| > 0 && AllDigits(v) then Some(DigitsValue(v))
    else None
  }

  /** `[int(v) for v in segs]`: fails as soon as one segment is not a numeral. */
  function ParseAll(segs: seq<string>): (r: Option<seq<int>>)
    ensures r.Some? <==> forall i :: 0 <= i < |segs| ==> ParseInt(segs[i]).Some?
    ensures r.Some? ==> |r.value| == |segs|
    ensures r.Some? ==> forall i :: 0 <= i < |segs| ==> r.value[i] == ParseInt(segs[i]).value
  {
    if segs == [] then Some([])
    else
      match ParseInt(segs[0])
      case None => None
      case Some(x) =>
        match ParseAll(segs[1..])
        case None => None
        case Some(rest) => Some([x] + rest)
  }

  /**
   * `Setting.check_windows`: the integers of the non-empty comma-separated
   * segments, in their order; a segment that is not a numeral makes it fail
   * (Python raises ValueError).
   */
  function CheckWindows(s: string): (r: Option<seq<int>>)
    ensures r.Some? <==> forall v :: v in NonEmpty(Split(s)) ==> IsNumeral(v)
    ensures r.Some? ==> |r.value| == |NonEmpty(Split(s))|
    ensures r.Some? ==> forall i :: 0 <= i < |r.value| ==>
                          r.value[i] == ParseInt(NonEmpty(Split(s))[i]).value
  {
    ParseAll(NonEmpty(Split(s)))
  }

  lemma EmptyHasNoWindows()
    ensures CheckWindows("") == Some([])
  {
    assert Split("") == [[]];
  }

  /** A doubled comma reads as a single one. */
  lemma DoubleCommaIgnored(a: string, b: string)
    ensures CheckWindows(a + ",," + b) == CheckWindows(a + "," + b)
  {
    assert a + ",," + b == a + [','] + ([','] + b);
    assert a + "," + b == a + [','] + b;
    SplitConcat(a, [','] + b);
    SplitConcat([], b);
    assert [] + [','] + b == [','] + b;
    SplitConcat(a, b);
    NonEmptyConcat(Split(a), Split([]) + Split(b));
    NonEmptyConcat(Split([]), Split(b));
    NonEmptyConcat(Split(a), Split(b));
  }

  /** A trailing comma changes nothing. */
  lemma TrailingCommaIgnored(a: string)
    ensures CheckWindows(a + ",") == CheckWindows(a)
  {
    assert a + "," == a + [','] + [];
    SplitConcat(a, []);
    NonEmptyConcat(Split(a), Split([]));
    assert NonEmpty(Split([])) == [];
    assert NonEmpty(Split(a)) + [] == NonEmpty(Split(a));
  }

  /** A leading comma changes nothing. */
  lemma LeadingCommaIgnored(b: string)
    ensures CheckWindows("," + b) == CheckWindows(b)
  {
    assert "," + b == [] + [','] + b;
    SplitConcat([], b);
    NonEmptyConcat(Split([]), Split(b));
  }

  // ---------------------------------------------------------------------
  // The serialiser: ",".join(str(x) for x in xs)
  // ---------------------------------------------------------------------

  function DigitChar(d: nat): char
    requires d < 10
  {
    ('0' as int + d) as char
  }

  /** `str(n)` for a natural number: a non-empty decimal numeral. */
  function NatToString(n: nat): (r: string)
    ensures |r| > 0 && AllDigits(r)
  {
    if n < 10 then [DigitChar(n)]
    else NatToString(n / 10) + [DigitChar(n % 10)]
  }

  /** `str(x)` for an integer. */
  function IntToString(x: int): string
  {
    if x < 0 then "-" + NatToString(-x) else NatToString(x)
  }

  /** `str(x) for x in xs`. */
  function Rendered(xs: seq<int>): (r: seq<string>)
    ensures |r| == |xs|
    ensures forall i :: 0 <= i < |xs| ==> r[i] == IntToString(xs[i])
  {
    seq(|xs|, i requires 0 <= i < |xs| => IntToString(xs[i]))
  }

  /** `",".join(str(x) for x in xs)`. */
  function Serialize(xs: seq<int>): string
  {
    JoinWith(Rendered(xs))
  }

  lemma {:induction false} NatToStringValue(n: nat)
    ensures DigitsValue(NatToString(n)) == n
  {
    if n >= 10 {
      NatToStringValue(n / 10);
      var s := NatToString(n);
      assert s[..|s| - 1] == NatToString(n / 10);
    }
  }

  lemma IntToStringParses(x: int)
    ensures ',' !in IntToString(x)
    ensures ParseInt(IntToString(x)) == Some(x)
  {
    var d := NatToString(if x < 0 then -x else x);
    NatToStringValue(if x < 0 then -x else x);
    if x < 0 {
      assert IntToString(x)[1..] == d;
      assert ',' !in d by { assert forall i :: 0 <= i < |d| ==> IsDigit(d[i]); }
    } else {
      assert ',' !in d by { assert forall i :: 0 <= i < |d| ==> IsDigit(d[i]); }
    }
  }

  /** Splitting what was joined gives back the segments, when none holds a comma. */
  lemma {:induction false} SplitOfJoin(segs: seq<string>)
    requires |segs| >= 1
    requires forall i :: 0 <= i < |segs| ==> ',' !in segs[i]
    ensures Split(JoinWith(segs)) == segs
  {
    SplitNoComma(segs[0]);
    if |segs| > 1 {
      SplitOfJoin(segs[1..]);
      SplitConcat(segs[0], JoinWith(segs[1..]));
      assert segs == [segs[0]] + segs[1..];
    }
  }

  /** Round trip: what the settings screen and the YAML import save parses back unchanged. */
  lemma CheckWindowsRoundTrip(xs: seq<int>)
    ensures CheckWindows(Serialize(xs)) == Some(xs)
  {
    if xs == [] {
      EmptyHasNoWindows();
    } else {
      var segs := Rendered(xs);
      forall i | 0 <= i < |segs| ensures ',' !in segs[i] && segs[i] != [] && ParseInt(segs[i]) == Some(xs[i]) {
        IntToStringParses(xs[i]);
      }
      SplitOfJoin(segs);
      NonEmptyKeepsAll(segs);
      var r := CheckWindows(Serialize(xs));
      assert r.Some?;
      assert r.value == xs;
    }
  }

  /** "30,60,90,120" is how the offsets [30, 60, 90, 120] are written. */
  lemma DefaultsSerialized()
    ensures Serialize([30, 60, 90, 120]) == Defaults.checkWindowsMin
  {
    assert NatToString(30) == "30";
    assert NatToString(60) == "60";
    assert NatToString(90) == "90";
    assert NatToString(120) == "120";
  }

  /** The default offsets "30,60,90,120" read as [30, 60, 90, 120]. */
  lemma DefaultCheckWindows()
    ensures CheckWindows(Defaults.checkWindowsMin) == Some([30, 60, 90, 120])
  {
    DefaultsSerialized();
    CheckWindowsRoundTrip([30, 60, 90, 120]);
  }
}
