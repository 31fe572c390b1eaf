/** The report file name chosen by `save_report` in src/codesystem/crew.py: a timestamp in
    `%Y%m%d_%H%M%S` form and a base derived from the analysed file's name. */
module ReportFile {
  import opened Wrappers
  import opened PurePath

  /** The date and time components `datetime.now()` supplies. */
  datatype DateTime = DateTime(year: nat, month: nat, day: nat, hour: nat, minute: nat, second: nat)
  {
    /** A calendar date from year 1000 to 9999 (four-digit years) and a time of day. */
    predicate Valid() {
      && 1000 <= year <= 9999
      && 1 <= month <= 12
      && 1 <= day <= DaysInMonth(year, month)
      && hour < 24 && minute < 60 && second < 60
    }
  }

  predicate IsLeapYear(y: nat) {
    (y % 4 == 0 && y % 100 != 0) || y % 400 == 0
  }

  function DaysInMonth(y: nat, m: nat): nat {
    if m == 2 then (if IsLeapYear(y) then 29 else 28)
    else if m == 4 || m == 6 || m == 9 || m == 11 then 30
    else 31
  }

  function Pow10(n: nat): (p: nat)
    ensures p >= 1
  {
    if n == 0 then 1 else 10 * Pow10(n - 1)
  }

  predicate IsDigit(c: char) {
    '0' <= c <= '9'
  }

  predicate AllDigits(s: string) {
    forall k :: 0 <= k < |s| ==> IsDigit(s[k])
  }

  function DigitChar(d: nat): (c: char)
    requires d < 10
    ensures IsDigit(c)
  {
    (48 + d) as char
  }

  /** The last `width` decimal digits of `n`, zero-padded on the left. */
  function Digits(n: nat, width: nat): (r: string)
    ensures |r| == width && AllDigits(r)
  {
    if width == 0 then [] else Digits(n / 10, width - 1) + [DigitChar(n % 10)]
  }

  /** The number a string of decimal digits denotes. */
  function DigitsValue(s: string): (v: nat)
    requires AllDigits(s)
    ensures v < Pow10(|s|)
  {
    if s == [] then 0
    else DigitsValue(s[..|s| - 1]) * 10 + (s[|s| - 1] as int - 48)
  }

  /** A number below `10^width` is read back from its zero-padded digits. */
  lemma {:induction false} DigitsRoundTrip(n: nat, width: nat)
    requires n < Pow10(width)
    ensures DigitsValue(Digits(n, width)) == n
  {
    if width > 0 {
      var d := Digits(n, width);
      assert d[..width - 1] == Digits(n / 10, width - 1);
      DigitsRoundTrip(n / 10, width - 1);
    }
  }

  /** A string of digits is the zero-padded form of its own value. */
  lemma {:induction false} DigitsOfValue(s: string)
    requires AllDigits(s)
    ensures Digits(DigitsValue(s), |s|) == s
  {
    if s != [] {
      var init := s[..|s| - 1];
      var v := DigitsValue(s);
      assert v / 10 == DigitsValue(init) && v % 10 == s[|s| - 1] as int - 48;
      DigitsOfValue(init);
      assert s == init + [s[|s| - 1]];
    }
  }

  /** `now.strftime("%Y%m%d_%H%M%S")`. */
  function Timestamp(dt: DateTime): (ts: string)
    requires dt.Valid()
    ensures |ts| == 15 && ts[8] == '_'
    ensures AllDigits(ts[..8]) && AllDigits(ts[9..])
  {
    var ts := Digits(dt.year, 4) + Digits(dt.month, 2) + Digits(dt.day, 2) + "_"
      + Digits(dt.hour, 2) + Digits(dt.minute, 2) + Digits(dt.second, 2);
    assert ts[..8] == Digits(dt.year, 4) + Digits(dt.month, 2) + Digits(dt.day, 2);
    assert ts[9..] == Digits(dt.hour, 2) + Digits(dt.minute, 2) + Digits(dt.second, 2);
    ts
  }

  /** Reads a timestamp back: `None` unless it has the `%Y%m%d_%H%M%S` shape and names a
      valid date and time. */
  function ParseTimestamp(s: string): Option<DateTime> {
    if |s| == 15 && s[8] == '_' && AllDigits(s[..8]) && AllDigits(s[9..]) then
      var dt := DateTime(DigitsValue(s[..4]), DigitsValue(s[4..6]), DigitsValue(s[6..8]),
        DigitsValue(s[9..11]), DigitsValue(s[11..13]), DigitsValue(s[13..15]));
      if dt.Valid() then Some(dt) else None
    else None
  }

  /** The timestamp identifies the moment: parsing it gives back the components. */
  lemma TimestampRoundTrip(dt: DateTime)
    requires dt.Valid()
    ensures ParseTimestamp(Timestamp(dt)) == Some(dt)
  {
    var ts := Timestamp(dt);
    var head := Digits(dt.year, 4) + Digits(dt.month, 2) + Digits(dt.day, 2) + "_"
      + Digits(dt.hour, 2) + Digits(dt.minute, 2);
    var sec := Digits(dt.second, 2);
    assert ts == head + sec && |head| == 13 && |sec| == 2;
    assert ts[..4] == Digits(dt.year, 4);
    assert ts[4..6] == Digits(dt.month, 2);
    assert ts[6..8] == Digits(dt.day, 2);
    assert ts[9..11] == Digits(dt.hour, 2);
    assert ts[11..13] == Digits(dt.minute, 2);
    assert ts[13..] == sec && ts[13..15] == ts[13..];
    DigitsRoundTrip(dt.year, 4);
    DigitsRoundTrip(dt.month, 2);
    DigitsRoundTrip(dt.day, 2);
    DigitsRoundTrip(dt.hour, 2);
    DigitsRoundTrip(dt.minute, 2);
    DigitsRoundTrip(dt.second, 2);
  }

  lemma DigitsSlice(s: string, i: nat, j: nat)
    requires AllDigits(s) && i <= j <= |s|
    ensures AllDigits(s[i..j])
  {
    assert forall k :: 0 <= k < j - i ==> s[i..j][k] == s[i + k];
  }

  /** Each field of a timestamp-shaped string is the zero-padded form of its value. */
  lemma TimestampFields(s: string)
    requires |s| == 15 && AllDigits(s[..8]) && AllDigits(s[9..])
    ensures AllDigits(s[..4]) && Digits(DigitsValue(s[..4]), 4) == s[..4]
    ensures AllDigits(s[4..6]) && Digits(DigitsValue(s[4..6]), 2) == s[4..6]
    ensures AllDigits(s[6..8]) && Digits(DigitsValue(s[6..8]), 2) == s[6..8]
    ensures AllDigits(s[9..11]) && Digits(DigitsValue(s[9..11]), 2) == s[9..11]
    ensures AllDigits(s[11..13]) && Digits(DigitsValue(s[11..13]), 2) == s[11..13]
    ensures AllDigits(s[13..15]) && Digits(DigitsValue(s[13..15]), 2) == s[13..15]
  {
    DigitsSlice(s[..8], 0, 4);
    DigitsSlice(s[..8], 4, 6);
    DigitsSlice(s[..8], 6, 8);
    DigitsSlice(s[9..], 0, 2);
    DigitsSlice(s[9..], 2, 4);
    DigitsSlice(s[9..], 4, 6);
    assert s[..4] == s[..8][0..4] && s[4..6] == s[..8][4..6] && s[6..8] == s[..8][6..8];
    assert s[9..11] == s[9..][0..2] && s[11..13] == s[9..][2..4] && s[13..15] == s[9..][4..6];
    DigitsOfValue(s[..4]);
    DigitsOfValue(s[4..6]);
    DigitsOfValue(s[6..8]);
    DigitsOfValue(s[9..11]);
    DigitsOfValue(s[11..13]);
    DigitsOfValue(s[13..15]);
  }

  /** Every string that parses is the timestamp of what it parses to. */
  lemma ParseTimestampExact(s: string)
    requires ParseTimestamp(s).Some?
    ensures Timestamp(ParseTimestamp(s).value) == s
  {
    TimestampFields(s);
    assert s == s[..4] + s[4..6] + s[6..8] + "_" + s[9..11] + s[11..13] + s[13..15];
  }

  /** A character the pattern `[^\w\-_]` leaves alone: an ASCII letter, digit, `_` or `-`. */
  predicate IsAllowed(c: char) {
    ('a' <= c <= 'z') || ('A' <= c <= 'Z') || IsDigit(c) || c == '_' || c == '-'
  }

  /** `re.sub(r'[^\w\-_]', '_', s)`: every other character becomes `_`. */
  function Sanitize(s: string): (r: string)
    ensures |r| == |s|
    ensures forall k :: 0 <= k < |r| ==> IsAllowed(r[k])
    ensures forall k :: 0 <= k < |s| ==> r[k] == (if IsAllowed(s[k]) then s[k] else '_')
  {
    if s == [] then []
    else [if IsAllowed(s[0]) then s[0] else '_'] + Sanitize(s[1..])
  }

  /** Sanitising changes nothing in a string of allowed characters, so sanitising twice is
      sanitising once. */
  lemma SanitizeIdempotent(s: string)
    ensures (forall k :: 0 <= k < |s| ==> IsAllowed(s[k])) ==> Sanitize(s) == s
    ensures Sanitize(Sanitize(s)) == Sanitize(s)
  {
  }

  /** The name of the saved report: `<sanitised stem>_analysis_<ts>.docx` when a file name
      is given (any non-empty string), `<base>_<ts>.docx` otherwise. */
  function ReportFileName(fileName: string, base: string, dt: DateTime): string
    requires dt.Valid()
  {
    if fileName != "" then Sanitize(Stem(Name(fileName))) + "_analysis_" + Timestamp(dt) + ".docx"
    else base + "_" + Timestamp(dt) + ".docx"
  }

  /** The two forms of the report name: both end in the timestamp and `.docx`; with a file
      name, the name is exactly the sanitised stem, `_analysis_`, the timestamp and `.docx`:
      the part before `_analysis_` is made of allowed characters and is as long as the
      file's stem, and nothing else comes between. */
  lemma ReportFileNameForms(fileName: string, base: string, dt: DateTime)
    requires dt.Valid()
    ensures var n := ReportFileName(fileName, base, dt);
      && |n| >= 20
      && n[|n| - 5..] == ".docx"
      && ParseTimestamp(n[|n| - 20..|n| - 5]) == Some(dt)
      && (fileName == "" ==> n == base + "_" + Timestamp(dt) + ".docx")
      && (fileName != "" ==>
            var b := Sanitize(Stem(Name(fileName)));
            && |b| == |Stem(Name(fileName))| && |n| == |b| + 30
            && n[..|b|] == b && n[|b|..|b| + 10] == "_analysis_"
            && n[|b| + 10..|b| + 25] == Timestamp(dt)
            && forall k :: 0 <= k < |b| ==> IsAllowed(n[k]))
  {
    var n := ReportFileName(fileName, base, dt);
    var ts := Timestamp(dt);
    var head := if fileName != "" then Sanitize(Stem(Name(fileName))) + "_analysis_" else base + "_";
    assert n == head + ts + ".docx";
    assert n[|n| - 20..|n| - 5] == ts;
    TimestampRoundTrip(dt);
  }

  /** A file name with a last path component gives a non-empty report base; only a name
      without one, such as `/`, leaves the part before `_analysis_` empty. */
  lemma ReportBaseNonEmpty(fileName: string)
    ensures Sanitize(Stem(Name(fileName))) != [] <==> Name(fileName) != []
  {
  }

  /** For a file found in any directory, `app.py` gives `app_analysis_<ts>.docx`. */
  lemma ReportFileNameExample(dir: string, dt: DateTime)
    requires dt.Valid()
    ensures ReportFileName(dir + "/app.py", "code_analysis_report", dt)
      == "app_analysis_" + Timestamp(dt) + ".docx"
  {
    AppStem(dir);
    assert Sanitize("app") == "app";
  }

  lemma AppStem(dir: string)
    ensures Stem(Name(dir + "/app.py")) == "app"
  {
    NameOfChild(dir, "app.py");
    assert dir + "/" + "app.py" == dir + "/app.py";
    assert "app" + ".py" == "app.py";
    SuffixOfDotted("app", ".py");
  }
}
