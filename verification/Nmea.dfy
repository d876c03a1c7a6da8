/**
 The recommended-minimum (RMC) sentence: the line that the GPS server prints, the framing and the
 tokens of the reader, and the coordinates that come back. Coordinates are exact reals.
 */
module Nmea {
  import opened Decimal

  // ---------------------------------------------------------------------------------------
  // Coordinates
  // ---------------------------------------------------------------------------------------

  /** A coordinate without its sign as degrees, minutes and ten-thousandths of a minute. */
  datatype Dms = Dms(degrees: nat, minutes: nat, fraction: nat)

  function Split(x: real): (d: Dms)
    requires x >= 0.0
  {
    var minutes := 60.0 * (x - x.Floor as real);
    Dms(x.Floor, minutes.Floor, (10000.0 * (minutes - minutes.Floor as real)).Floor)
  }

  function Text(d: Dms): string {
    Padded(d.degrees, 2) + Padded(d.minutes, 2) + "." + Padded(d.fraction, 4)
  }

  /** str2float: text of sixteen characters or more reads as zero. */
  function Str2Float(s: string): real { if |s| >= 16 then 0.0 else Read(s) }

  /** An int cast of a real, which drops the fraction. */
  function Truncate(x: real): int { if x >= 0.0 then x.Floor else -(-x).Floor }

  /** convert_from_hhmm. */
  function FromHhmm(s: string): real { HhmmOf(Str2Float(s)) }

  function HhmmOf(v: real): real {
    var degrees := Truncate(v.Floor as real / 100.0);
    degrees as real + (v - degrees as real * 100.0) / 60.0
  }

  lemma SplitParts(x: real)
    requires x >= 0.0
    ensures var d := Split(x);
      && d.minutes < 60 && d.fraction < 10000
      && var y := d.degrees as real + (d.minutes as real + d.fraction as real / 10000.0) / 60.0; y <= x < y + 1.0 / 600000.0
  {
  }

  lemma WholeReads(degrees: nat, minutes: nat)
    requires minutes < 100
    ensures var a, b := Padded(degrees, 2), Padded(minutes, 2);
      a + b != "" && Digits(a + b) && |b| == 2 && Value(a + b) == degrees * 100 + minutes
  {
    assert Pow10(2) == 100;
    PaddedReads(degrees, 2);
    PaddedReads(minutes, 2);
    PaddedLength(minutes, 2);
    ValueTwoMore(Padded(degrees, 2), Padded(minutes, 2));
  }

  lemma FractionReads(n: nat)
    requires n < 10000
    ensures var c := Padded(n, 4); Digits(c) && |c| == 4 && Fraction(Value(c), |c|) == n as real / 10000.0
  {
    assert Pow10(4) == 10000;
    PaddedReads(n, 4);
    PaddedLength(n, 4);
    FractionFour(n);
  }

  lemma TextReads(d: Dms)
    requires d.minutes < 60 && d.fraction < 10000
    ensures Read(Text(d)) == (d.degrees * 100 + d.minutes) as real + d.fraction as real / 10000.0
    ensures |Text(d)| == |Padded(d.degrees, 2)| + 7
  {
    WholeReads(d.degrees, d.minutes);
    FractionReads(d.fraction);
    ReadFixed(Padded(d.degrees, 2) + Padded(d.minutes, 2), Padded(d.fraction, 4));
  }

  lemma Whole(n: nat, r: real)
    requires 0.0 <= r < 1.0
    ensures (n as real + r).Floor == n
  {
  }

  lemma Hundreds(n: nat, m: nat)
    requires m < 100
    ensures Truncate((n * 100 + m) as real / 100.0) == n
  {
    assert (n * 100 + m) as real / 100.0 == n as real + m as real / 100.0;
    Whole(n, m as real / 100.0);
  }

  lemma HhmmIs(degrees: nat, minutes: nat, r: real)
    requires minutes < 60 && 0.0 <= r < 1.0
    ensures HhmmOf((degrees * 100 + minutes) as real + r) == degrees as real + (minutes as real + r) / 60.0
  {
    Whole(degrees * 100 + minutes, r);
    Hundreds(degrees, minutes);
  }

  /** A coordinate with a minus sign is read as the negative one: degrees are cut towards zero. */
  lemma NegativeReads(degrees: nat, minutes: nat, r: real)
    requires minutes < 60 && 0.0 <= r < 1.0
    ensures var v := (degrees * 100 + minutes) as real + r; HhmmOf(-v) == -HhmmOf(v)
  {
    var n, up := degrees * 100 + minutes, if r == 0.0 then minutes else minutes + 1;
    HhmmIs(degrees, minutes, r);
    FloorBelowZero(n, r);
    Hundreds(degrees, up);
    var w := (degrees * 100 + up) as real;
    assert (-(n as real + r)).Floor as real == -w;
    assert -w / 100.0 == -(w / 100.0);
    TruncateNegative(w / 100.0);
  }

  lemma FloorBelowZero(n: int, r: real)
    requires 0 <= n && 0.0 <= r < 1.0
    ensures (-(n as real + r)).Floor == if r == 0.0 then -n else -n - 1
  {
  }

  lemma TruncateNegative(x: real)
    requires x >= 0.0
    ensures Truncate(-x) == -Truncate(x)
  {
  }

  /** What is printed for a coordinate is read as at most that much below it, and never above. */
  lemma CoordinateReturns(x: real)
    requires x >= 0.0 && |Text(Split(x))| < 16
    ensures var y := FromHhmm(Text(Split(x))); y <= x < y + 1.0 / 600000.0
  {
    var d := Split(x);
    SplitParts(x);
    TextReads(d);
    HhmmIs(d.degrees, d.minutes, d.fraction as real / 10000.0);
  }

  // ---------------------------------------------------------------------------------------
  // Sentences
  // ---------------------------------------------------------------------------------------

  datatype Clock = Clock(hour: nat, minute: nat, second: nat, day: nat, month: nat, year: nat)

  /** The ranges that gmtime_r keeps; the month counts from 1 and the year has two digits. */
  predicate Calendar(c: Clock) {
    c.hour < 24 && c.minute < 60 && c.second < 61 && 1 <= c.day < 32 && 1 <= c.month < 13 && c.year < 100
  }

  function Three(a: nat, b: nat, c: nat): string { Padded(a, 2) + Padded(b, 2) + Padded(c, 2) }

  function Line(time: string, lat: string, ns: string, lng: string, ew: string, speed: string, bearing: string, date: string): seq<string> {
    ["GPRMC", time, "A", lat, ns, lng, ew, speed, bearing, date, bearing]
  }

  /** The fields of the sentence that is printed for a position. */
  function Rmc(c: Clock, lat: real, lng: real, bearing: real): seq<string> {
    Line(Three(c.hour, c.minute, c.second),
         Text(Split(Abs(lat))), if lat < 0.0 then "S" else "N",
         Text(Split(Abs(lng))), if lng < 0.0 then "W" else "E",
         Fixed(0.0), Fixed(bearing), Three(c.day, c.month, c.year))
  }

  function GgaLine(time: string, lat: string, ns: string, lng: string, ew: string, accuracy: string, altitude: string): seq<string> {
    ["GPGGA", time, lat, ns, lng, ew, "1", "08", accuracy, altitude, "M", "0.", "M", "", ""]
  }

  /** The fields of the altitude sentence; the last two are empty. */
  function Gga(c: Clock, lat: real, lng: real, accuracy: nat, altitude: real): seq<string> {
    GgaLine(Three(c.hour, c.minute, c.second),
            Text(Split(Abs(lat))), if lat < 0.0 then "S" else "N",
            Text(Split(Abs(lng))), if lng < 0.0 then "W" else "E",
            Padded(accuracy, 1), Fixed(altitude))
  }

  /** Every field is followed by a comma. */
  function Joined(fields: seq<string>): string {
    if fields == [] then "" else fields[0] + "," + Joined(fields[1..])
  }

  function Body(fields: seq<string>): string { "$" + Joined(fields) + "*47" }

  function Sentence(fields: seq<string>): string { Body(fields) + "\n" }

  /** What snprintf leaves of a line in a buffer of 128 bytes. */
  function Cut(line: string): string { if |line| <= 127 then line else line[..127] }

  // ---------------------------------------------------------------------------------------
  // Tokens
  // ---------------------------------------------------------------------------------------

  const MAX_TOKENS := 16

  function Comma(s: string): (q: nat)
    ensures q <= |s| && (q < |s| ==> s[q] == ',') && forall k :: 0 <= k < q ==> s[k] != ','
  {
    if s == "" || s[0] == ',' then 0 else 1 + Comma(s[1..])
  }

  /** The fields between commas, without the empty ones. */
  function Fields(s: string): seq<string>
    decreases |s|
  {
    if s == "" then []
    else
      var q := Comma(s);
      var rest := Fields(if q < |s| then s[q + 1..] else "");
      if q > 0 then [s[..q]] + rest else rest
  }

  /** The line without the leading '$', the trailing newline and the checksum. */
  function Trim(s: string): string { NoChecksum(NoNewline(NoDollar(s))) }

  function NoDollar(s: string): string { if s != "" && s[0] == '$' then s[1..] else s }

  function NoNewline(s: string): string {
    if s != "" && s[|s| - 1] == '\n' then
      if |s| > 1 && s[|s| - 2] == '\r' then s[..|s| - 2] else s[..|s| - 1]
    else s
  }

  function NoChecksum(s: string): string {
    if |s| >= 3 && s[|s| - 3] == '*' then s[..|s| - 3] else s
  }

  /** A tokenizer keeps the first sixteen. */
  function Kept(fs: seq<string>): seq<string> { if |fs| <= MAX_TOKENS then fs else fs[..MAX_TOKENS] }

  function Tokens(s: string): seq<string> { Kept(Fields(Trim(s))) }

  /** A field that is a token of its own. */
  ghost predicate Plainly(f: string) { f != "" && Clean(f) }

  ghost predicate Clean(s: string) { forall k :: 0 <= k < |s| ==> s[k] != ',' && s[k] != '\n' }

  ghost predicate OneLine(s: string) { forall k :: 0 <= k < |s| ==> s[k] != '\n' }

  ghost predicate AllPlain(fields: seq<string>) { forall k :: 0 <= k < |fields| ==> Plainly(fields[k]) }

  ghost predicate AllClean(fields: seq<string>) { forall k :: 0 <= k < |fields| ==> Clean(fields[k]) }

  function NonEmpty(fields: seq<string>): seq<string> {
    if fields == [] then []
    else if fields[0] == "" then NonEmpty(fields[1..])
    else [fields[0]] + NonEmpty(fields[1..])
  }

  lemma {:induction false} NonEmptyAppend(a: seq<string>, b: seq<string>)
    requires AllPlain(a)
    ensures NonEmpty(a + b) == a + NonEmpty(b)
  {
    if a == [] {
      assert a + b == b;
    } else {
      assert (a + b)[1..] == a[1..] + b;
      assert Plainly(a[0]);
      NonEmptyAppend(a[1..], b);
    }
  }

  lemma CommaAfter(f: string, rest: string)
    requires Clean(f)
    ensures Comma(f + "," + rest) == |f|
  {
    var s := f + "," + rest;
    assert s[|f|] == ',';
    assert forall k :: 0 <= k < |f| ==> s[k] == f[k];
  }

  lemma {:induction false} FieldsJoined(fields: seq<string>)
    requires AllClean(fields)
    ensures Fields(Joined(fields)) == NonEmpty(fields)
  {
    if fields != [] {
      var f, rest := fields[0], Joined(fields[1..]);
      var s := f + "," + rest;
      assert Clean(f);
      FieldsJoined(fields[1..]);
      CommaAfter(f, rest);
      assert s[..|f|] == f && s[|f| + 1..] == rest;
    }
  }

  lemma TrimSentence(j: string)
    requires j != ""
    ensures Trim("$" + j + "*47\n") == j
  {
    var s := "$" + j + "*47\n";
    assert NoDollar(s) == j + "*47\n";
    assert NoNewline(j + "*47\n") == j + "*47";
    assert NoChecksum(j + "*47") == j;
  }

  /** The tokens of a printed sentence are the fields that it was printed from, but for empty ones. */
  lemma TokensOfSentence(fields: seq<string>)
    requires fields != [] && AllClean(fields)
    ensures Tokens(Sentence(fields)) == Kept(NonEmpty(fields))
  {
    assert Sentence(fields) == "$" + Joined(fields) + "*47\n";
    TrimSentence(Joined(fields));
    FieldsJoined(fields);
  }

  lemma TokensOfPlain(fields: seq<string>)
    requires 0 < |fields| <= MAX_TOKENS && AllPlain(fields)
    ensures Tokens(Sentence(fields)) == fields
  {
    PlainIsClean(fields);
    TokensOfSentence(fields);
    NonEmptyAppend(fields, []);
    assert fields + [] == fields;
  }

  /** Of more than sixteen fields the first sixteen become tokens. */
  lemma FirstSixteen(fields: seq<string>)
    requires fields != [] && AllPlain(fields)
    ensures Tokens(Sentence(fields)) == if |fields| <= 16 then fields else fields[..16]
  {
    PlainIsClean(fields);
    TokensOfSentence(fields);
    NonEmptyAppend(fields, []);
    assert fields + [] == fields;
  }

  /** The dollar sign, a checksum of two characters and a carriage return make no difference to the tokens. */
  lemma LineVariants(start: string, j: string, check: string, end: string)
    requires j != "" && j[0] != '$' && j[|j| - 1] != '\r'
    requires start == "$" || start == ""
    requires (|check| == 3 && check[0] == '*' && check[2] != '\r') || (check == "" && (|j| < 3 || j[|j| - 3] != '*'))
    requires end == "\n" || end == "\r\n"
    ensures Tokens(start + (j + check + end)) == Kept(Fields(j))
  {
    Ends(j, check, end);
    DollarGone(start, j + check + end);
    NewlineGone(j + check, end);
    ChecksumGone(j, check);
    TrimmedTo(start, j + check + end, j + check, j);
  }

  lemma TrimmedTo(start: string, s: string, k: string, j: string)
    requires NoDollar(start + s) == s && NoNewline(s) == k && NoChecksum(k) == j
    ensures Tokens(start + s) == Kept(Fields(j))
  {
  }

  lemma Ends(j: string, check: string, end: string)
    requires j != "" && j[0] != '$' && j[|j| - 1] != '\r' && (check == "" || (|check| == 3 && check[2] != '\r'))
    ensures j + check + end != "" && (j + check + end)[0] != '$'
    ensures j + check != "" && (j + check)[|j + check| - 1] != '\r'
  {
    assert (j + check + end)[0] == j[0];
    assert (j + check)[|j + check| - 1] == if check == "" then j[|j| - 1] else check[2];
  }

  lemma DollarGone(start: string, s: string)
    requires s != "" && s[0] != '$' && (start == "$" || start == "")
    ensures NoDollar(start + s) == s
  {
    assert "" + s == s;
  }

  lemma NewlineGone(s: string, end: string)
    requires s != "" && s[|s| - 1] != '\r' && (end == "\n" || end == "\r\n")
    ensures NoNewline(s + end) == s
  {
  }

  lemma ChecksumGone(j: string, check: string)
    requires (|check| == 3 && check[0] == '*') || (check == "" && (|j| < 3 || j[|j| - 3] != '*'))
    ensures NoChecksum(j + check) == j
  {
    assert j + "" == j;
  }

  // ---------------------------------------------------------------------------------------
  // The printed line
  // ---------------------------------------------------------------------------------------

  lemma {:induction false} JoinedOneLine(fields: seq<string>)
    requires AllClean(fields)
    ensures OneLine(Joined(fields))
  {
    if fields != [] {
      JoinedOneLine(fields[1..]);
      assert Clean(fields[0]);
    }
  }

  lemma PlainIsClean(fields: seq<string>)
    requires AllPlain(fields)
    ensures AllClean(fields)
  {
    forall k | 0 <= k < |fields| ensures Clean(fields[k]) { assert Plainly(fields[k]); }
  }

  lemma PaddedPlain(n: nat, k: nat)
    ensures Plainly(Padded(n, k))
  {
    PaddedReads(n, k);
  }

  lemma ThreePlain(a: nat, b: nat, c: nat)
    requires a < 100 && b < 100 && c < 100
    ensures Plainly(Three(a, b, c)) && |Three(a, b, c)| == 6
  {
    assert Pow10(2) == 100;
    PaddedReads(a, 2);
    PaddedLength(a, 2);
    PaddedReads(b, 2);
    PaddedLength(b, 2);
    PaddedReads(c, 2);
    PaddedLength(c, 2);
  }

  lemma DotPlain(a: string, b: string)
    requires Digits(a) && Digits(b)
    ensures Plainly(a + "." + b)
  {
  }

  lemma TextPlain(d: Dms)
    ensures Plainly(Text(d))
  {
    PaddedReads(d.degrees, 2);
    PaddedReads(d.minutes, 2);
    PaddedReads(d.fraction, 4);
    DotPlain(Padded(d.degrees, 2) + Padded(d.minutes, 2), Padded(d.fraction, 4));
  }

  lemma FixedPlain(x: real)
    ensures Plainly(Fixed(x))
  {
    var n := Millionths(Abs(x));
    PaddedReads(n / 1000000, 1);
    PaddedReads(n % 1000000, 6);
    DotPlain(Padded(n / 1000000, 1), Padded(n % 1000000, 6));
  }

  lemma LinePlain(time: string, lat: string, ns: string, lng: string, ew: string, speed: string, bearing: string, date: string)
    requires Plainly(time) && Plainly(lat) && Plainly(ns) && Plainly(lng) && Plainly(ew)
    requires Plainly(speed) && Plainly(bearing) && Plainly(date)
    ensures AllPlain(Line(time, lat, ns, lng, ew, speed, bearing, date))
  {
    assert Plainly("GPRMC") && Plainly("A");
  }

  lemma RmcPlain(c: Clock, lat: real, lng: real, bearing: real)
    requires Calendar(c)
    ensures AllPlain(Rmc(c, lat, lng, bearing))
  {
    ThreePlain(c.hour, c.minute, c.second);
    ThreePlain(c.day, c.month, c.year);
    TextPlain(Split(Abs(lat)));
    TextPlain(Split(Abs(lng)));
    FixedPlain(0.0);
    FixedPlain(bearing);
    LinePlain(Three(c.hour, c.minute, c.second),
              Text(Split(Abs(lat))), if lat < 0.0 then "S" else "N",
              Text(Split(Abs(lng))), if lng < 0.0 then "W" else "E",
              Fixed(0.0), Fixed(bearing), Three(c.day, c.month, c.year));
  }

  /** So each field of the printed line is found at its own token index. */
  lemma RmcTokens(c: Clock, lat: real, lng: real, bearing: real)
    requires Calendar(c)
    ensures Tokens(Sentence(Rmc(c, lat, lng, bearing))) == Rmc(c, lat, lng, bearing)
  {
    RmcPlain(c, lat, lng, bearing);
    TokensOfPlain(Rmc(c, lat, lng, bearing));
  }

  lemma ThreeClean(a: nat, b: nat, c: nat)
    ensures Plainly(Three(a, b, c))
  {
    PaddedPlain(a, 2);
    PaddedPlain(b, 2);
    PaddedPlain(c, 2);
  }

  /** The fields of the altitude sentence that are not empty. */
  function GgaTokens(time: string, lat: string, ns: string, lng: string, ew: string, accuracy: string, altitude: string): seq<string> {
    ["GPGGA", time, lat, ns, lng, ew, "1", "08", accuracy, altitude, "M", "0.", "M"]
  }

  lemma GgaLinePlain(time: string, lat: string, ns: string, lng: string, ew: string, accuracy: string, altitude: string)
    requires Plainly(time) && Plainly(lat) && Plainly(ns) && Plainly(lng) && Plainly(ew)
    requires Plainly(accuracy) && Plainly(altitude)
    ensures AllPlain(GgaTokens(time, lat, ns, lng, ew, accuracy, altitude))
    ensures AllClean(GgaLine(time, lat, ns, lng, ew, accuracy, altitude))
    ensures Tokens(Sentence(GgaLine(time, lat, ns, lng, ew, accuracy, altitude))) == GgaTokens(time, lat, ns, lng, ew, accuracy, altitude)
  {
    var ts := GgaTokens(time, lat, ns, lng, ew, accuracy, altitude);
    var fs := GgaLine(time, lat, ns, lng, ew, accuracy, altitude);
    assert Plainly("GPGGA") && Plainly("1") && Plainly("08") && Plainly("M") && Plainly("0.");
    assert AllPlain(ts);
    PlainIsClean(ts);
    assert fs == ts + ["", ""];
    NonEmptyAppend(ts, ["", ""]);
    assert ["", ""][1..] == [""] && [""][1..] == [] && NonEmpty([""]) == [];
    assert ts + [] == ts;
    TokensOfSentence(fs);
  }

  /** The tokens of the altitude line, for every position, clock, accuracy and altitude. */
  lemma TokensOfGga(c: Clock, lat: real, lng: real, accuracy: nat, altitude: real)
    ensures AllClean(Gga(c, lat, lng, accuracy, altitude))
    ensures Tokens(Sentence(Gga(c, lat, lng, accuracy, altitude)))
         == GgaTokens(Three(c.hour, c.minute, c.second),
                      Text(Split(Abs(lat))), if lat < 0.0 then "S" else "N",
                      Text(Split(Abs(lng))), if lng < 0.0 then "W" else "E",
                      Padded(accuracy, 1), Fixed(altitude))
  {
    ThreeClean(c.hour, c.minute, c.second);
    TextPlain(Split(Abs(lat)));
    TextPlain(Split(Abs(lng)));
    PaddedPlain(accuracy, 1);
    FixedPlain(altitude);
    GgaLinePlain(Three(c.hour, c.minute, c.second),
                 Text(Split(Abs(lat))), if lat < 0.0 then "S" else "N",
                 Text(Split(Abs(lng))), if lng < 0.0 then "W" else "E",
                 Padded(accuracy, 1), Fixed(altitude));
  }

  function Total(fields: seq<string>): nat {
    if fields == [] then 0 else |fields[0]| + 1 + Total(fields[1..])
  }

  lemma {:induction false} JoinedLength(fields: seq<string>)
    ensures |Joined(fields)| == Total(fields)
  {
    if fields != [] {
      JoinedLength(fields[1..]);
    }
  }

  lemma TotalAppend(a: seq<string>, b: seq<string>)
    ensures Total(a + b) == Total(a) + Total(b)
  {
    if a == [] {
      assert a + b == b;
    } else {
      assert (a + b)[1..] == a[1..] + b;
    }
  }

  lemma TotalFour(a: string, b: string, c: string, d: string)
    ensures Total([a, b, c, d]) == |a| + |b| + |c| + |d| + 4
  {
    assert [a, b, c, d][1..] == [b, c, d] && [b, c, d][1..] == [c, d] && [c, d][1..] == [d] && [d][1..] == [];
    assert Total([d]) == |d| + 1;
    assert Total([c, d]) == |c| + 1 + Total([d]);
    assert Total([b, c, d]) == |b| + 1 + Total([c, d]);
  }

  lemma LineLength(time: string, lat: string, ns: string, lng: string, ew: string, speed: string, bearing: string, date: string)
    ensures |Sentence(Line(time, lat, ns, lng, ew, speed, bearing, date))|
         == 22 + |time| + |lat| + |ns| + |lng| + |ew| + |speed| + 2 * |bearing| + |date|
  {
    var a, b, c := ["GPRMC", time, "A", lat], [ns, lng, ew, speed], [bearing, date, bearing];
    JoinedLength(a + b + c);
    TotalFour("GPRMC", time, "A", lat);
    TotalFour(ns, lng, ew, speed);
    TotalFour(bearing, date, bearing, "");
    assert [bearing, date, bearing, ""] == c + [""] && [""][1..] == [];
    TotalAppend(c, [""]);
    TotalAppend(a, b);
    TotalAppend(a + b, c);
    assert Line(time, lat, ns, lng, ew, speed, bearing, date) == a + b + c;
  }

  /** The speed is printed as zero, in eight characters. */
  lemma SpeedText()
    ensures |Fixed(0.0)| == 8 && Str2Float(Fixed(0.0)) == 0.0
  {
    assert Millionths(0.0) == 0;
    assert Pow10(1) == 10 && Pow10(6) == 1000000;
    PaddedLength(0, 1);
    PaddedLength(0, 6);
    PlainReads(0);
  }

  /** The line has 58 characters, the whole degrees, and twice the bearing. */
  lemma SentenceLength(c: Clock, lat: real, lng: real, bearing: real)
    requires Calendar(c)
    ensures |Sentence(Rmc(c, lat, lng, bearing))|
         == 58 + |Padded(Abs(lat).Floor, 2)| + |Padded(Abs(lng).Floor, 2)| + 2 * |Fixed(bearing)|
  {
    ThreePlain(c.hour, c.minute, c.second);
    ThreePlain(c.day, c.month, c.year);
    SplitParts(Abs(lat));
    SplitParts(Abs(lng));
    TextReads(Split(Abs(lat)));
    TextReads(Split(Abs(lng)));
    SpeedText();
    LineLength(Three(c.hour, c.minute, c.second),
               Text(Split(Abs(lat))), if lat < 0.0 then "S" else "N",
               Text(Split(Abs(lng))), if lng < 0.0 then "W" else "E",
               Fixed(0.0), Fixed(bearing), Three(c.day, c.month, c.year));
  }

  const MAX_SIZE := 83

  lemma FloorBelow(x: real, n: nat)
    requires 0.0 <= x < n as real
    ensures 0 <= x.Floor < n
  {
  }

  /** It fits the reader's buffer whenever the bearing prints with at most three digits before the point. */
  lemma SentenceFits(c: Clock, lat: real, lng: real, bearing: real)
    requires Calendar(c) && Abs(lat) < 100.0 && Abs(lng) < 1000.0
    requires 0.0 <= bearing && Millionths(bearing) < 1000000000
    ensures |Sentence(Rmc(c, lat, lng, bearing))| <= MAX_SIZE
  {
    SentenceLength(c, lat, lng, bearing);
    FloorBelow(Abs(lat), 100);
    FloorBelow(Abs(lng), 1000);
    assert Pow10(2) == 100 && Pow10(3) == 1000 && Pow10(6) == 1000000;
    PaddedLength(Abs(lat).Floor, 2);
    PaddedAtMost(Abs(lng).Floor, 2, 3);
    PaddedAtMost(Millionths(bearing) / 1000000, 1, 3);
    PaddedLength(Millionths(bearing) % 1000000, 6);
  }

  lemma TotalCons(f: string, rest: seq<string>)
    ensures Total([f] + rest) == |f| + 1 + Total(rest)
  {
    assert ([f] + rest)[1..] == rest;
  }

  lemma GgaLength(time: string, lat: string, ns: string, lng: string, ew: string, accuracy: string, altitude: string)
    ensures |Sentence(GgaLine(time, lat, ns, lng, ew, accuracy, altitude))|
         == 32 + |time| + |lat| + |ns| + |lng| + |ew| + |accuracy| + |altitude|
  {
    var fs := GgaLine(time, lat, ns, lng, ew, accuracy, altitude);
    var a, b, c := ["GPGGA", time, lat, ns], [lng, ew, "1", "08"], [accuracy, altitude, "M", "0."];
    var d := ["M", "", "", ""];
    TotalFour("GPGGA", time, lat, ns);
    TotalFour(lng, ew, "1", "08");
    TotalFour(accuracy, altitude, "M", "0.");
    TotalFour("M", "", "", "");
    TotalAppend(a, b);
    TotalAppend(a + b, c);
    TotalAppend(a + b + c, ["M", "", ""]);
    TotalAppend(["M", "", ""], [""]);
    assert d == ["M", "", ""] + [""] && [""][1..] == [];
    assert fs == a + b + c + ["M", "", ""];
    JoinedLength(fs);
  }

  /** An altitude of less than ten million metres either way prints with at most fifteen characters. */
  lemma AltitudeShort(x: real)
    requires Millionths(Abs(x)) < 10000000000000
    ensures |Fixed(x)| <= 15
  {
    var n := Millionths(Abs(x));
    assert Pow10(7) == 10000000 && Pow10(6) == 1000000;
    PaddedAtMost(n / 1000000, 1, 7);
    PaddedLength(n % 1000000, 6);
  }

  /** So the altitude sentence fits the reader's buffer too. */
  lemma GgaFits(c: Clock, lat: real, lng: real, accuracy: nat, altitude: real)
    requires Calendar(c) && Abs(lat) < 100.0 && Abs(lng) < 1000.0 && accuracy <= 200
    requires Millionths(Abs(altitude)) < 10000000000000
    ensures |Sentence(Gga(c, lat, lng, accuracy, altitude))| <= MAX_SIZE
  {
    ThreePlain(c.hour, c.minute, c.second);
    SplitParts(Abs(lat));
    SplitParts(Abs(lng));
    TextReads(Split(Abs(lat)));
    TextReads(Split(Abs(lng)));
    FloorBelow(Abs(lat), 100);
    FloorBelow(Abs(lng), 1000);
    assert Pow10(2) == 100 && Pow10(3) == 1000;
    PaddedLength(Abs(lat).Floor, 2);
    PaddedAtMost(Abs(lng).Floor, 2, 3);
    PaddedAtMost(accuracy, 1, 3);
    AltitudeShort(altitude);
    GgaLength(Three(c.hour, c.minute, c.second),
              Text(Split(Abs(lat))), if lat < 0.0 then "S" else "N",
              Text(Split(Abs(lng))), if lng < 0.0 then "W" else "E",
              Padded(accuracy, 1), Fixed(altitude));
  }

  lemma PaddedAtMost(n: nat, k: nat, m: nat)
    requires 1 <= k <= m && n < Pow10(m)
    ensures |Padded(n, k)| <= m
    decreases m
  {
    if !(n < 10 && k <= 1) {
      PaddedAtMost(n / 10, if k == 1 then 1 else k - 1, m - 1);
      PaddedZeroOne(n / 10);
    }
  }

  lemma PaddedZeroOne(n: nat)
    ensures Padded(n, 0) == Padded(n, 1)
  {
  }
}
