/**
 The reader of GPS sentences: a buffer that characters are added to one by one, and what a complete
 line does to the fix. Times, dates and the clock are not part of the model.
 */
module GpsReader {
  import opened Decimal
  import opened Nmea

  // ---------------------------------------------------------------------------------------
  // Framing
  // ---------------------------------------------------------------------------------------

  datatype Framer = Framer(line: string, overflow: bool)

  const IDLE := Framer("", false)

  /** One character: the new state, and the line if it completes one. */
  function Step(f: Framer, c: char): (Framer, seq<string>) {
    if f.overflow then (f.(overflow := c != '\n'), [])
    else if |f.line| >= MAX_SIZE then (Framer("", true), [])
    else if c == '\n' then (IDLE, [f.line + [c]])
    else (Framer(f.line + [c], false), [])
  }

  /** A whole text: the new state, and the lines that it completes. */
  function Steps(f: Framer, text: string): (Framer, seq<string>) {
    if text == "" then (f, [])
    else
      var (g, lines) := Steps(f, text[..|text| - 1]);
      var (h, more) := Step(g, text[|text| - 1]);
      (h, lines + more)
  }

  lemma OneMore(f: Framer, text: string, c: char)
    requires Steps(f, text).1 == []
    ensures Steps(f, text + [c]) == Step(Steps(f, text).0, c)
  {
    assert (text + [c])[..|text|] == text;
    var more := Step(Steps(f, text).0, c).1;
    assert [] + more == more;
  }

  /** From an idle reader, a body without newline is collected until it no longer fits. */
  lemma {:induction false} BodyCollects(body: string)
    requires OneLine(body)
    ensures Steps(IDLE, body) == (if |body| <= MAX_SIZE then (Framer(body, false), []) else (Framer("", true), []))
  {
    if body != "" {
      var b, c := body[..|body| - 1], body[|body| - 1];
      BodyCollects(b);
      OneMore(IDLE, b, c);
      assert b + [c] == body;
    }
  }

  /**
   A line of at most 83 characters is delivered whole and leaves the reader idle. A longer one is
   dropped. One of exactly 84 leaves the reader skipping, so that the next line is lost with it.
   */
  lemma LineFramed(body: string)
    requires OneLine(body)
    ensures var line := body + "\n";
      Steps(IDLE, line) == (if |line| <= MAX_SIZE then (IDLE, [line])
                            else if |line| == MAX_SIZE + 1 then (Framer("", true), []) else (IDLE, []))
  {
    BodyCollects(body);
    OneMore(IDLE, body, '\n');
  }

  lemma {:induction false} SkipBody(body: string)
    requires OneLine(body)
    ensures Steps(Framer("", true), body) == (Framer("", true), [])
  {
    if body != "" {
      var b, c := body[..|body| - 1], body[|body| - 1];
      SkipBody(b);
      OneMore(Framer("", true), b, c);
      assert b + [c] == body;
    }
  }

  /** While it skips, a reader loses one whole line of any length and is idle after it. */
  lemma LineSkipped(body: string)
    requires OneLine(body)
    ensures Steps(Framer("", true), body + "\n") == (IDLE, [])
  {
    SkipBody(body);
    OneMore(Framer("", true), body, '\n');
  }

  // ---------------------------------------------------------------------------------------
  // Parsing
  // ---------------------------------------------------------------------------------------

  datatype Token = Token(text: string, init: bool)

  datatype AllTokens = AllTokens(
    time: Token, latitude: Token, latitudeHemi: Token, longitude: Token, longitudeHemi: Token,
    fixStatus: Token, accuracy: Token, altitude: Token, speed: Token, bearing: Token, date: Token)

  datatype Fix = Fix(
    hasLatLong: bool, latitude: real, longitude: real, hasAltitude: bool, altitude: real,
    hasAccuracy: bool, accuracy: int, hasBearing: bool, bearing: real, hasSpeed: bool, speed: real)
  {
    predicate Any() { hasLatLong || hasAltitude || hasAccuracy || hasBearing || hasSpeed }

    function Cleared(): Fix {
      this.(hasLatLong := false, hasAltitude := false, hasAccuracy := false, hasBearing := false, hasSpeed := false)
    }
  }

  /**
   The first character of a token; a token without text holds zero bytes, once it has been set. One
   that was never set has no bytes at all, and must not be read.
   */
  function Head(t: Token): char { if t.text == "" then '\0' else t.text[0] }

  function Get(ts: seq<string>, i: nat): Token { Token(if i < |ts| then ts[i] else "", true) }

  /** The tokens that a sentence sets; those of other sentences keep what they had. */
  function Assigned(t: AllTokens, ts: seq<string>, id: string): AllTokens {
    if id == "GGA" then
      t.(time := Get(ts, 1), fixStatus := Get(ts, 2), latitude := Get(ts, 3), latitudeHemi := Get(ts, 4),
         longitude := Get(ts, 5), longitudeHemi := Get(ts, 6), accuracy := Get(ts, 8), altitude := Get(ts, 9))
    else if id == "RMC" then
      t.(time := Get(ts, 1), fixStatus := Get(ts, 2), latitude := Get(ts, 3), latitudeHemi := Get(ts, 4),
         longitude := Get(ts, 5), longitudeHemi := Get(ts, 6), speed := Get(ts, 7), bearing := Get(ts, 8),
         date := Get(ts, 9))
    else t
  }

  function Signed(t: Token, hemi: Token, negative: char): real {
    var x := FromHhmm(t.text);
    if Head(hemi) == negative then -x else x
  }

  predicate LongEnough(t: Token) { t.init && |t.text| >= 6 }

  function WithLatLong(fix: Fix, t: AllTokens): Fix {
    if LongEnough(t.latitude) && LongEnough(t.longitude) then
      fix.(hasLatLong := true, latitude := Signed(t.latitude, t.latitudeHemi, 'S'),
           longitude := Signed(t.longitude, t.longitudeHemi, 'W'))
    else fix
  }

  predicate Given(t: Token) { t.init && t.text != "" }

  function WithAltitude(fix: Fix, t: AllTokens): Fix {
    if Given(t.altitude) then fix.(hasAltitude := true, altitude := Str2Float(t.altitude.text)) else fix
  }

  /** str2int: -1 for anything but digits. */
  function Int(s: string): int { if Span(s) == |s| then Value(s) else -1 }

  function WithAccuracy(fix: Fix, t: AllTokens): Fix {
    if t.accuracy.init then
      var a := Int(t.accuracy.text);
      fix.(hasAccuracy := true, accuracy := if 0 <= a <= 200 then a else 1)
    else fix
  }

  function WithBearing(fix: Fix, t: AllTokens): Fix {
    if Given(t.bearing) then fix.(hasBearing := true, bearing := Str2Float(t.bearing.text)) else fix
  }

  function WithSpeed(fix: Fix, t: AllTokens): Fix {
    if Given(t.speed) then fix.(hasSpeed := true, speed := Str2Float(t.speed.text)) else fix
  }

  function Updated(fix: Fix, t: AllTokens): Fix {
    var located := WithAccuracy(WithAltitude(WithLatLong(fix, t), t), t);
    if t.fixStatus.init && Head(t.fixStatus) == 'A' then WithSpeed(WithBearing(located, t), t) else located
  }

  /** What a line is taken for: its sentence id, or nothing if it is too short to have one. */
  function Id(line: string): string {
    var ts := Tokens(line);
    if |line| < 9 || ts == [] || |ts[0]| < 5 then "" else ts[0][2..5]
  }

  function TokensAfter(t: AllTokens, line: string): AllTokens { Assigned(t, Tokens(line), Id(line)) }

  /** The parser reads the first character of both hemispheres of every line that has an id. */
  predicate Safe(t: AllTokens, line: string) {
    Id(line) == "" || HemispheresSet(TokensAfter(t, line))
  }

  predicate HemispheresSet(t: AllTokens) { t.latitudeHemi.init && t.longitudeHemi.init }

  const UNSET := Token("", false)
  const NO_TOKENS := AllTokens(UNSET, UNSET, UNSET, UNSET, UNSET, UNSET, UNSET, UNSET, UNSET, UNSET, UNSET)

  function FixAfter(fix: Fix, t: AllTokens, line: string): Fix {
    if Id(line) == "" then fix else Updated(fix, TokensAfter(t, line))
  }

  /** What the reader knows, and what the callback has been given. */
  datatype Known = Known(tokens: AllTokens, fix: Fix, reported: seq<Fix>)

  /** A fix that holds anything is reported, if there is a callback, and then holds nothing. */
  function Handle(k: Known, line: string, callback: bool): Known {
    var t, f := TokensAfter(k.tokens, line), FixAfter(k.fix, k.tokens, line);
    if Id(line) != "" && callback && f.Any() then Known(t, f.Cleared(), k.reported + [f]) else Known(t, f, k.reported)
  }

  /** None of the five flags is set. */
  predicate Silent(f: Fix) { !f.hasLatLong && !f.hasAltitude && !f.hasAccuracy && !f.hasBearing && !f.hasSpeed }

  /** A reader at its start. */
  predicate Fresh(k: Known) { k.tokens == NO_TOKENS && Silent(k.fix) && k.reported == [] }

  function HandleAll(k: Known, lines: seq<string>, callback: bool): Known
    decreases |lines|
  {
    if lines == [] then k else HandleAll(Handle(k, lines[0], callback), lines[1..], callback)
  }

  /**
   The reader. `reported` is what the callback has been given, if there is one; the fields that say
   what a fix holds are cleared when it has.
   */
  class Reader {
    const input: array<char>
    var pos: nat
    var overflow: bool
    var tokens: AllTokens
    var fix: Fix
    const callback: bool
    var reported: seq<Fix>

    ghost predicate Valid()
      reads this
    {
      input.Length == MAX_SIZE + 1 && pos <= MAX_SIZE && (overflow ==> pos == 0)
    }

    ghost function State(): Framer
      requires Valid()
      reads this, input
    {
      Framer(input[..pos], overflow)
    }

    ghost function View(): Known
      reads this
    {
      Known(tokens, fix, reported)
    }

    constructor (callback: bool)
      ensures Valid() && fresh(input) && State() == IDLE && this.callback == callback
      ensures Fresh(View())
    {
      input := new char[MAX_SIZE + 1](i => '\0');
      pos, overflow, this.callback, reported := 0, false, callback, [];
      tokens := NO_TOKENS;
      fix := Fix(false, 0.0, 0.0, false, 0.0, false, 0, false, 0.0, false, 0.0);
    }

    method UpdateLatLong()
      modifies this`fix
      ensures fix == WithLatLong(old(fix), tokens)
    {
      if !tokens.latitude.init || |tokens.latitude.text| < 6 { return; }
      var lat := FromHhmm(tokens.latitude.text);
      if Head(tokens.latitudeHemi) == 'S' { lat := -lat; }
      if !tokens.longitude.init || |tokens.longitude.text| < 6 { return; }
      var lon := FromHhmm(tokens.longitude.text);
      if Head(tokens.longitudeHemi) == 'W' { lon := -lon; }
      fix := fix.(hasLatLong := true, latitude := lat, longitude := lon);
    }

    method UpdateAccuracy()
      modifies this`fix
      ensures fix == WithAccuracy(old(fix), tokens)
    {
      if !tokens.accuracy.init { return; }
      var a := Str2Int(tokens.accuracy.text);
      if a < 0 || a > 200 { a := 1; }
      fix := fix.(hasAccuracy := true, accuracy := a);
    }

    /** A complete line. A line that is not safe ends the program where it reads a hemisphere. */
    method Parse(line: string) returns (safe: bool)
      requires |line| == pos <= input.Length && line == input[..pos]
      modifies this`tokens, this`fix, this`reported
      ensures safe <==> Safe(old(tokens), line)
      ensures View() == if safe then Handle(old(View()), line, callback) else old(View())
    {
      if pos < 9 { return true; }
      var ts := Tokenize(line);
      if |ts| == 0 || |ts[0]| < 5 { return true; }
      var id := ts[0][2..5];
      tokens := Assigned(tokens, ts, id);
      if !tokens.latitudeHemi.init || !tokens.longitudeHemi.init { return false; }
      safe := true;
      UpdateLatLong();
      fix := WithAltitude(fix, tokens);
      UpdateAccuracy();
      if tokens.fixStatus.init && Head(tokens.fixStatus) == 'A' {
        fix := WithBearing(fix, tokens);
        fix := WithSpeed(fix, tokens);
      }
      if fix.Any() && callback {
        reported := reported + [fix];
        fix := fix.Cleared();
      }
    }

    method AddC(c: char) returns (safe: bool)
      requires Valid()
      modifies this, input
      ensures Valid()
      ensures var (f, lines) := Step(old(State()), c);
        && (safe <==> lines == [] || Safe(old(tokens), lines[0]))
        && (safe ==> State() == f)
        && View() == if lines != [] && safe then Handle(old(View()), lines[0], callback) else old(View())
    {
      safe := true;
      if overflow {
        overflow := c != '\n';
        return;
      }
      if pos >= MAX_SIZE {
        overflow := true;
        pos := 0;
        return;
      }
      ghost var before := input[..pos];
      input[pos] := c;
      pos := pos + 1;
      assert input[..pos] == before + [c];
      if c == '\n' {
        safe := Parse(input[..pos]);
        pos := 0;
      }
    }
  }

  lemma FieldsStep(done: seq<string>, s: string)
    requires s != ""
    ensures var q := Comma(s); var next := if q > 0 then done + [s[..q]] else done;
      done + Fields(s) == next + Fields(if q < |s| then s[q + 1..] else "")
  {
    var q := Comma(s);
    var rest := Fields(if q < |s| then s[q + 1..] else "");
    assert done + ([s[..q]] + rest) == (done + [s[..q]]) + rest;
  }

  /** The head of nmea_tokenizer_init; `s` is the text between its two pointers. */
  method Inner(line: string) returns (s: string)
    ensures s == Trim(line)
  {
    s := line;
    if s != "" && s[0] == '$' { s := s[1..]; }
    assert s == NoDollar(line);
    if s != "" && s[|s| - 1] == '\n' {
      s := s[..|s| - 1];
      if s != "" && s[|s| - 1] == '\r' { s := s[..|s| - 1]; }
    }
    assert s == NoNewline(NoDollar(line));
    if |s| >= 3 && s[|s| - 3] == '*' { s := s[..|s| - 3]; }
  }

  /** nmea_tokenizer_init. */
  method Tokenize(line: string) returns (ts: seq<string>)
    ensures ts == Tokens(line)
  {
    var s := Inner(line);
    ghost var done: seq<string> := [];
    ts := [];
    assert [] + Fields(s) == Fields(s);
    while s != ""
      invariant done + Fields(s) == Fields(Trim(line))
      invariant ts == Kept(done)
      decreases |s|
    {
      FieldsStep(done, s);
      var q := Comma(s);
      ghost var next := if q > 0 then done + [s[..q]] else done;
      if q > 0 && |ts| < MAX_TOKENS {
        ts := ts + [s[..q]];
      }
      assert ts == Kept(next);
      s, done := if q < |s| then s[q + 1..] else "", next;
    }
    assert done + [] == done;
  }

  lemma StopsAt(s: string, i: nat)
    requires i < |s| && Digits(s[..i]) && !Digit(s[i])
    ensures Int(s) == -1
  {
    SpanIs(s[..i], s[i], s[i + 1..]);
    assert s == s[..i] + [s[i]] + s[i + 1..];
  }

  /** Digits give the number that they spell, the empty text included, and anything else -1. */
  lemma IntExactly(s: string)
    ensures Int(s) == if Digits(s) then Value(s) else -1
  {
    if Digits(s) {
      SpanAll(s);
    } else {
      assert s[..|s|] == s;
    }
  }

  /** An accuracy is taken if it is a number from 0 to 200; anything else counts as 1. */
  lemma AccuracyRead(fix: Fix, t: AllTokens)
    requires t.accuracy.init
    ensures var s, f := t.accuracy.text, Updated(fix, t);
      f.hasAccuracy && f.accuracy == if Digits(s) && Value(s) <= 200 then Value(s) else 1
  {
    IntExactly(t.accuracy.text);
    var f := WithAltitude(WithLatLong(fix, t), t);
    var g := WithAccuracy(f, t);
    assert g.hasAccuracy && g.accuracy == if 0 <= Int(t.accuracy.text) <= 200 then Int(t.accuracy.text) else 1;
    assert WithSpeed(WithBearing(g, t), t).accuracy == g.accuracy;
  }

  /**
   When altitude, bearing and speed enter a fix: with a token that is not empty, the latter two only
   from a sentence whose status begins with A; and with the number that the token's text spells.
   */
  lemma NumbersRead(fix: Fix, t: AllTokens)
    ensures var f := Updated(fix, t);
      var valid := t.fixStatus.init && t.fixStatus.text != "" && t.fixStatus.text[0] == 'A';
      && Enters(t.altitude, true, f.hasAltitude, f.altitude, fix.hasAltitude, fix.altitude)
      && Enters(t.bearing, valid, f.hasBearing, f.bearing, fix.hasBearing, fix.bearing)
      && Enters(t.speed, valid, f.hasSpeed, f.speed, fix.hasSpeed, fix.speed)
  {
    var f := WithLatLong(fix, t);
    var g := WithAltitude(f, t);
    var h := WithAccuracy(g, t);
    LatLongAlone(fix, t);
    AccuracyAlone(g, t);
    AltitudeEnters(f, t);
    CourseEnters(h, t);
  }

  lemma LatLongAlone(fix: Fix, t: AllTokens)
    ensures var f := WithLatLong(fix, t); f == fix.(hasLatLong := f.hasLatLong, latitude := f.latitude, longitude := f.longitude)
  {
  }

  lemma AccuracyAlone(fix: Fix, t: AllTokens)
    ensures var f := WithAccuracy(fix, t); f == fix.(hasAccuracy := f.hasAccuracy, accuracy := f.accuracy)
  {
  }

  lemma AltitudeEnters(fix: Fix, t: AllTokens)
    ensures var f := WithAltitude(fix, t);
      && f == fix.(hasAltitude := f.hasAltitude, altitude := f.altitude)
      && Enters(t.altitude, true, f.hasAltitude, f.altitude, fix.hasAltitude, fix.altitude)
  {
  }

  lemma CourseEnters(fix: Fix, t: AllTokens)
    ensures var f := WithSpeed(WithBearing(fix, t), t);
      && f == fix.(hasBearing := f.hasBearing, bearing := f.bearing, hasSpeed := f.hasSpeed, speed := f.speed)
      && Enters(t.bearing, true, f.hasBearing, f.bearing, fix.hasBearing, fix.bearing)
      && Enters(t.speed, true, f.hasSpeed, f.speed, fix.hasSpeed, fix.speed)
  {
  }

  /** A number and its flag are taken from a token that is set and not empty, or stay as they were. */
  predicate Enters(t: Token, allowed: bool, has: bool, x: real, had: bool, old': real) {
    if allowed && t.init && t.text != "" then has && x == Str2Float(t.text) else has == had && x == old'
  }

  /** A line of fewer than nine characters, newline included, changes nothing, whatever it says. */
  lemma ShortLineIgnored(k: Known, line: string, callback: bool)
    ensures |line| < 9 ==> Handle(k, line, callback) == k
  {
  }

  /** Nine characters are enough: an id of five, a comma, one more character, a comma and the newline. */
  lemma NineIsEnough(id: string, c: string)
    requires Plainly(id) && Plainly(c) && |id| == 5 && |c| == 1 && id[0] != '$'
    ensures var line := id + "," + c + "," + "\n"; |line| == 9 && Id(line) == id[2..5]
  {
    var j := id + "," + c + ",";
    TwoFields(id, c);
    LineVariants("", j, "", "\n");
    assert "" + (j + "" + "\n") == j + "\n";
  }

  lemma TwoFields(a: string, b: string)
    requires Plainly(a) && Plainly(b)
    ensures Fields(a + "," + b + ",") == [a, b]
  {
    var fs := [a, b];
    assert fs[1..] == [b] && [b][1..] == [];
    assert Joined([b]) == b + "," + "" == b + ",";
    assert Joined(fs) == a + "," + (b + ",");
    assert a + "," + (b + ",") == a + "," + b + ",";
    FieldsJoined(fs);
    NonEmptyAppend(fs, []);
    assert fs + [] == fs;
  }

  /** str2int. */
  method Str2Int(s: string) returns (result: int)
    ensures result == Int(s)
  {
    result := 0;
    var i := 0;
    while i < |s|
      invariant i <= |s| && Digits(s[..i]) && result == Value(s[..i])
    {
      if !Digit(s[i]) {
        StopsAt(s, i);
        return -1;
      }
      assert s[..i + 1][..i] == s[..i];
      result := result * 10 + DigitValue(s[i]);
      i := i + 1;
    }
    SpanAll(s);
    assert s[..i] == s;
  }

  // ---------------------------------------------------------------------------------------
  // Runs of lines
  // ---------------------------------------------------------------------------------------

  /** Every line of a run is safe, when the reader starts it with the tokens t. */
  predicate AllSafe(t: AllTokens, lines: seq<string>)
    decreases |lines|
  {
    lines == [] || (Safe(t, lines[0]) && AllSafe(TokensAfter(t, lines[0]), lines[1..]))
  }

  /** The first line that has an id is of one of the two kinds that set the hemispheres. */
  predicate StartsKnown(lines: seq<string>) {
    lines == [] || (if Id(lines[0]) == "" then StartsKnown(lines[1..]) else Id(lines[0]) == "GGA" || Id(lines[0]) == "RMC")
  }

  /** What the first i characters of a text complete is completed by the whole of it. */
  lemma {:induction false} StepsPrefix(f: Framer, text: string, i: nat)
    requires i <= |text|
    ensures Steps(f, text[..i]).1 <= Steps(f, text).1
    decreases |text|
  {
    if i < |text| {
      StepsPrefix(f, text[..|text| - 1], i);
      assert text[..|text| - 1][..i] == text[..i];
    } else {
      assert text[..i] == text;
    }
  }

  lemma StepsOne(f: Framer, text: string, i: nat)
    requires i < |text|
    ensures var (g, lines) := Steps(f, text[..i]);
      var (h, more) := Step(g, text[i]);
      Steps(f, text[..i + 1]) == (h, lines + more) && |more| <= 1
  {
    assert text[..i + 1][..i] == text[..i];
  }

  lemma {:induction false} HandleAppend(k: Known, lines: seq<string>, more: seq<string>, callback: bool)
    ensures HandleAll(k, lines + more, callback) == HandleAll(HandleAll(k, lines, callback), more, callback)
    ensures AllSafe(k.tokens, lines + more) <==> AllSafe(k.tokens, lines) && AllSafe(HandleAll(k, lines, callback).tokens, more)
    decreases |lines|
  {
    if lines == [] {
      assert lines + more == more;
    } else {
      assert (lines + more)[1..] == lines[1..] + more;
      HandleAppend(Handle(k, lines[0], callback), lines[1..], more, callback);
    }
  }

  lemma HandleOne(k: Known, line: string, callback: bool)
    ensures HandleAll(k, [line], callback) == Handle(k, line, callback)
    ensures AllSafe(k.tokens, [line]) <==> Safe(k.tokens, line)
  {
    assert [line][1..] == [];
  }

  /** One more character of a text, where it completes a line and where it does not. */
  lemma OneCharacter(k: Known, f: Framer, text: string, i: nat, callback: bool)
    requires i < |text| && AllSafe(k.tokens, Steps(f, text[..i]).1)
    ensures var (g, lines) := Steps(f, text[..i]);
      var (h, more) := Step(g, text[i]);
      var after := HandleAll(k, lines, callback);
      && (more == [] ==> Steps(f, text[..i + 1]) == (h, lines))
      && (more != [] ==> (AllSafe(k.tokens, Steps(f, text[..i + 1]).1) <==> Safe(after.tokens, more[0])))
      && (more != [] ==> HandleAll(k, Steps(f, text[..i + 1]).1, callback) == Handle(after, more[0], callback))
  {
    StepsOne(f, text, i);
    var (g, lines) := Steps(f, text[..i]);
    var more := Step(g, text[i]).1;
    if more != [] {
      assert more == [more[0]];
      HandleAppend(k, lines, more, callback);
      HandleOne(HandleAll(k, lines, callback), more[0], callback);
    } else {
      assert lines + more == lines;
    }
  }

  lemma UnsafeSoFar(k: Known, f: Framer, text: string, i: nat)
    requires i <= |text| && !AllSafe(k.tokens, Steps(f, text[..i]).1)
    ensures !AllSafe(k.tokens, Steps(f, text).1)
  {
    StepsPrefix(f, text, i);
    var lines := Steps(f, text[..i]).1;
    assert Steps(f, text).1 == lines + Steps(f, text).1[|lines|..];
    HandleAppend(k, lines, Steps(f, text).1[|lines|..], false);
  }

  /**
   A text, received character by character: if all the lines that it completes are safe, each of them
   is handled once and in order.
   */
  method Receive(reader: Reader, text: string) returns (safe: bool)
    requires reader.Valid()
    modifies reader, reader.input
    ensures var (f, lines) := Steps(old(reader.State()), text);
      && (safe <==> AllSafe(old(reader.tokens), lines))
      && (safe ==> reader.Valid() && reader.State() == f)
      && (safe ==> reader.View() == HandleAll(old(reader.View()), lines, reader.callback))
  {
    safe := true;
    ghost var f, k := reader.State(), reader.View();
    var i := 0;
    while i < |text|
      invariant i <= |text| && reader.Valid()
      invariant reader.State() == Steps(f, text[..i]).0
      invariant AllSafe(k.tokens, Steps(f, text[..i]).1)
      invariant reader.View() == HandleAll(k, Steps(f, text[..i]).1, reader.callback)
    {
      OneCharacter(k, f, text, i, reader.callback);
      StepsOne(f, text, i);
      safe := reader.AddC(text[i]);
      i := i + 1;
      if !safe {
        UnsafeSoFar(k, f, text, i);
        return;
      }
    }
    assert text[..i] == text;
  }

  lemma {:induction false} SafeOnceSet(t: AllTokens, lines: seq<string>)
    requires HemispheresSet(t)
    ensures AllSafe(t, lines)
    decreases |lines|
  {
    if lines != [] {
      SafeOnceSet(TokensAfter(t, lines[0]), lines[1..]);
    }
  }

  /** From start-up a run of lines is safe if and only if its first line with an id is GGA or RMC. */
  lemma {:induction false} SafeExactly(t: AllTokens, lines: seq<string>)
    requires !t.latitudeHemi.init && !t.longitudeHemi.init
    ensures AllSafe(t, lines) <==> StartsKnown(lines)
    decreases |lines|
  {
    if lines == [] {
    } else if Id(lines[0]) == "" {
      assert TokensAfter(t, lines[0]) == t;
      SafeExactly(t, lines[1..]);
    } else if Id(lines[0]) == "GGA" || Id(lines[0]) == "RMC" {
      SafeOnceSet(TokensAfter(t, lines[0]), lines[1..]);
    } else {
      assert TokensAfter(t, lines[0]) == t;
    }
  }

  lemma ThreeTokens(a: string, b: string, c: string)
    requires Plainly(a) && Plainly(b) && Plainly(c) && |a| == 5
    ensures Tokens(Sentence([a, b, c])) == [a, b, c] && Id(Sentence([a, b, c])) == a[2..5]
  {
    TokensOfPlain([a, b, c]);
    LongLine([a, b, c]);
  }

  lemma UnsafeFirst(a: string, b: string, c: string)
    requires Plainly(a) && Plainly(b) && Plainly(c) && |a| == 5 && a[2..5] != "GGA" && a[2..5] != "RMC"
    ensures !AllSafe(NO_TOKENS, [Sentence([a, b, c])])
  {
    ThreeTokens(a, b, c);
    assert Id(Sentence([a, b, c])) == a[2..5] != "";
  }

  /** A first line that is not safe: "$GPGSA,A,3,*47". */
  lemma UnsafeFirstLine()
    ensures !AllSafe(NO_TOKENS, [Sentence(["GPGSA", "A", "3"])])
  {
    assert "GPGSA"[2..5][1] == 'S' && "GGA"[1] == 'G' && "RMC"[1] == 'M';
    UnsafeFirst("GPGSA", "A", "3");
  }

  // ---------------------------------------------------------------------------------------
  // From the printed position to the reported fix
  // ---------------------------------------------------------------------------------------

  /** y has the sign of x, or is zero, and is short of it by less than 1/600000 degree. */
  predicate Truncates(x: real, y: real) {
    if x < 0.0 then -y <= -x < -y + 1.0 / 600000.0 && y <= 0.0
    else y <= x < y + 1.0 / 600000.0 && y >= 0.0
  }

  /** A position whose line fits the reader. */
  predicate Printable(lat: real, lng: real, bearing: real) {
    Abs(lat) < 100.0 && Abs(lng) < 1000.0 && 0.0 <= bearing && Millionths(bearing) < 1000000000
  }

  /** What a fix says of a position. */
  ghost predicate Reports(f: Fix, lat: real, lng: real, bearing: real) {
    && f.hasLatLong && Truncates(lat, f.latitude) && Truncates(lng, f.longitude)
    && f.hasBearing && -0.0000005 <= f.bearing - bearing <= 0.0000005
    && f.hasSpeed && f.speed == 0.0
  }

  lemma TextShort(x: real)
    requires 0.0 <= x < 1000.0
    ensures 9 <= |Text(Split(x))| < 16 && FromHhmm(Text(Split(x))) >= 0.0
  {
    var d := Split(x);
    SplitParts(x);
    TextReads(d);
    DegreesShort(x);
    HhmmPositive(d.degrees, d.minutes, d.fraction as real / 10000.0);
  }

  lemma HhmmPositive(degrees: nat, minutes: nat, r: real)
    requires minutes < 60 && 0.0 <= r < 1.0
    ensures HhmmOf((degrees * 100 + minutes) as real + r) >= 0.0
  {
    HhmmIs(degrees, minutes, r);
    assert (minutes as real + r) / 60.0 >= 0.0;
  }

  lemma DegreesShort(x: real)
    requires 0.0 <= x < 1000.0
    ensures 2 <= |Padded(Split(x).degrees, 2)| <= 3
  {
    FloorBelow(x, 1000);
    assert Pow10(3) == 1000;
    PaddedAtMost(Split(x).degrees, 2, 3);
    PaddedLength(Split(x).degrees, 2);
  }

  lemma BearingReturns(x: real)
    requires 0.0 <= x && Millionths(x) < 1000000000
    ensures |Fixed(x)| < 16 && -0.0000005 <= Str2Float(Fixed(x)) - x <= 0.0000005
  {
    assert Pow10(3) == 1000 && Pow10(6) == 1000000;
    PaddedAtMost(Millionths(x) / 1000000, 1, 3);
    PaddedLength(Millionths(x) % 1000000, 6);
    FixedReads(x);
  }

  lemma SignedReturns(x: real, t: Token, hemi: Token, negative: char)
    requires Abs(x) < 1000.0 && t.text == Text(Split(Abs(x)))
    requires Head(hemi) == negative <==> x < 0.0
    ensures Truncates(x, Signed(t, hemi, negative)) && |t.text| >= 6
  {
    TextShort(Abs(x));
    CoordinateReturns(Abs(x));
  }

  ghost predicate Holds(t: Token, s: string) { t == Token(s, true) }

  lemma LineAssigns(t: AllTokens, time: string, lat: string, ns: string, lng: string, ew: string,
                    speed: string, bearing: string, date: string)
    ensures var u := Assigned(t, Line(time, lat, ns, lng, ew, speed, bearing, date), "RMC");
      && Holds(u.fixStatus, "A") && Holds(u.latitude, lat) && Holds(u.latitudeHemi, ns)
      && Holds(u.longitude, lng) && Holds(u.longitudeHemi, ew)
      && Holds(u.speed, speed) && Holds(u.bearing, bearing) && Holds(u.date, date) && Holds(u.time, time)
  {
  }

  lemma UpdatedReports(t: AllTokens, fix: Fix, lat: real, lng: real, bearing: real)
    requires Printable(lat, lng, bearing)
    requires Holds(t.latitude, Text(Split(Abs(lat)))) && Holds(t.latitudeHemi, if lat < 0.0 then "S" else "N")
    requires Holds(t.longitude, Text(Split(Abs(lng)))) && Holds(t.longitudeHemi, if lng < 0.0 then "W" else "E")
    requires Holds(t.fixStatus, "A") && Holds(t.bearing, Fixed(bearing)) && Holds(t.speed, Fixed(0.0))
    ensures Reports(Updated(fix, t), lat, lng, bearing)
  {
    SignedReturns(lat, t.latitude, t.latitudeHemi, 'S');
    SignedReturns(lng, t.longitude, t.longitudeHemi, 'W');
    BearingReturns(bearing);
    FixedPlain(bearing);
    FixedPlain(0.0);
    SpeedText();
  }

  /** The line of a printable position, whatever the reader knew before, gives a fix of that position. */
  lemma RmcReports(c: Clock, lat: real, lng: real, bearing: real, t: AllTokens, fix: Fix)
    requires Calendar(c) && Printable(lat, lng, bearing)
    ensures var line := Sentence(Rmc(c, lat, lng, bearing));
      && 9 <= |line| <= MAX_SIZE && Cut(line) == line && Id(line) == "RMC" && Safe(t, line)
      && Reports(FixAfter(fix, t, line), lat, lng, bearing)
  {
    var line, fs := Sentence(Rmc(c, lat, lng, bearing)), Rmc(c, lat, lng, bearing);
    RmcTokens(c, lat, lng, bearing);
    SentenceLength(c, lat, lng, bearing);
    SentenceFits(c, lat, lng, bearing);
    assert Id(line) == fs[0][2..5] == "RMC";
    LineAssigns(t, Three(c.hour, c.minute, c.second),
                Text(Split(Abs(lat))), if lat < 0.0 then "S" else "N",
                Text(Split(Abs(lng))), if lng < 0.0 then "W" else "E",
                Fixed(0.0), Fixed(bearing), Three(c.day, c.month, c.year));
    UpdatedReports(Assigned(t, fs, "RMC"), fix, lat, lng, bearing);
  }

  /** Of a GGA line the reader takes tokens 3 and 5 for the coordinates, if they are long enough. */
  lemma GgaMovesExactly(line: string, t: AllTokens, fix: Fix)
    requires Id(line) == "GGA" && !fix.hasLatLong
    ensures FixAfter(fix, t, line).hasLatLong
       <==> |Tokens(line)| > 5 && |Tokens(line)[3]| >= 6 && |Tokens(line)[5]| >= 6
  {
    LocatedExactly(TokensAfter(t, line), fix);
  }

  lemma LocatedExactly(t: AllTokens, fix: Fix)
    ensures Updated(fix, t).hasLatLong <==> fix.hasLatLong || (LongEnough(t.latitude) && LongEnough(t.longitude))
  {
    var f := WithLatLong(fix, t);
    assert f.hasLatLong <==> fix.hasLatLong || (LongEnough(t.latitude) && LongEnough(t.longitude));
    var g := WithAccuracy(WithAltitude(f, t), t);
    assert g.hasLatLong == f.hasLatLong;
    assert WithSpeed(WithBearing(g, t), t).hasLatLong == g.hasLatLong;
  }

  lemma SevenTokens(a: string, b: string, c: string, x: string, d: string, y: string, e: string)
    requires Plainly(a) && Plainly(b) && Plainly(c) && Plainly(x) && Plainly(d) && Plainly(y) && Plainly(e)
    requires |a| == 5
    ensures var line := Sentence([a, b, c, x, d, y, e]);
      Id(line) == a[2..5] && |Tokens(line)| == 7 && Tokens(line)[3] == x && Tokens(line)[5] == y
  {
    var fs := [a, b, c, x, d, y, e];
    TokensOfPlain(fs);
    LongLine(fs);
  }

  /** Such lines exist: with any two texts of six characters in these places, as in "$GPGGA,1,2,123456,N,123456,E,*47". */
  lemma GgaThatMoves(x: string, y: string, t: AllTokens, fix: Fix)
    requires Plainly(x) && Plainly(y) && |x| >= 6 && |y| >= 6 && !fix.hasLatLong
    ensures FixAfter(fix, t, Sentence(["GPGGA", "1", "2", x, "N", y, "E"])).hasLatLong
  {
    SevenTokens("GPGGA", "1", "2", x, "N", y, "E");
    assert "GPGGA"[2..5] == "GGA";
    GgaMovesExactly(Sentence(["GPGGA", "1", "2", x, "N", y, "E"]), t, fix);
  }

  lemma GgaAssigns(t: AllTokens, time: string, lat: string, ns: string, lng: string, ew: string, accuracy: string, altitude: string)
    ensures var u := Assigned(t, GgaTokens(time, lat, ns, lng, ew, accuracy, altitude), "GGA");
      && Holds(u.fixStatus, lat) && Holds(u.latitude, ns) && Holds(u.longitude, ew)
      && Holds(u.latitudeHemi, lng) && Holds(u.longitudeHemi, "1")
      && Holds(u.accuracy, accuracy) && Holds(u.altitude, altitude)
  {
  }

  lemma AltitudeUpdated(t: AllTokens, fix: Fix, accuracy: nat, altitude: real)
    requires accuracy <= 200 && |t.latitude.text| == 1
    requires t.fixStatus.text != "" && t.fixStatus.text[0] != 'A'
    requires Holds(t.accuracy, Padded(accuracy, 1)) && Holds(t.altitude, Fixed(altitude))
    ensures Updated(fix, t) == fix.(hasAltitude := true, altitude := Str2Float(Fixed(altitude)),
                                    hasAccuracy := true, accuracy := accuracy)
  {
    PaddedReads(accuracy, 1);
    SpanAll(Padded(accuracy, 1));
    assert Padded(accuracy, 1)[..|Padded(accuracy, 1)|] == Padded(accuracy, 1);
    FixedPlain(altitude);
  }

  lemma TextStarts(d: Dms)
    ensures Text(d) != "" && Digit(Text(d)[0])
  {
    PaddedReads(d.degrees, 2);
  }

  /**
   The altitude line that the server prints, for every position and clock, sets exactly the altitude
   and the accuracy: position, bearing and speed stay as they were. The reader takes the hemisphere
   letter for the latitude, because it looks for the fields of RMC.
   */
  lemma GgaReports(c: Clock, lat: real, lng: real, accuracy: nat, altitude: real, t: AllTokens, fix: Fix)
    requires accuracy <= 200
    ensures var line := Sentence(Gga(c, lat, lng, accuracy, altitude));
      && Id(line) == "GGA" && Safe(t, line)
      && FixAfter(fix, t, line) == fix.(hasAltitude := true, altitude := Str2Float(Fixed(altitude)),
                                        hasAccuracy := true, accuracy := accuracy)
  {
    var line := Sentence(Gga(c, lat, lng, accuracy, altitude));
    TokensOfGga(c, lat, lng, accuracy, altitude);
    assert Tokens(line)[0] == "GPGGA";
    LongLine(Gga(c, lat, lng, accuracy, altitude));
    assert Id(line) == Tokens(line)[0][2..5] == "GGA";
    GgaAssigns(t, Three(c.hour, c.minute, c.second),
               Text(Split(Abs(lat))), if lat < 0.0 then "S" else "N",
               Text(Split(Abs(lng))), if lng < 0.0 then "W" else "E",
               Padded(accuracy, 1), Fixed(altitude));
    TextStarts(Split(Abs(lat)));
    AltitudeUpdated(TokensAfter(t, line), fix, accuracy, altitude);
  }

  lemma LongLine(fields: seq<string>)
    requires fields != [] && |fields[0]| >= 5
    ensures |Sentence(fields)| >= 11
  {
  }

  /** An altitude is read within half a millionth if it prints with at most fifteen characters, and as zero otherwise. */
  lemma AltitudeReturns(x: real)
    ensures if |Fixed(x)| <= 15 then -0.0000005 <= Str2Float(Fixed(x)) - x <= 0.0000005 else Str2Float(Fixed(x)) == 0.0
  {
    FixedReads(x);
  }

  /** A sentence of clean fields is delivered whole exactly if it has at most 83 characters. */
  lemma SentenceFramed(fields: seq<string>)
    requires AllClean(fields)
    ensures Steps(IDLE, Sentence(fields)).1 == [Sentence(fields)] <==> |Sentence(fields)| <= MAX_SIZE
    ensures |Sentence(fields)| <= MAX_SIZE ==> Steps(IDLE, Sentence(fields)).0 == IDLE
  {
    JoinedOneLine(fields);
    LineFramed(Body(fields));
  }

  /**
   A line that the print buffer has cut has lost its newline, so that the reader drops it together
   with whatever line follows.
   */
  lemma CutSwallowsNext(fields: seq<string>, next: string)
    requires AllClean(fields) && OneLine(next) && Cut(Sentence(fields)) != Sentence(fields)
    ensures |Sentence(fields)| > 127 && OneLine(Cut(Sentence(fields)))
    ensures Steps(IDLE, Cut(Sentence(fields)) + next + "\n") == (IDLE, [])
  {
    JoinedOneLine(fields);
    var cut := Cut(Sentence(fields));
    assert forall k :: 0 <= k < |cut| ==> cut[k] == Body(fields)[k];
    LineFramed(cut + next);
  }

  /**
   From the printer to the fix: an idle reader that is fed the line of a printable position delivers
   exactly that line, is idle again, and takes it for a fix of that position.
   */
  lemma PrintedPositionArrives(c: Clock, lat: real, lng: real, bearing: real, t: AllTokens, fix: Fix)
    requires Calendar(c) && Printable(lat, lng, bearing)
    ensures var line := Sentence(Rmc(c, lat, lng, bearing));
      && Cut(line) == line && Steps(IDLE, line) == (IDLE, [line]) && Safe(t, line)
      && Reports(FixAfter(fix, t, line), lat, lng, bearing)
  {
    var fs := Rmc(c, lat, lng, bearing);
    RmcReports(c, lat, lng, bearing, t, fix);
    RmcPlain(c, lat, lng, bearing);
    PlainIsClean(fs);
    SentenceFramed(fs);
  }
  // ---------------------------------------------------------------------------------------
  // What the callback is given
  // ---------------------------------------------------------------------------------------

  /** A line that the server prints: a position with its bearing, or an altitude with its accuracy. */
  datatype Message =
    | Position(c: Clock, lat: real, lng: real, bearing: real)
    | Height(c: Clock, lat: real, lng: real, accuracy: nat, altitude: real)

  function LineOf(m: Message): string {
    match m
    case Position(c, lat, lng, bearing) => Sentence(Rmc(c, lat, lng, bearing))
    case Height(c, lat, lng, accuracy, altitude) => Sentence(Gga(c, lat, lng, accuracy, altitude))
  }

  /** Its line fits the reader and its numbers can be read back. */
  predicate Ordinary(m: Message) {
    && Calendar(m.c)
    && match m
      case Position(_, lat, lng, bearing) => Printable(lat, lng, bearing)
      case Height(_, lat, lng, accuracy, altitude) =>
        Abs(lat) < 100.0 && Abs(lng) < 1000.0 && accuracy <= 200 && Millionths(Abs(altitude)) < 10000000000000
  }

  function LinesOf(ms: seq<Message>): seq<string> {
    if ms == [] then [] else LinesOf(ms[..|ms| - 1]) + [LineOf(ms[|ms| - 1])]
  }

  function TextOf(ms: seq<Message>): string {
    if ms == [] then "" else TextOf(ms[..|ms| - 1]) + LineOf(ms[|ms| - 1])
  }

  /** The fix f says altitude and accuracy as an altitude line did. */
  ghost predicate Raised(f: Fix, m: Message) {
    && m.Height? && f.hasAltitude && f.hasAccuracy && f.accuracy == m.accuracy
    && -0.0000005 <= f.altitude - m.altitude <= 0.0000005
  }

  /** The altitude line that message i is, or that came last before it. */
  ghost predicate LastHeight(ms: seq<Message>, i: nat, h: nat)
    requires i < |ms|
  {
    h <= i && ms[h].Height? && forall k :: h < k <= i ==> ms[k].Position?
  }

  /**
   What the callback is given for message i. For an altitude line: altitude and accuracy and nothing
   else. For a position: that, bearing and speed, and altitude and accuracy of the last altitude line
   if there has been one.
   */
  ghost predicate Answer(f: Fix, ms: seq<Message>, i: nat)
    requires i < |ms|
  {
    && (forall h: nat :: LastHeight(ms, i, h) ==> Raised(f, ms[h]))
    && ((forall k :: 0 <= k <= i ==> ms[k].Position?) ==> !f.hasAltitude && !f.hasAccuracy)
    && match ms[i]
      case Position(_, lat, lng, bearing) => Reports(f, lat, lng, bearing)
      case Height(_, _, _, _, _) => !f.hasLatLong && !f.hasBearing && !f.hasSpeed
  }

  /** The reader has these tokens from the altitude line m, and still has them after positions. */
  predicate Remembers(t: AllTokens, m: Message) {
    && m.Height? && t.accuracy == Token(Padded(m.accuracy, 1), true) && t.altitude == Token(Fixed(m.altitude), true)
  }

  predicate RemembersNone(t: AllTokens) { !t.accuracy.init && !t.altitude.init }

  ghost predicate RemembersLast(t: AllTokens, ms: seq<Message>) {
    && (forall h: nat :: ms != [] && LastHeight(ms, |ms| - 1, h) ==> Remembers(t, ms[h]))
    && ((forall k :: 0 <= k < |ms| ==> ms[k].Position?) ==> RemembersNone(t))
  }

  lemma PositionTokens(m: Message, t: AllTokens)
    requires Ordinary(m) && m.Position?
    ensures Id(LineOf(m)) == "RMC"
    ensures TokensAfter(t, LineOf(m)).accuracy == t.accuracy && TokensAfter(t, LineOf(m)).altitude == t.altitude
  {
    var fix := Fix(false, 0.0, 0.0, false, 0.0, false, 0, false, 0.0, false, 0.0);
    RmcReports(m.c, m.lat, m.lng, m.bearing, t, fix);
  }

  lemma HeightTokens(m: Message, t: AllTokens)
    requires Ordinary(m) && m.Height?
    ensures Remembers(TokensAfter(t, LineOf(m)), m)
  {
    TokensOfGga(m.c, m.lat, m.lng, m.accuracy, m.altitude);
    LongLine(Gga(m.c, m.lat, m.lng, m.accuracy, m.altitude));
    assert Id(LineOf(m)) == Tokens(LineOf(m))[0][2..5] == "GGA";
  }

  /** How altitude and accuracy come into a fix that had neither. */
  lemma TokensRaise(fix: Fix, t: AllTokens)
    requires !fix.hasAltitude && !fix.hasAccuracy
    ensures RemembersNone(t) ==> !Updated(fix, t).hasAltitude && !Updated(fix, t).hasAccuracy
    ensures Given(t.altitude) ==> Updated(fix, t).hasAltitude && Updated(fix, t).altitude == Str2Float(t.altitude.text)
    ensures t.accuracy.init && 0 <= Int(t.accuracy.text) <= 200
      ==> Updated(fix, t).hasAccuracy && Updated(fix, t).accuracy == Int(t.accuracy.text)
  {
    var f := WithLatLong(fix, t);
    assert !f.hasAltitude && !f.hasAccuracy;
    var g := WithAltitude(f, t);
    var h := WithAccuracy(g, t);
    var i := WithBearing(h, t);
    var j := WithSpeed(i, t);
    assert h.hasAltitude == g.hasAltitude && h.altitude == g.altitude;
    assert j.hasAltitude == h.hasAltitude && j.altitude == h.altitude && j.hasAccuracy == h.hasAccuracy && j.accuracy == h.accuracy;
  }

  lemma RememberedRaises(fix: Fix, t: AllTokens, m: Message)
    requires !fix.hasAltitude && !fix.hasAccuracy && Remembers(t, m) && Ordinary(m)
    ensures Raised(Updated(fix, t), m)
  {
    TokensRaise(fix, t);
    FixedPlain(m.altitude);
    AltitudeShort(m.altitude);
    AltitudeReturns(m.altitude);
    PaddedReads(m.accuracy, 1);
    SpanAll(Padded(m.accuracy, 1));
    assert Padded(m.accuracy, 1)[..|Padded(m.accuracy, 1)|] == Padded(m.accuracy, 1);
  }

  /** One printed line, given to a reader whose fix holds nothing: exactly one report, and it holds nothing again. */
  lemma PositionHandled(m: Message, k: Known)
    requires Ordinary(m) && m.Position? && Silent(k.fix)
    ensures var f := FixAfter(k.fix, k.tokens, LineOf(m));
      && Handle(k, LineOf(m), true) == Known(TokensAfter(k.tokens, LineOf(m)), f.Cleared(), k.reported + [f])
      && Silent(f.Cleared()) && Safe(k.tokens, LineOf(m))
      && Reports(f, m.lat, m.lng, m.bearing)
      && (RemembersNone(k.tokens) ==> !f.hasAltitude && !f.hasAccuracy)
      && (forall h | Ordinary(h) && Remembers(k.tokens, h) :: Raised(f, h))
  {
    RmcReports(m.c, m.lat, m.lng, m.bearing, k.tokens, k.fix);
    PositionTokens(m, k.tokens);
    TokensRaise(k.fix, TokensAfter(k.tokens, LineOf(m)));
    forall h | Ordinary(h) && Remembers(k.tokens, h) ensures Raised(FixAfter(k.fix, k.tokens, LineOf(m)), h) {
      RememberedRaises(k.fix, TokensAfter(k.tokens, LineOf(m)), h);
    }
  }

  lemma HeightHandled(m: Message, k: Known)
    requires Ordinary(m) && m.Height? && Silent(k.fix)
    ensures var f := FixAfter(k.fix, k.tokens, LineOf(m));
      && Handle(k, LineOf(m), true) == Known(TokensAfter(k.tokens, LineOf(m)), f.Cleared(), k.reported + [f])
      && Silent(f.Cleared()) && Safe(k.tokens, LineOf(m))
      && Raised(f, m) && !f.hasLatLong && !f.hasBearing && !f.hasSpeed
  {
    GgaReports(m.c, m.lat, m.lng, m.accuracy, m.altitude, k.tokens, k.fix);
    AltitudeShort(m.altitude);
    AltitudeReturns(m.altitude);
  }

  ghost predicate AllOrdinary(ms: seq<Message>) { forall i :: 0 <= i < |ms| ==> Ordinary(ms[i]) }

  /** After any sequence of printed lines: one report for each of them, and what the reader is left with. */
  ghost predicate Answered(n: Known, ms: seq<Message>) {
    && |n.reported| == |ms| && Silent(n.fix) && RemembersLast(n.tokens, ms)
    && forall i :: 0 <= i < |ms| ==> Answer(n.reported[i], ms, i)
  }

  lemma AnswerKept(f: Fix, ms: seq<Message>, m: Message, i: nat)
    requires i < |ms| && Answer(f, ms, i)
    ensures Answer(f, ms + [m], i)
  {
    var more := ms + [m];
    forall h: nat | LastHeight(more, i, h) ensures Raised(f, more[h]) {
      assert LastHeight(ms, i, h) by {
        forall k | h < k <= i ensures ms[k].Position? { assert more[k] == ms[k]; }
      }
    }
    if forall k :: 0 <= k <= i ==> more[k].Position? {
      forall k | 0 <= k <= i ensures ms[k].Position? { assert more[k] == ms[k]; }
    }
  }

  lemma LastHeightKept(ms: seq<Message>, m: Message, h: nat)
    requires m.Position? && LastHeight(ms + [m], |ms|, h)
    ensures ms != [] && LastHeight(ms, |ms| - 1, h)
  {
    forall k | h < k < |ms| ensures ms[k].Position? { assert (ms + [m])[k] == ms[k]; }
  }

  lemma PositionNext(n: Known, ms: seq<Message>, m: Message)
    requires AllOrdinary(ms) && Ordinary(m) && m.Position? && Silent(n.fix) && RemembersLast(n.tokens, ms)
    ensures var f := FixAfter(n.fix, n.tokens, LineOf(m));
      Answer(f, ms + [m], |ms|) && RemembersLast(TokensAfter(n.tokens, LineOf(m)), ms + [m])
  {
    var more, f := ms + [m], FixAfter(n.fix, n.tokens, LineOf(m));
    var t := TokensAfter(n.tokens, LineOf(m));
    PositionHandled(m, n);
    PositionTokens(m, n.tokens);
    forall h: nat | LastHeight(more, |ms|, h) ensures Raised(f, more[h]) && Remembers(t, more[h]) {
      LastHeightKept(ms, m, h);
      assert more[h] == ms[h] && Ordinary(ms[h]);
    }
    if forall k :: 0 <= k < |more| ==> more[k].Position? {
      forall k | 0 <= k < |ms| ensures ms[k].Position? { assert more[k] == ms[k]; }
    }
    assert more[|ms|] == m;
  }

  lemma HeightNext(n: Known, ms: seq<Message>, m: Message)
    requires Ordinary(m) && m.Height? && Silent(n.fix)
    ensures var f := FixAfter(n.fix, n.tokens, LineOf(m));
      Answer(f, ms + [m], |ms|) && RemembersLast(TokensAfter(n.tokens, LineOf(m)), ms + [m])
  {
    var more := ms + [m];
    HeightHandled(m, n);
    HeightTokens(m, n.tokens);
    assert more[|ms|] == m;
    forall h: nat | LastHeight(more, |ms|, h) ensures h == |ms| {
      if h < |ms| {
        assert false;
      }
    }
  }

  lemma AnswerNext(n: Known, ms: seq<Message>, m: Message)
    requires AllOrdinary(ms) && Ordinary(m) && Answered(n, ms)
    ensures Safe(n.tokens, LineOf(m)) && Answered(Handle(n, LineOf(m), true), ms + [m])
  {
    var f := FixAfter(n.fix, n.tokens, LineOf(m));
    if m.Position? {
      PositionHandled(m, n);
      PositionNext(n, ms, m);
    } else {
      HeightHandled(m, n);
      HeightNext(n, ms, m);
    }
    OneMoreAnswered(n, ms, m, Handle(n, LineOf(m), true), f);
  }

  lemma OneMoreAnswered(n: Known, ms: seq<Message>, m: Message, after: Known, f: Fix)
    requires Answered(n, ms) && Answer(f, ms + [m], |ms|)
    requires after.reported == n.reported + [f] && Silent(after.fix) && RemembersLast(after.tokens, ms + [m])
    ensures Answered(after, ms + [m])
  {
    forall i | 0 <= i < |ms| ensures Answer(after.reported[i], ms + [m], i) {
      AnswerKept(n.reported[i], ms, m, i);
    }
  }

  /**
   A reader with a callback, from its start, is given any sequence of printed lines. It reports once
   for each line, what that line says (see Answer), and its flags are clear after every report.
   */
  lemma {:induction false} EveryLineReported(ms: seq<Message>, k: Known)
    requires AllOrdinary(ms) && Fresh(k)
    ensures AllSafe(k.tokens, LinesOf(ms)) && Answered(HandleAll(k, LinesOf(ms), true), ms)
  {
    if ms != [] {
      var before, m := ms[..|ms| - 1], ms[|ms| - 1];
      Rejoin(ms);
      EveryLineReported(before, k);
      LastLineReported(before, m, k);
    } else {
      NothingYet(k);
    }
  }

  lemma LastLineReported(ms: seq<Message>, m: Message, k: Known)
    requires AllOrdinary(ms) && Ordinary(m)
    requires AllSafe(k.tokens, LinesOf(ms)) && Answered(HandleAll(k, LinesOf(ms), true), ms)
    ensures AllSafe(k.tokens, LinesOf(ms + [m])) && Answered(HandleAll(k, LinesOf(ms + [m]), true), ms + [m])
  {
    HandleLast(k, ms, m);
    AnswerNext(HandleAll(k, LinesOf(ms), true), ms, m);
  }

  lemma Rejoin<T>(s: seq<T>)
    requires s != []
    ensures s[..|s| - 1] + [s[|s| - 1]] == s
  {
  }

  lemma NothingYet(k: Known)
    requires Fresh(k)
    ensures Answered(k, [])
  {
  }

  lemma HandleLast(k: Known, ms: seq<Message>, m: Message)
    ensures var lines := LinesOf(ms + [m]); var before := HandleAll(k, LinesOf(ms), true);
      && HandleAll(k, lines, true) == Handle(before, LineOf(m), true)
      && (AllSafe(k.tokens, lines) <==> AllSafe(k.tokens, LinesOf(ms)) && Safe(before.tokens, LineOf(m)))
  {
    assert (ms + [m])[..|ms|] == ms;
    HandleAppend(k, LinesOf(ms), [LineOf(m)], true);
    HandleOne(HandleAll(k, LinesOf(ms), true), LineOf(m), true);
  }

  /** Without a callback nothing is ever reported, and the fix keeps what all the lines have brought. */
  lemma {:induction false} NothingReported(k: Known, lines: seq<string>)
    ensures HandleAll(k, lines, false).reported == k.reported
    decreases |lines|
  {
    if lines != [] {
      NothingReported(Handle(k, lines[0], false), lines[1..]);
    }
  }

  lemma OrdinaryLine(m: Message)
    requires Ordinary(m)
    ensures Steps(IDLE, LineOf(m)) == (IDLE, [LineOf(m)])
  {
    match m {
      case Position(c, lat, lng, bearing) =>
        SentenceFits(c, lat, lng, bearing);
        RmcPlain(c, lat, lng, bearing);
        PlainIsClean(Rmc(c, lat, lng, bearing));
        SentenceFramed(Rmc(c, lat, lng, bearing));
      case Height(c, lat, lng, accuracy, altitude) =>
        GgaFits(c, lat, lng, accuracy, altitude);
        TokensOfGga(c, lat, lng, accuracy, altitude);
        SentenceFramed(Gga(c, lat, lng, accuracy, altitude));
    }
  }

  lemma {:induction false} StepsConcat(f: Framer, a: string, b: string)
    ensures var (g, lines) := Steps(f, a);
      Steps(f, a + b) == (Steps(g, b).0, lines + Steps(g, b).1)
    decreases |b|
  {
    var (g, lines) := Steps(f, a);
    if b == "" {
      assert a + b == a && lines + [] == lines;
    } else {
      var n := |b| - 1;
      assert (a + b)[..|a + b| - 1] == a + b[..n] && (a + b)[|a + b| - 1] == b[n];
      StepsConcat(f, a, b[..n]);
      var (h, more) := Steps(g, b[..n]);
      assert (lines + more) + Step(h, b[n]).1 == lines + (more + Step(h, b[n]).1);
    }
  }

  /** The characters of all these lines are framed into exactly these lines. */
  lemma {:induction false} StreamFramed(ms: seq<Message>)
    requires AllOrdinary(ms)
    ensures Steps(IDLE, TextOf(ms)) == (IDLE, LinesOf(ms))
  {
    if ms != [] {
      var before, m := ms[..|ms| - 1], ms[|ms| - 1];
      StreamFramed(before);
      OrdinaryLine(m);
      StepsConcat(IDLE, TextOf(before), LineOf(m));
    }
  }

  /** From the printed characters to the callback: a new reader reports once for each line, in order. */
  method ReceivePrinted(ms: seq<Message>) returns (reports: seq<Fix>)
    requires AllOrdinary(ms)
    ensures |reports| == |ms| && forall i :: 0 <= i < |ms| ==> Answer(reports[i], ms, i)
  {
    var reader := new Reader(true);
    StreamFramed(ms);
    EveryLineReported(ms, reader.View());
    var safe := Receive(reader, TextOf(ms));
    reports := reader.reported;
  }
}
