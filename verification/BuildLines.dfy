/** The build-order file: packages/legacy-replay-analysis/replay_analysis.py prints one line
    per event with a whole-second timestamp, and packages/corpus-store/python/store.py reads
    the lines back as windows of frames. */
module BuildLines {
  import opened Options

  const FRAME_DURATION_MS: nat := 42

  datatype Event = Event(frame: nat, owner: int, name: string)

  datatype BuildLine = BuildLine(name: string, seconds: nat, frameMin: int, frameMax: int, line: string)

  datatype Parsed = Builds(lines: seq<BuildLine>) | BadLine(line: string)

  // ----- Seconds and windows of frames -----

  /** `int(frame_to_seconds(frame))`. */
  function Seconds(frame: nat): nat { frame * FRAME_DURATION_MS / 1000 }

  function FrameMin(seconds: nat): nat { (seconds * 1000 + 41) / 42 }

  function FrameMax(seconds: nat): int { ((seconds + 1) * 1000 + 41) / 42 - 1 }

  /** The window of a second is exactly the set of frames printed as that second. */
  lemma {:induction false} WindowIsExact(frame: nat, seconds: nat)
    ensures FrameMin(seconds) <= frame <= FrameMax(seconds) <==> Seconds(frame) == seconds
  {
    var lo, hi := FrameMin(seconds), FrameMin(seconds + 1);
    assert 42 * lo <= seconds * 1000 + 41 < 42 * lo + 42;
    assert 42 * hi <= (seconds + 1) * 1000 + 41 < 42 * hi + 42;
    var s := Seconds(frame);
    assert 1000 * s <= 42 * frame < 1000 * s + 1000;
  }

  /** Windows follow one another without gap or overlap, from frame zero. */
  lemma {:induction false} WindowsTile(seconds: nat)
    ensures FrameMin(0) == 0
    ensures FrameMax(seconds) + 1 == FrameMin(seconds + 1)
    ensures FrameMin(seconds) + 22 <= FrameMax(seconds) <= FrameMin(seconds) + 23
  {
  }

  // ----- Characters -----

  /** `str.isspace` of Python, which is also what `\s` matches. */
  predicate IsSpace(c: char) {
    var n := c as int;
    9 <= n <= 13 || 0x1c <= n <= 0x20 || n == 0x85 || n == 0xa0 || n == 0x1680 || 0x2000 <= n <= 0x200a
    || n == 0x2028 || n == 0x2029 || n == 0x202f || n == 0x205f || n == 0x3000
  }

  /** Where `str.splitlines` breaks. */
  predicate IsBreak(c: char) {
    var n := c as int;
    10 <= n <= 13 || 0x1c <= n <= 0x1e || n == 0x85 || n == 0x2028 || n == 0x2029
  }

  predicate IsDigit(c: char) { '0' <= c <= '9' }

  predicate AllDigits(s: string) { forall i :: 0 <= i < |s| ==> IsDigit(s[i]) }

  predicate OneLine(s: string) { forall i :: 0 <= i < |s| ==> !IsBreak(s[i]) }

  predicate Blank(s: string) { forall i :: 0 <= i < |s| ==> IsSpace(s[i]) }

  // ----- Decimal numbers -----

  function Digit(d: nat): char
    requires d < 10
  {
    ('0' as int + d) as char
  }

  function Decimal(n: nat): string {
    if n < 10 then [Digit(n)] else Decimal(n / 10) + [Digit(n % 10)]
  }

  function Pad2(n: nat): string { if n < 10 then "0" + Decimal(n) else Decimal(n) }

  function Value(s: string): nat
    requires AllDigits(s)
  {
    if s == "" then 0 else Value(s[..|s| - 1]) * 10 + (s[|s| - 1] as int - '0' as int)
  }

  lemma {:induction false} DecimalValue(n: nat)
    ensures AllDigits(Decimal(n)) && Value(Decimal(n)) == n && Decimal(n) != ""
  {
    if n >= 10 {
      DecimalValue(n / 10);
      assert Decimal(n)[..|Decimal(n)| - 1] == Decimal(n / 10);
    } else {
      assert Decimal(n)[..0] == "";
    }
  }

  lemma {:induction false} Pad2Value(n: nat)
    ensures AllDigits(Pad2(n)) && Value(Pad2(n)) == n && |Pad2(n)| >= 2
    ensures n < 60 ==> |Pad2(n)| == 2 && '0' <= Pad2(n)[0] <= '5'
  {
    DecimalValue(n);
    if n < 10 {
      assert Pad2(n)[..1] == "0" && "0"[..0] == "";
      assert Value("0") == 0;
    } else {
      DecimalValue(n / 10);
    }
  }

  // ----- Printing -----

  function FormatTimestamp(frame: nat): string {
    Pad2(Seconds(frame) / 60) + ":" + Pad2(Seconds(frame) % 60)
  }

  function LineOf(e: Event): string { FormatTimestamp(e.frame) + " " + e.name }

  /** The first occurrence of every (frame, owner, name), in order. */
  function Distinct(events: seq<Event>, n: nat): seq<Event>
    requires n <= |events|
  {
    if n == 0 then []
    else if events[n - 1] in events[..n - 1] then Distinct(events, n - 1)
    else Distinct(events, n - 1) + [events[n - 1]]
  }

  /** The file with one line per event. */
  function Text(events: seq<Event>): string {
    if events == [] then "" else LineOf(events[0]) + "\n" + Text(events[1..])
  }

  function Join(lines: seq<string>): string {
    if lines == [] then "" else if |lines| == 1 then lines[0] else lines[0] + "\n" + Join(lines[1..])
  }

  function LinesOf(events: seq<Event>): seq<string> {
    if events == [] then [] else [LineOf(events[0])] + LinesOf(events[1..])
  }

  lemma {:induction false} LinesOfSnoc(events: seq<Event>, e: Event)
    ensures LinesOf(events + [e]) == LinesOf(events) + [LineOf(e)]
  {
    hide LineOf;
    if events != [] {
      assert (events + [e])[1..] == events[1..] + [e];
      LinesOfSnoc(events[1..], e);
    }
  }

  lemma {:induction false} JoinIsText(events: seq<Event>)
    requires events != []
    ensures Join(LinesOf(events)) + "\n" == Text(events)
  {
    hide LineOf;
    if |events| > 1 {
      JoinIsText(events[1..]);
      assert LinesOf(events)[1..] == LinesOf(events[1..]);
    } else {
      assert Text(events[1..]) == "" && LinesOf(events[1..]) == [];
    }
  }

  /** `render_events` for one owner's events. */
  method RenderEvents(events: seq<Event>) returns (text: string)
    ensures text == Text(Distinct(events, |events|))
  {
    hide LineOf, Text, Join;
    var lines: seq<string> := [];
    var seen: set<Event> := {};
    for i := 0 to |events|
      invariant lines == LinesOf(Distinct(events, i))
      invariant forall e :: e in seen <==> e in events[..i]
    {
      var e := events[i];
      assert events[..i + 1] == events[..i] + [e];
      if e in seen {
        continue;
      }
      seen := seen + {e};
      LinesOfSnoc(Distinct(events, i), e);
      lines := lines + [LineOf(e)];
    }
    text := Join(lines) + if lines != [] then "\n" else "";
    if lines != [] {
      JoinIsText(Distinct(events, |events|));
    } else {
      NoText();
    }
  }

  lemma {:induction false} NoText()
    ensures Join([]) == Text([]) == ""
  {
  }

  // ----- Reading -----

  /** The length of the longest prefix of digits. */
  function DigitRun(s: string): (n: nat)
    ensures n <= |s| && AllDigits(s[..n]) && (n < |s| ==> !IsDigit(s[n]))
  {
    if s == "" || !IsDigit(s[0]) then 0
    else
      var n := 1 + DigitRun(s[1..]);
      assert s[..n] == [s[0]] + s[1..][..n - 1];
      n
  }

  /** The length of the longest prefix of white space. */
  function SpaceRun(s: string): (n: nat)
    ensures n <= |s| && Blank(s[..n]) && (n < |s| ==> !IsSpace(s[n]))
  {
    if s == "" || !IsSpace(s[0]) then 0
    else
      var n := 1 + SpaceRun(s[1..]);
      assert s[..n] == [s[0]] + s[1..][..n - 1];
      n
  }

  /** What follows the timestamp: white space, then a non-empty name.  White space to the end of
      the line gives its last character to the name. */
  function NamePart(rest: string): Option<string> {
    var w := SpaceRun(rest);
    var from := if w < |rest| then w else w - 1;
    if w == 0 || from == 0 || '\n' in rest[from..] then None else Some(rest[from..])
  }

  /** The regular expression of `prepare`: digits, a colon, two digits below sixty, the name. */
  function ParseLine(line: string): Option<(string, nat)> {
    var d := DigitRun(line);
    if d == 0 || |line| < d + 3 || line[d] != ':' || !('0' <= line[d + 1] <= '5') || !IsDigit(line[d + 2]) then None
    else
      var name := NamePart(line[d + 3..]);
      if name.None? then None else Some((name.value, Value(line[..d]) * 60 + Value(line[d + 1..d + 3])))
  }

  function BuildOf(name: string, seconds: nat, line: string): BuildLine {
    BuildLine(name, seconds, FrameMin(seconds), FrameMax(seconds), line)
  }

  function FirstBreak(s: string): (n: nat)
    ensures n <= |s| && OneLine(s[..n]) && (n < |s| ==> IsBreak(s[n]))
  {
    if s == "" || IsBreak(s[0]) then 0
    else
      var n := 1 + FirstBreak(s[1..]);
      assert s[..n] == [s[0]] + s[1..][..n - 1];
      n
  }

  /** `str.splitlines`. */
  function SplitLines(s: string): seq<string> {
    if s == "" then []
    else
      var n := FirstBreak(s);
      if n == |s| then [s]
      else if s[n] == '\r' && n + 1 < |s| && s[n + 1] == '\n' then [s[..n]] + SplitLines(s[n + 2..])
      else [s[..n]] + SplitLines(s[n + 1..])
  }

  function Prepend(rows: seq<BuildLine>, p: Parsed): Parsed {
    match p
    case Builds(more) => Builds(rows + more)
    case BadLine(_) => p
  }

  /** Every line that is not blank must parse; the first that does not is the error. */
  function ParseLines(lines: seq<string>): Parsed {
    if lines == [] then Builds([])
    else if Blank(lines[0]) then ParseLines(lines[1..])
    else
      var p := ParseLine(lines[0]);
      if p.None? then BadLine(lines[0])
      else Prepend([BuildOf(p.value.0, p.value.1, lines[0])], ParseLines(lines[1..]))
  }

  // ----- A printed line reads back -----

  lemma {:induction false} DigitRunIs(s: string, n: nat)
    requires n <= |s| && AllDigits(s[..n]) && (n < |s| ==> !IsDigit(s[n]))
    ensures DigitRun(s) == n
  {
    hide IsDigit;
    assert s[..DigitRun(s)] <= s && s[..n] <= s;
  }

  lemma {:induction false} SpaceRunIs(s: string, n: nat)
    requires n <= |s| && Blank(s[..n]) && (n < |s| ==> !IsSpace(s[n]))
    ensures SpaceRun(s) == n
  {
    hide IsSpace;
    assert s[..SpaceRun(s)] <= s && s[..n] <= s;
  }

  /** A name that survives the trip: not empty, without a line feed, and not beginning with
      white space unless that is all of it. */
  predicate Readable(name: string) {
    name != "" && '\n' !in name && (!IsSpace(name[0]) || |name| == 1)
  }

  lemma {:induction false} NamePartIs(name: string)
    ensures NamePart(" " + name) == Some(name) <==> Readable(name)
  {
    var rest := " " + name;
    assert IsSpace(' ');
    if name == "" {
      SpaceRunIs(rest, 1);
    } else if !IsSpace(name[0]) {
      assert rest[..1] == " ";
      SpaceRunIs(rest, 1);
      assert rest[1..] == name;
    } else if |name| == 1 {
      SpaceRunIs(rest, 2);
      assert rest[1..] == name;
    } else {
      var w := SpaceRun(rest);
      assert rest[1] == name[0];
      assert w >= 2;
    }
  }

  /** Reading a printed line gives back the name and the second, exactly when the name is
      readable. */
  lemma {:induction false} LineRoundTrip(e: Event)
    ensures ParseLine(LineOf(e)) == Some((e.name, Seconds(e.frame))) <==> Readable(e.name)
    ensures ParseLine(LineOf(e)).Some? ==> ParseLine(LineOf(e)).value.1 == Seconds(e.frame)
  {
    hide Seconds, Pad2, Value, NamePart, DigitRun;
    var s := Seconds(e.frame);
    var minutes, seconds, line := Pad2(s / 60), Pad2(s % 60), LineOf(e);
    Pad2Value(s / 60);
    Pad2Value(s % 60);
    var d := |minutes|;
    assert line == minutes + ":" + seconds + " " + e.name;
    assert line[..d] == minutes && line[d] == ':';
    DigitRunIs(line, d);
    assert line[d + 1] == seconds[0] && line[d + 2] == seconds[1];
    assert line[d + 1..d + 3] == seconds;
    assert line[d + 3..] == " " + e.name;
    NamePartIs(e.name);
  }

  // ----- The whole file -----

  predicate Plain(name: string) { Readable(name) && OneLine(name) }

  ghost predicate AllPlain(events: seq<Event>) { forall i :: 0 <= i < |events| ==> Plain(events[i].name) }

  /** Every event has a row of its own, under its own name. */
  ghost predicate NamesBack(p: Parsed, events: seq<Event>) {
    p.Builds? && |p.lines| == |events| && forall i :: 0 <= i < |events| ==> p.lines[i].name == events[i].name
  }

  /** A printed line has no line break but those of its name, and is not blank. */
  lemma {:induction false} LineIsOneLine(e: Event)
    requires OneLine(e.name)
    ensures OneLine(LineOf(e)) && !Blank(LineOf(e))
  {
    var s := Seconds(e.frame);
    Pad2Value(s / 60);
    Pad2Value(s % 60);
    var minutes, seconds, line := Pad2(s / 60), Pad2(s % 60), LineOf(e);
    hide Pad2, Seconds, Value;
    assert line == minutes + ":" + seconds + " " + e.name;
    assert forall i :: 0 <= i < |minutes| ==> IsDigit(minutes[i]);
    assert forall i :: 0 <= i < |seconds| ==> IsDigit(seconds[i]);
    assert line[0] == minutes[0];
  }

  lemma {:induction false} FirstBreakIs(line: string, rest: string)
    requires OneLine(line)
    ensures FirstBreak(line + "\n" + rest) == |line|
  {
    var s := line + "\n" + rest;
    var n := FirstBreak(s);
    hide FirstBreak;
    assert s[|line|] == '\n' && IsBreak('\n');
    assert forall i :: 0 <= i < |line| ==> s[i] == line[i];
    assert s[..n] <= s;
  }

  lemma {:induction false} SplitsOneLine(line: string, rest: string)
    requires OneLine(line)
    ensures SplitLines(line + "\n" + rest) == [line] + SplitLines(rest)
  {
    var s := line + "\n" + rest;
    FirstBreakIs(line, rest);
    hide OneLine;
    assert s[|line|] == '\n' && s[..|line|] == line && s[|line| + 1..] == rest;
  }

  lemma {:induction false} ParsesOneLine(line: string, lines: seq<string>)
    requires !Blank(line) && ParseLine(line).Some?
    ensures ParseLines([line] + lines)
         == Prepend([BuildOf(ParseLine(line).value.0, ParseLine(line).value.1, line)], ParseLines(lines))
  {
    hide ParseLine, Blank, BuildOf;
    assert ([line] + lines)[1..] == lines;
  }

  /** What reading should give: one row per event, in order. */
  function Rows(events: seq<Event>): seq<BuildLine> {
    if events == [] then [] else [RowOf(events[0])] + Rows(events[1..])
  }

  function RowOf(e: Event): BuildLine { BuildOf(e.name, Seconds(e.frame), LineOf(e)) }

  lemma {:induction false} SplitsAll(events: seq<Event>)
    requires forall i :: 0 <= i < |events| ==> OneLine(events[i].name)
    ensures SplitLines(Text(events)) == LinesOf(events)
  {
    if events != [] {
      assert OneLine(events[0].name);
      LineIsOneLine(events[0]);
      SplitsAll(events[1..]);
      SplitsOneLine(LineOf(events[0]), Text(events[1..]));
      hide LineOf, SplitLines, OneLine;
    }
  }

  lemma {:induction false} SplitAreOneLine(s: string, k: nat)
    requires k < |SplitLines(s)|
    ensures OneLine(SplitLines(s)[k])
    decreases |s|
  {
    hide OneLine, FirstBreak, IsBreak;
    var n := FirstBreak(s);
    assert s[..|s|] == s;
    if k > 0 {
      var more := if s[n] == '\r' && n + 1 < |s| && s[n + 1] == '\n' then s[n + 2..] else s[n + 1..];
      SplitAreOneLine(more, k - 1);
      assert SplitLines(s) == [s[..n]] + SplitLines(more);
    } else {
      assert SplitLines(s)[0] == s[..n];
    }
  }

  /** No line break gets into a row's name. */
  lemma {:induction false} NamesAreOneLine(lines: seq<string>, i: nat)
    requires forall k :: 0 <= k < |lines| ==> OneLine(lines[k])
    requires ParseLines(lines).Builds? && i < |ParseLines(lines).lines|
    ensures OneLine(ParseLines(lines).lines[i].name)
  {
    hide OneLine;
    var more := ParseLines(lines[1..]);
    if Blank(lines[0]) {
      NamesAreOneLine(lines[1..], i);
    } else if i > 0 {
      NamesAreOneLine(lines[1..], i - 1);
    } else {
      NameIsOneLine(lines[0]);
    }
    hide ParseLine, Blank, OneLine;
  }

  lemma {:induction false} NameIsOneLine(line: string)
    requires OneLine(line) && ParseLine(line).Some?
    ensures OneLine(ParseLine(line).value.0)
  {
    hide IsBreak, Value;
  }

  /** Lines that come back under their own names have readable names. */
  lemma {:induction false} BackMeansReadable(events: seq<Event>, i: nat)
    requires forall k :: 0 <= k < |events| ==> OneLine(events[k].name)
    requires NamesBack(ParseLines(LinesOf(events)), events) && i < |events|
    ensures Readable(events[i].name)
  {
    hide *;
    var rest := events[1..];
    FirstComesBack(events);
    if i > 0 {
      assert forall k :: 0 <= k < |rest| ==> rest[k] == events[k + 1];
      BackMeansReadable(rest, i - 1);
    }
  }

  lemma {:induction false} FirstComesBack(events: seq<Event>)
    requires events != [] && OneLine(events[0].name) && NamesBack(ParseLines(LinesOf(events)), events)
    ensures Readable(events[0].name) && NamesBack(ParseLines(LinesOf(events[1..])), events[1..])
  {
    var e := events[0];
    LineIsOneLine(e);
    LineRoundTrip(e);
    assert LinesOf(events) == [LineOf(e)] + LinesOf(events[1..]);
    FirstParses(LineOf(e), LinesOf(events[1..]));
    var p, more := ParseLine(LineOf(e)), ParseLines(LinesOf(events[1..]));
    hide LineOf, LinesOf, ParseLine, ParseLines, Readable, Seconds, OneLine;
    NamesOfRest(BuildOf(p.value.0, p.value.1, LineOf(e)), more, events);
  }

  lemma {:induction false} FirstParses(line: string, lines: seq<string>)
    requires !Blank(line) && ParseLines([line] + lines).Builds?
    ensures ParseLine(line).Some?
    ensures ParseLines([line] + lines)
         == Prepend([BuildOf(ParseLine(line).value.0, ParseLine(line).value.1, line)], ParseLines(lines))
  {
    hide ParseLine, Blank, BuildOf;
    assert ([line] + lines)[1..] == lines;
  }

  lemma {:induction false} NamesOfRest(row: BuildLine, more: Parsed, events: seq<Event>)
    requires events != [] && NamesBack(Prepend([row], more), events)
    ensures row.name == events[0].name && NamesBack(more, events[1..])
  {
    assert forall k :: 0 <= k < |more.lines| ==> more.lines[k] == ([row] + more.lines)[k + 1];
  }

  /** The exact condition: every event comes back under its own name if and only if all names
      are plain. */
  lemma {:induction false} BackIffPlain(events: seq<Event>)
    ensures NamesBack(ParseLines(SplitLines(Text(events))), events) <==> AllPlain(events)
  {
    var lines := SplitLines(Text(events));
    var p := ParseLines(lines);
    if AllPlain(events) {
      ReadsBack(events);
      hide *;
      RowsAreNamed(events);
    } else if NamesBack(p, events) {
      hide SplitLines, ParseLines, Text, OneLine, Readable;
      forall k | 0 <= k < |lines|
        ensures OneLine(lines[k])
      {
        SplitAreOneLine(Text(events), k);
      }
      forall i | 0 <= i < |events|
        ensures OneLine(events[i].name)
      {
        NamesAreOneLine(lines, i);
      }
      SplitsAll(events);
      forall i | 0 <= i < |events|
        ensures Plain(events[i].name)
      {
        BackMeansReadable(events, i);
      }
      assert false;
    }
  }

  lemma {:induction false} RowsAreNamed(events: seq<Event>)
    ensures NamesBack(Builds(Rows(events)), events)
  {
    hide LineOf, Seconds;
    assert |Rows(events)| == |events| by {
      if events != [] {
        RowAt(events, 0);
      }
    }
    forall i | 0 <= i < |events|
      ensures Rows(events)[i].name == events[i].name
    {
      RowAt(events, i);
    }
  }

  lemma {:induction false} ReadsBack(events: seq<Event>)
    requires AllPlain(events)
    ensures ParseLines(SplitLines(Text(events))) == Builds(Rows(events))
  {
    if events != [] {
      var e := events[0];
      assert Plain(e.name);
      LineIsOneLine(e);
      LineRoundTrip(e);
      ReadsBack(events[1..]);
      SplitsOneLine(LineOf(e), Text(events[1..]));
      ParsesOneLine(LineOf(e), SplitLines(Text(events[1..])));
      hide LineOf, ParseLine, ParseLines, SplitLines, Seconds, BuildOf, Plain, Blank, OneLine, Readable;
    }
  }

  /** Each row has its event's name and a window that contains its frame. */
  lemma {:induction false} RowAt(events: seq<Event>, i: nat)
    requires i < |events|
    ensures |Rows(events)| == |events|
    ensures Rows(events)[i].name == events[i].name
    ensures Rows(events)[i].frameMin <= events[i].frame <= Rows(events)[i].frameMax
  {
    WindowIsExact(events[0].frame, Seconds(events[0].frame));
    hide Seconds, FrameMin, FrameMax, LineOf;
    if |events| > 1 {
      RowAt(events[1..], if i == 0 then 0 else i - 1);
    } else {
      assert Rows(events[1..]) == [];
    }
  }

  lemma {:induction false} SameArePlain(events: seq<Event>, kept: seq<Event>)
    requires forall e :: e in kept <==> e in events
    ensures AllPlain(kept) <==> AllPlain(events)
  {
    hide Plain;
    forall i | 0 <= i < |events| && AllPlain(kept)
      ensures Plain(events[i].name)
    {
      assert events[i] in kept;
    }
    forall i | 0 <= i < |kept| && AllPlain(events)
      ensures Plain(kept[i].name)
    {
      assert kept[i] in events;
    }
  }

  /** Printing and reading back: every distinct event comes back once, in order, under its own
      name, exactly when all names are plain; and then with a window of frames that contains its
      frame. */
  lemma {:induction false} FileRoundTrip(events: seq<Event>)
    ensures var kept := Distinct(events, |events|); var p := ParseLines(SplitLines(Text(kept)));
            && (NamesBack(p, kept) <==> AllPlain(events))
            && (AllPlain(events) ==>
                  forall i :: 0 <= i < |kept| ==> p.lines[i].frameMin <= kept[i].frame <= p.lines[i].frameMax)
  {
    var kept := Distinct(events, |events|);
    DistinctKeepsAll(events, |events|);
    assert events[..|events|] == events;
    hide *;
    SameArePlain(events, kept);
    BackIffPlain(kept);
    if AllPlain(events) {
      BackIsNamed(ParseLines(SplitLines(Text(kept))), kept);
    }
    if AllPlain(events) {
      ReadsBack(kept);
      forall i | 0 <= i < |kept|
        ensures Rows(kept)[i].frameMin <= kept[i].frame <= Rows(kept)[i].frameMax
      {
        RowAt(kept, i);
      }
    }
  }

  lemma {:induction false} BackIsNamed(p: Parsed, events: seq<Event>)
    requires NamesBack(p, events)
    ensures p.Builds? && |p.lines| == |events|
  {
  }

  /** Every event is kept, and none twice. */
  lemma {:induction false} DistinctKeepsAll(events: seq<Event>, n: nat)
    requires n <= |events|
    ensures forall e :: e in Distinct(events, n) <==> e in events[..n]
    ensures forall i, j :: 0 <= i < j < |Distinct(events, n)| ==> Distinct(events, n)[i] != Distinct(events, n)[j]
  {
    if n > 0 {
      DistinctKeepsAll(events, n - 1);
      assert events[..n] == events[..n - 1] + [events[n - 1]];
    }
  }

  lemma {:induction false} ParsesNext(lines: seq<string>, i: nat, rows: seq<BuildLine>)
    requires i < |lines|
    ensures var line, all := lines[i], Prepend(rows, ParseLines(lines[i..]));
            if Blank(line) then all == Prepend(rows, ParseLines(lines[i + 1..]))
            else if ParseLine(line).None? then all == BadLine(line)
            else all == Prepend(rows + [BuildOf(ParseLine(line).value.0, ParseLine(line).value.1, line)], ParseLines(lines[i + 1..]))
  {
    hide Blank, ParseLine, BuildOf;
    assert lines[i..][0] == lines[i] && lines[i..][1..] == lines[i + 1..];
  }

  lemma {:induction false} ParsesAll(lines: seq<string>, rows: seq<BuildLine>)
    ensures Prepend(rows, ParseLines(lines[|lines|..])) == Builds(rows)
    ensures Prepend([], ParseLines(lines)) == ParseLines(lines)
  {
    hide Blank, ParseLine, BuildOf;
  }

  /** The build-order part of `prepare`. */
  method PrepareBuilds(text: string) returns (r: Parsed)
    ensures r == ParseLines(SplitLines(text))
  {
    hide *;
    var lines := SplitLines(text);
    var builds: seq<BuildLine> := [];
    ParsesAll(lines, []);
    assert lines[0..] == lines;
    for i := 0 to |lines|
      invariant ParseLines(lines) == Prepend(builds, ParseLines(lines[i..]))
    {
      ParsesNext(lines, i, builds);
      if Blank(lines[i]) {
        continue;
      }
      var p := ParseLine(lines[i]);
      if p.None? {
        return BadLine(lines[i]);
      }
      builds := builds + [BuildOf(p.value.0, p.value.1, lines[i])];
    }
    ParsesAll(lines, builds);
    r := Builds(builds);
  }

  /** Where an event occurs first. */
  function FirstIndex(events: seq<Event>, e: Event): nat {
    if events == [] || events[0] == e then 0 else 1 + FirstIndex(events[1..], e)
  }

  lemma {:induction false} FirstIndexIs(events: seq<Event>, e: Event)
    requires e in events
    ensures FirstIndex(events, e) < |events| && events[FirstIndex(events, e)] == e
    ensures forall i :: 0 <= i < FirstIndex(events, e) ==> events[i] != e
  {
    if events[0] != e {
      FirstIndexIs(events[1..], e);
    }
  }

  /** The events that are kept stand in the order of their first occurrences. */
  lemma {:induction false} DistinctInOrder(events: seq<Event>, n: nat, i: nat, j: nat)
    requires n <= |events| && i < j < |Distinct(events, n)|
    ensures FirstIndex(events, Distinct(events, n)[i]) < FirstIndex(events, Distinct(events, n)[j]) < n
  {
    var kept := Distinct(events, n);
    DistinctKeepsAll(events, n - 1);
    if events[n - 1] in events[..n - 1] || j < |kept| - 1 {
      DistinctInOrder(events, n - 1, i, j);
    } else {
      assert kept[i] in Distinct(events, n - 1);
      assert kept[i] in events[..n - 1];
      var k :| 0 <= k < n - 1 && events[k] == kept[i];
      FirstIndexIs(events, kept[i]);
      FirstIndexIs(events, events[n - 1]);
    }
  }

  /** The characters that count as white space, and those that end a line, which are among them. */
  lemma {:induction false} CharactersOfLines(c: char)
    ensures IsBreak(c) <==> c as int in {10, 11, 12, 13, 28, 29, 30, 0x85, 0x2028, 0x2029}
    ensures IsSpace(c) <==> c as int in {9, 10, 11, 12, 13, 28, 29, 30, 31, 32, 0x85, 0xa0, 0x1680, 0x2000, 0x2001, 0x2002, 0x2003, 0x2004,
                                         0x2005, 0x2006, 0x2007, 0x2008, 0x2009, 0x200a, 0x2028, 0x2029, 0x202f, 0x205f, 0x3000}
    ensures IsBreak(c) ==> IsSpace(c)
  {
  }
}
