/** `escapeText` and `generateICS` of lib/ics.ts: an RFC 5545 calendar
    object (section 3.4) with one VEVENT component (section 3.6.1) per
    event, lines joined by CRLF.

    The clock read for DTSTAMP (`new Date()`) is the parameter `nowMs`, and
    the text `Math.random().toString(36).slice(2)` drawn for event `i` when it
    has no UID is `random(i)`. */
module Ics {
  import opened Wrappers
  import opened Strings
  import opened ICalDate

  /** `s.replace(/c/g, rep)`. */
  function ReplaceChar(s: string, c: char, rep: string): string {
    if s == [] then [] else (if s[0] == c then rep else [s[0]]) + ReplaceChar(s[1..], c, rep)
  }

  /** `escapeText(s)`: backslash first, then newline, comma and semicolon
      (the TEXT escapes of RFC 5545 section 3.3.11). */
  function EscapeText(s: string): string {
    ReplaceChar(ReplaceChar(ReplaceChar(ReplaceChar(s, '\\', "\\\\"), '\n', "\\n"), ',', "\\,"), ';', "\\;")
  }

  /** The escape of one character. */
  function EscapeChar(c: char): string {
    if c == '\\' then "\\\\"
    else if c == '\n' then "\\n"
    else if c == ',' then "\\,"
    else if c == ';' then "\\;"
    else [c]
  }

  /** Reading RFC 5545 TEXT back: a backslash takes the next character as
      `\\`, `n`, `,` or `;`; a bare comma, semicolon or newline, or any other
      escape, is not well-formed text. */
  function Unescape(r: string): Option<string> {
    if r == [] then Some([])
    else if r[0] == '\\' then
      if |r| < 2 then None
      else
        var c := r[1];
        var orig := if c == '\\' then Some('\\') else if c == 'n' then Some('\n')
                    else if c == ',' then Some(',') else if c == ';' then Some(';') else None;
        match (orig, Unescape(r[2..]))
        case (Some(o), Some(rest)) => Some([o] + rest)
        case _ => None
    else if r[0] == ',' || r[0] == ';' || r[0] == '\n' then None
    else
      match Unescape(r[1..])
      case Some(rest) => Some([r[0]] + rest)
      case None => None
  }

  lemma {:induction false} ReplaceCharConcat(a: string, b: string, c: char, rep: string)
    ensures ReplaceChar(a + b, c, rep) == ReplaceChar(a, c, rep) + ReplaceChar(b, c, rep)
  {
    if a != [] {
      assert (a + b)[0] == a[0];
      assert (a + b)[1..] == a[1..] + b;
      ReplaceCharConcat(a[1..], b, c, rep);
      var head := if a[0] == c then rep else [a[0]];
      assert ReplaceChar(a + b, c, rep) == head + (ReplaceChar(a[1..], c, rep) + ReplaceChar(b, c, rep));
    } else {
      assert a + b == b;
    }
  }

  lemma EscapeTextConcat(a: string, b: string)
    ensures EscapeText(a + b) == EscapeText(a) + EscapeText(b)
  {
    var a1, b1 := ReplaceChar(a, '\\', "\\\\"), ReplaceChar(b, '\\', "\\\\");
    ReplaceCharConcat(a, b, '\\', "\\\\");
    var a2, b2 := ReplaceChar(a1, '\n', "\\n"), ReplaceChar(b1, '\n', "\\n");
    ReplaceCharConcat(a1, b1, '\n', "\\n");
    var a3, b3 := ReplaceChar(a2, ',', "\\,"), ReplaceChar(b2, ',', "\\,");
    ReplaceCharConcat(a2, b2, ',', "\\,");
    ReplaceCharConcat(a3, b3, ';', "\\;");
  }

  /** One character is replaced when it is the target and kept otherwise. */
  lemma ReplaceCharSingle(c: char, d: char, rep: string)
    ensures ReplaceChar([c], d, rep) == if c == d then rep else [c]
  {
    assert [c][1..] == [];
  }

  /** A string without the target character is left as it is. */
  lemma ReplaceCharAbsent(s: string, d: char, rep: string)
    requires d !in s
    ensures ReplaceChar(s, d, rep) == s
  {
    if s != [] {
      assert d !in s[1..];
      ReplaceCharAbsent(s[1..], d, rep);
    }
  }

  /** On one character the four passes act as a single escape: the
      backslashes the later passes insert are not doubled again. */
  lemma EscapeTextOneChar(c: char)
    ensures EscapeText([c]) == EscapeChar(c)
  {
    var s1 := ReplaceChar([c], '\\', "\\\\");
    ReplaceCharSingle(c, '\\', "\\\\");
    if c == '\\' {
      assert s1 == "\\\\";
      ReplaceCharAbsent(s1, '\n', "\\n");
      ReplaceCharAbsent(s1, ',', "\\,");
      ReplaceCharAbsent(s1, ';', "\\;");
    } else {
      assert s1 == [c];
      var s2 := ReplaceChar(s1, '\n', "\\n");
      ReplaceCharSingle(c, '\n', "\\n");
      if c == '\n' {
        assert s2 == "\\n";
        ReplaceCharAbsent(s2, ',', "\\,");
        ReplaceCharAbsent(s2, ';', "\\;");
      } else {
        assert s2 == [c];
        var s3 := ReplaceChar(s2, ',', "\\,");
        ReplaceCharSingle(c, ',', "\\,");
        if c == ',' {
          assert s3 == "\\,";
          ReplaceCharAbsent(s3, ';', "\\;");
        } else {
          assert s3 == [c];
          ReplaceCharSingle(c, ';', "\\;");
        }
      }
    }
  }

  /** The escape of a string is the escape of its first character followed
      by the escape of the rest. */
  lemma EscapeTextCons(s: string)
    requires s != []
    ensures EscapeText(s) == EscapeChar(s[0]) + EscapeText(s[1..])
  {
    assert s == [s[0]] + s[1..];
    EscapeTextConcat([s[0]], s[1..]);
    EscapeTextOneChar(s[0]);
  }

  /** Escaping is undone by `Unescape`: the output is well-formed TEXT
      (no bare comma, semicolon or newline) and recovers the input. */
  lemma {:induction false} EscapeRoundTrip(s: string)
    ensures Unescape(EscapeText(s)) == Some(s)
  {
    if s != [] {
      EscapeTextCons(s);
      EscapeRoundTrip(s[1..]);
      var r := EscapeText(s);
      var c := s[0];
      if c == '\\' || c == '\n' || c == ',' || c == ';' {
        assert r[2..] == EscapeText(s[1..]);
      } else {
        assert r[1..] == EscapeText(s[1..]);
      }
      assert s == [c] + s[1..];
    } else {
      assert EscapeText(s) == [];
    }
  }

  /** An escaped value never spans lines. */
  lemma {:induction false} EscapeNoNewline(s: string)
    ensures '\n' !in EscapeText(s)
  {
    if s != [] {
      EscapeTextCons(s);
      EscapeNoNewline(s[1..]);
    } else {
      assert EscapeText(s) == [];
    }
  }

  /** Text without the four special characters is left as it is. */
  lemma {:induction false} EscapePlain(s: string)
    requires forall i :: 0 <= i < |s| ==> s[i] != '\\' && s[i] != '\n' && s[i] != ',' && s[i] != ';'
    ensures EscapeText(s) == s
  {
    if s != [] {
      EscapeTextCons(s);
      EscapePlain(s[1..]);
      assert s == [s[0]] + s[1..];
    } else {
      assert EscapeText(s) == [];
    }
  }

  /** `IcsEvent`; optional fields are `Option`s, and JavaScript's falsy
      empty string is `Some("")`. Instants are milliseconds. */
  datatype IcsEvent = IcsEvent(
    uid: Option<string>,
    start: int,
    end: int,
    title: string,
    description: Option<string>,
    location: Option<string>)

  /** A truthy optional string: present and non-empty. */
  predicate Present(o: Option<string>) {
    o.Some? && o.value != ""
  }

  /** The default `prodId`. */
  const DefaultProdId: string := "-//noah-buyer-studio//EN"

  const UidDomain: string := "@noah-buyer-studio"

  /** The five lines that open the calendar. */
  function Header(prodId: string): seq<string> {
    ["BEGIN:VCALENDAR", "VERSION:2.0", "PRODID:" + prodId, "CALSCALE:GREGORIAN", "METHOD:PUBLISH"]
  }

  /** `ev.uid || <random>@noah-buyer-studio`. */
  function Uid(ev: IcsEvent, random: string): string {
    if Present(ev.uid) then ev.uid.value else random + UidDomain
  }

  /** The values of one event as they are written into the file. */
  datatype EventText = EventText(
    uid: string,
    start: string,
    end: string,
    summary: string,
    location: Option<string>,
    description: Option<string>)

  /** The escaped value of a truthy optional field. */
  function EscapedField(o: Option<string>): Option<string> {
    if Present(o) then Some(EscapeText(o.value)) else None
  }

  /** What `generateICS` writes for the fields of `ev`. */
  function TextOf(ev: IcsEvent, random: string): EventText {
    EventText(Uid(ev, random), ToICalDate(ev.start), ToICalDate(ev.end), EscapeText(ev.title),
              EscapedField(ev.location), EscapedField(ev.description))
  }

  /** The texts of all events; event `i` draws `random(i)` if it needs a UID. */
  function Texts(events: seq<IcsEvent>, random: nat -> string): (r: seq<EventText>)
    ensures |r| == |events|
  {
    seq(|events|, i requires 0 <= i < |events| => TextOf(events[i], random(i)))
  }

  /** The VEVENT block of one event. */
  function EventLines(t: EventText, stamp: string): seq<string> {
    FixedLines(t, stamp) + OptionalLine(t.location, "LOCATION:")
      + OptionalLine(t.description, "DESCRIPTION:") + ["END:VEVENT"]
  }

  /** The lines every block has, from BEGIN:VEVENT to SUMMARY. */
  function FixedLines(t: EventText, stamp: string): seq<string> {
    ["BEGIN:VEVENT", "UID:" + t.uid, "DTSTAMP:" + stamp, "DTSTART:" + t.start, "DTEND:" + t.end, "SUMMARY:" + t.summary]
  }

  /** The line of an optional field: written only when the field is set. */
  function OptionalLine(field: Option<string>, name: string): (r: seq<string>)
    ensures |r| <= 1
  {
    match field case Some(v) => [name + v] case None => []
  }

  /** The blocks of all events, in input order. */
  function Blocks(texts: seq<EventText>, stamp: string): seq<string> {
    if texts == [] then []
    else
      var n := |texts| - 1;
      Blocks(texts[..n], stamp) + EventLines(texts[n], stamp)
  }

  /** Every line of the calendar, before joining. */
  function CalendarLines(events: seq<IcsEvent>, prodId: string, nowMs: int, random: nat -> string): seq<string> {
    Header(prodId) + Blocks(Texts(events, random), ToICalDate(nowMs)) + ["END:VCALENDAR"]
  }

  /** `generateICS(events, prodId)`: the header, each event's block, the
      closing line, joined with CRLF. */
  method GenerateIcs(events: seq<IcsEvent>, prodId: string, nowMs: int, random: nat -> string)
    returns (doc: string)
    ensures doc == Join(CalendarLines(events, prodId, nowMs, random), "\r\n")
  {
    var lines := ["BEGIN:VCALENDAR", "VERSION:2.0", "PRODID:" + prodId, "CALSCALE:GREGORIAN", "METHOD:PUBLISH"];
    var now := ToICalDate(nowMs);
    var blocks := WriteEvents(events, now, random);
    lines := lines + blocks;
    lines := lines + ["END:VCALENDAR"];
    doc := Join(lines, "\r\n");
  }

  /** The loop of `generateICS`: for each event in turn, push its block. */
  method WriteEvents(events: seq<IcsEvent>, now: string, random: nat -> string) returns (lines: seq<string>)
    ensures lines == Blocks(Texts(events, random), now)
  {
    lines := [];
    ghost var texts := Texts(events, random);
    for i := 0 to |events|
      invariant lines == Blocks(texts[..i], now)
    {
      var t := TextOf(events[i], random(i));
      var block := WriteEvent(t, now);
      assert texts[i] == t;
      BlocksSnoc(texts, now, i);
      lines := lines + block;
    }
    assert texts[..|events|] == texts;
  }

  /** The lines the loop body pushes for one event. */
  method WriteEvent(t: EventText, now: string) returns (block: seq<string>)
    ensures block == EventLines(t, now)
  {
    block := ["BEGIN:VEVENT", "UID:" + t.uid, "DTSTAMP:" + now, "DTSTART:" + t.start,
              "DTEND:" + t.end, "SUMMARY:" + t.summary];
    if t.location.Some? {
      block := block + ["LOCATION:" + t.location.value];
    }
    if t.description.Some? {
      block := block + ["DESCRIPTION:" + t.description.value];
    }
    block := block + ["END:VEVENT"];
  }

  /** The blocks of one more event are those before plus its own. */
  lemma BlocksSnoc(texts: seq<EventText>, stamp: string, i: nat)
    requires i < |texts|
    ensures Blocks(texts[..i + 1], stamp) == Blocks(texts[..i], stamp) + EventLines(texts[i], stamp)
  {
    assert texts[..i + 1][..i] == texts[..i];
  }

  /** The blocks of a prefix of the events open the blocks of all of them. */
  lemma {:induction false} BlocksPrefix(texts: seq<EventText>, stamp: string, i: nat)
    requires i <= |texts|
    ensures |Blocks(texts[..i], stamp)| <= |Blocks(texts, stamp)|
    ensures Blocks(texts, stamp)[..|Blocks(texts[..i], stamp)|] == Blocks(texts[..i], stamp)
    decreases |texts| - i
  {
    if i == |texts| {
      assert texts[..i] == texts;
    } else {
      BlocksPrefix(texts, stamp, i + 1);
      BlocksSnoc(texts, stamp, i);
      var small := Blocks(texts[..i], stamp);
      var big := Blocks(texts[..i + 1], stamp);
      assert big[..|small|] == small;
      PrefixOfPrefix(Blocks(texts, stamp), big, small);
    }
  }

  /** A prefix of a prefix is a prefix. */
  lemma PrefixOfPrefix<T>(all: seq<T>, big: seq<T>, small: seq<T>)
    requires |big| <= |all| && all[..|big|] == big
    requires |small| <= |big| && big[..|small|] == small
    ensures all[..|small|] == small
  {
    assert all[..|small|] == all[..|big|][..|small|];
  }

  /** How many entries of `lines` equal `line`. */
  function Count(lines: seq<string>, line: string): nat {
    if lines == [] then 0 else (if lines[0] == line then 1 else 0) + Count(lines[1..], line)
  }

  lemma {:induction false} CountConcat(a: seq<string>, b: seq<string>, line: string)
    ensures Count(a + b, line) == Count(a, line) + Count(b, line)
  {
    if a != [] {
      assert (a + b)[0] == a[0];
      assert (a + b)[1..] == a[1..] + b;
      CountConcat(a[1..], b, line);
    } else {
      assert a + b == b;
    }
  }

  /** A block opens and closes once. */
  lemma BlockCount(t: EventText, stamp: string)
    ensures Count(EventLines(t, stamp), "BEGIN:VEVENT") == 1
    ensures Count(EventLines(t, stamp), "END:VEVENT") == 1
  {
    var fixed := FixedLines(t, stamp);
    var loc := OptionalLine(t.location, "LOCATION:");
    var desc := OptionalLine(t.description, "DESCRIPTION:");
    var tail := ["END:VEVENT"];
    CountConcat(fixed + loc + desc, tail, "BEGIN:VEVENT");
    CountConcat(fixed + loc, desc, "BEGIN:VEVENT");
    CountConcat(fixed, loc, "BEGIN:VEVENT");
    CountConcat(fixed + loc + desc, tail, "END:VEVENT");
    CountConcat(fixed + loc, desc, "END:VEVENT");
    CountConcat(fixed, loc, "END:VEVENT");
    FixedLinesCount(t, stamp);
    OptionalLineCount(t.location, "LOCATION:");
    OptionalLineCount(t.description, "DESCRIPTION:");
    assert Count(tail, "BEGIN:VEVENT") == 0 && Count(tail, "END:VEVENT") == 1 by {
      assert tail[1..] == [];
    }
  }

  /** The fixed lines open the block and do not close it. */
  lemma FixedLinesCount(t: EventText, stamp: string)
    ensures Count(FixedLines(t, stamp), "BEGIN:VEVENT") == 1
    ensures Count(FixedLines(t, stamp), "END:VEVENT") == 0
  {
    var fixed := FixedLines(t, stamp);
    NoneCount(fixed[1..], "BEGIN:VEVENT");
    NoneCount(fixed[1..], "END:VEVENT");
    assert fixed[0] == "BEGIN:VEVENT" && fixed[0] != "END:VEVENT";
  }

  /** An optional line neither opens nor closes a block. */
  lemma OptionalLineCount(field: Option<string>, name: string)
    requires name == "LOCATION:" || name == "DESCRIPTION:"
    ensures Count(OptionalLine(field, name), "BEGIN:VEVENT") == 0
    ensures Count(OptionalLine(field, name), "END:VEVENT") == 0
  {
    NoneCount(OptionalLine(field, name), "BEGIN:VEVENT");
    NoneCount(OptionalLine(field, name), "END:VEVENT");
  }

  /** Lines that all differ from `line` do not count it; a line with a
      different first character differs. */
  lemma {:induction false} NoneCount(lines: seq<string>, line: string)
    requires line != []
    requires forall k :: 0 <= k < |lines| ==> lines[k] == [] || lines[k][0] != line[0]
    ensures Count(lines, line) == 0
  {
    if lines != [] {
      assert lines[0] != line;
      NoneCount(lines[1..], line);
    }
  }

  lemma {:induction false} BlocksCount(texts: seq<EventText>, stamp: string)
    ensures Count(Blocks(texts, stamp), "BEGIN:VEVENT") == |texts|
    ensures Count(Blocks(texts, stamp), "END:VEVENT") == |texts|
  {
    if texts != [] {
      var n := |texts| - 1;
      BlocksCount(texts[..n], stamp);
      BlockCount(texts[n], stamp);
      CountConcat(Blocks(texts[..n], stamp), EventLines(texts[n], stamp), "BEGIN:VEVENT");
      CountConcat(Blocks(texts[..n], stamp), EventLines(texts[n], stamp), "END:VEVENT");
    }
  }

  /** The calendar holds exactly one BEGIN:VEVENT and one END:VEVENT line per
      event, between the header and the closing line. */
  lemma CalendarEventCount(events: seq<IcsEvent>, prodId: string, nowMs: int, random: nat -> string)
    ensures var lines := CalendarLines(events, prodId, nowMs, random);
      && lines[..5] == Header(prodId) && lines[|lines| - 1] == "END:VCALENDAR"
      && Count(lines, "BEGIN:VEVENT") == |events| && Count(lines, "END:VEVENT") == |events|
  {
    var h := Header(prodId);
    var b := Blocks(Texts(events, random), ToICalDate(nowMs));
    var last := ["END:VCALENDAR"];
    assert CalendarLines(events, prodId, nowMs, random) == h + b + last;
    BlocksCount(Texts(events, random), ToICalDate(nowMs));
    CountConcat(h + b, last, "BEGIN:VEVENT");
    CountConcat(h, b, "BEGIN:VEVENT");
    CountConcat(h + b, last, "END:VEVENT");
    CountConcat(h, b, "END:VEVENT");
    HeaderHasNoEvent(prodId);
    ClosingHasNoEvent();
  }

  /** The calendar header holds no event line. */
  lemma HeaderHasNoEvent(prodId: string)
    ensures Count(Header(prodId), "BEGIN:VEVENT") == 0 && Count(Header(prodId), "END:VEVENT") == 0
  {
    var h := Header(prodId);
    NoneCount(h[1..], "BEGIN:VEVENT");
    NoneCount(h, "END:VEVENT");
    assert h[0] != "BEGIN:VEVENT";
    assert Count(h, "BEGIN:VEVENT") == Count(h[1..], "BEGIN:VEVENT");
  }

  /** Nor does the closing line. */
  lemma ClosingHasNoEvent()
    ensures Count(["END:VCALENDAR"], "BEGIN:VEVENT") == 0 && Count(["END:VCALENDAR"], "END:VEVENT") == 0
  {
    var last := ["END:VCALENDAR"];
    NoneCount(last, "BEGIN:VEVENT");
    assert last[0] != "END:VEVENT";
    assert Count(last, "END:VEVENT") == Count(last[1..], "END:VEVENT");
    assert last[1..] == [];
  }

  /** The block of event `i` sits after the blocks of the events before
      it, in input order, and carries the shared DTSTAMP. */
  lemma BlockAt(texts: seq<EventText>, stamp: string, i: nat)
    requires i < |texts|
    ensures var b := Blocks(texts, stamp);
      var start := |Blocks(texts[..i], stamp)|;
      var e := EventLines(texts[i], stamp);
      && start + |e| <= |b|
      && b[start..start + |e|] == e
      && b[start + 2] == "DTSTAMP:" + stamp
      && start < |Blocks(texts[..i + 1], stamp)|
  {
    var e := EventLines(texts[i], stamp);
    var before := Blocks(texts[..i], stamp);
    BlocksSnoc(texts, stamp, i);
    BlocksPrefix(texts, stamp, i + 1);
    SliceAfterPrefix(Blocks(texts, stamp), before, e);
    StampLine(texts[i], stamp);
  }

  /** When `a + e` opens `b`, `e` is the slice of `b` right after `a`. */
  lemma SliceAfterPrefix<T>(b: seq<T>, a: seq<T>, e: seq<T>)
    requires |a + e| <= |b| && b[..|a + e|] == a + e
    ensures |a| + |e| <= |b| && b[|a|..|a| + |e|] == e
  {
    assert b[|a|..|a| + |e|] == b[..|a + e|][|a|..];
  }

  /** The third line of a block is its DTSTAMP. */
  lemma StampLine(t: EventText, stamp: string)
    ensures |EventLines(t, stamp)| >= 7 && EventLines(t, stamp)[2] == "DTSTAMP:" + stamp
  {
    assert EventLines(t, stamp)[2] == FixedLines(t, stamp)[2];
  }

  /** Whether some line starts with `p`. */
  predicate HasLineStarting(lines: seq<string>, p: string) {
    exists k :: 0 <= k < |lines| && p <= lines[k]
  }

  /** LOCATION and DESCRIPTION lines appear exactly when those fields are
      truthy, and a supplied UID is used as it is. */
  lemma EventOptionalLines(ev: IcsEvent, stamp: string, random: string)
    ensures HasLineStarting(EventLines(TextOf(ev, random), stamp), "LOCATION:") <==> Present(ev.location)
    ensures HasLineStarting(EventLines(TextOf(ev, random), stamp), "DESCRIPTION:") <==> Present(ev.description)
    ensures Present(ev.uid) ==> EventLines(TextOf(ev, random), stamp)[1] == "UID:" + ev.uid.value
  {
    BlockOptionalLines(TextOf(ev, random), stamp);
  }

  lemma BlockOptionalLines(t: EventText, stamp: string)
    ensures HasLineStarting(EventLines(t, stamp), "LOCATION:") <==> t.location.Some?
    ensures HasLineStarting(EventLines(t, stamp), "DESCRIPTION:") <==> t.description.Some?
    ensures EventLines(t, stamp)[1] == "UID:" + t.uid
  {
    LocationLine(t, stamp);
    DescriptionLine(t, stamp);
  }

  /** Only the seventh line of a block can start with `L`, and it is the
      LOCATION line when there is a location. */
  lemma LocationLine(t: EventText, stamp: string)
    ensures HasLineStarting(EventLines(t, stamp), "LOCATION:") <==> t.location.Some?
    ensures EventLines(t, stamp)[1] == "UID:" + t.uid
  {
    var lines := EventLines(t, stamp);
    var fixed := FixedLines(t, stamp);
    var loc := OptionalLine(t.location, "LOCATION:");
    var desc := OptionalLine(t.description, "DESCRIPTION:");
    var nl := 6 + |loc|;
    assert forall k :: 0 <= k < |lines| && k != 6 ==> lines[k][0] != 'L' by {
      forall k | 0 <= k < |lines| && k != 6 ensures lines[k][0] != 'L' {
        if k < 6 {
          assert lines[k] == fixed[k];
        } else if k < nl {
          assert false;
        } else if k < nl + |desc| {
          assert lines[k] == desc[0];
        } else {
          assert lines[k] == "END:VEVENT";
        }
      }
    }
    if t.location.Some? {
      assert lines[6] == loc[0];
    } else {
      assert lines[6][0] != 'L';
    }
    assert lines[1] == fixed[1];
  }

  /** Only the line after the location (if any) can start with `DE`, and
      it is the DESCRIPTION line when there is a description. */
  lemma DescriptionLine(t: EventText, stamp: string)
    ensures HasLineStarting(EventLines(t, stamp), "DESCRIPTION:") <==> t.description.Some?
  {
    var lines := EventLines(t, stamp);
    var fixed := FixedLines(t, stamp);
    var loc := OptionalLine(t.location, "LOCATION:");
    var desc := OptionalLine(t.description, "DESCRIPTION:");
    var nl := 6 + |loc|;
    assert forall k :: 0 <= k < |lines| && k != nl ==> lines[k][0] != 'D' || lines[k][1] != 'E' by {
      forall k | 0 <= k < |lines| && k != nl ensures lines[k][0] != 'D' || lines[k][1] != 'E' {
        if k < 6 {
          assert lines[k] == fixed[k];
        } else if k < nl {
          assert lines[k] == loc[0];
        } else if k < nl + |desc| {
          assert false;
        } else {
          assert lines[k] == "END:VEVENT";
        }
      }
    }
    if t.description.Some? {
      assert lines[nl] == desc[0];
    } else {
      assert lines[nl] == "END:VEVENT";
    }
  }

  /** No date text holds a line break: it is digits, a sign, `T` and `Z`. */
  lemma DateNoNewline(t: int)
    ensures '\n' !in ToICalDate(t)
  {
    RenderNoNewline(Utc(t));
  }

  lemma RenderNoNewline(f: UtcFields)
    ensures '\n' !in Render(f)
  {
    IntNoNewline(f.year);
    PadNoNewline(f.month);
    PadNoNewline(f.day);
    PadNoNewline(f.hour);
    PadNoNewline(f.minute);
    PadNoNewline(f.second);
  }

  lemma IntNoNewline(n: int)
    ensures '\n' !in IntToString(n)
  {
    var m: nat := if n < 0 then -n else n;
    NatToStringValue(m);
    assert forall i :: 0 <= i < |NatToString(m)| ==> IsDigit(NatToString(m)[i]);
  }

  lemma PadNoNewline(n: int)
    ensures '\n' !in Pad(n, 2)
  {
    IntNoNewline(n);
    PadStartShape(IntToString(n), 2);
  }

  /** The values written for an event hold no line break when the UID
      (supplied or drawn) holds none. */
  lemma TextNoNewline(ev: IcsEvent, random: string)
    requires '\n' !in random
    requires Present(ev.uid) ==> '\n' !in ev.uid.value
    ensures var t := TextOf(ev, random);
      && '\n' !in t.uid && '\n' !in t.start && '\n' !in t.end && '\n' !in t.summary
      && (t.location.Some? ==> '\n' !in t.location.value)
      && (t.description.Some? ==> '\n' !in t.description.value)
  {
    UidNoNewline(ev, random);
    DateNoNewline(ev.start);
    DateNoNewline(ev.end);
    EscapeNoNewline(ev.title);
    if Present(ev.location) {
      EscapeNoNewline(ev.location.value);
    }
    if Present(ev.description) {
      EscapeNoNewline(ev.description.value);
    }
  }

  /** The UID, supplied or drawn, holds no line break when neither source does. */
  lemma UidNoNewline(ev: IcsEvent, random: string)
    requires '\n' !in random
    requires Present(ev.uid) ==> '\n' !in ev.uid.value
    ensures '\n' !in Uid(ev, random)
  {
    if !Present(ev.uid) {
      assert forall k :: 0 <= k < |UidDomain| ==> UidDomain[k] != '\n';
      assert Uid(ev, random) == random + UidDomain;
    }
  }

  predicate LinesNoNewline(lines: seq<string>) {
    forall k :: 0 <= k < |lines| ==> '\n' !in lines[k]
  }

  lemma {:induction false} BlocksNoNewline(texts: seq<EventText>, stamp: string)
    requires '\n' !in stamp
    requires forall i :: 0 <= i < |texts| ==>
      && '\n' !in texts[i].uid && '\n' !in texts[i].start && '\n' !in texts[i].end && '\n' !in texts[i].summary
      && (texts[i].location.Some? ==> '\n' !in texts[i].location.value)
      && (texts[i].description.Some? ==> '\n' !in texts[i].description.value)
    ensures LinesNoNewline(Blocks(texts, stamp))
  {
    if texts != [] {
      var n := |texts| - 1;
      BlocksNoNewline(texts[..n], stamp);
      var t := texts[n];
      var e := EventLines(t, stamp);
      forall k | 0 <= k < |e| ensures '\n' !in e[k] {
        var fixed := ["BEGIN:VEVENT", "UID:" + t.uid, "DTSTAMP:" + stamp, "DTSTART:" + t.start, "DTEND:" + t.end, "SUMMARY:" + t.summary];
        var loc := match t.location case Some(l) => ["LOCATION:" + l] case None => [];
        var desc := match t.description case Some(d) => ["DESCRIPTION:" + d] case None => [];
        assert e == fixed + loc + desc + ["END:VEVENT"];
      }
    }
  }

  /** The document is its lines joined by CRLF: cutting it at each CRLF
      gives the lines back (no value can hold a line break), and it ends with
      END:VCALENDAR, with no CRLF after it. */
  lemma CalendarSplitsIntoLines(events: seq<IcsEvent>, prodId: string, nowMs: int, random: nat -> string)
    requires '\n' !in prodId
    requires forall i: nat :: '\n' !in random(i)
    requires forall i :: 0 <= i < |events| && Present(events[i].uid) ==> '\n' !in events[i].uid.value
    ensures var lines := CalendarLines(events, prodId, nowMs, random);
      var doc := Join(lines, "\r\n");
      && Split(doc, "\r\n") == lines
      && |doc| >= 13 && doc[|doc| - 13..] == "END:VCALENDAR"
  {
    var lines := CalendarLines(events, prodId, nowMs, random);
    CalendarLinesNoNewline(events, prodId, nowMs, random);
    assert "\r\n"[1] !in "\r\n"[..1];
    SplitJoin(lines, "\r\n");
    JoinEndsWithLast(lines, "\r\n");
  }

  /** No line of the calendar holds a line break, and the last one closes it. */
  lemma CalendarLinesNoNewline(events: seq<IcsEvent>, prodId: string, nowMs: int, random: nat -> string)
    requires '\n' !in prodId
    requires forall i: nat :: '\n' !in random(i)
    requires forall i :: 0 <= i < |events| && Present(events[i].uid) ==> '\n' !in events[i].uid.value
    ensures var lines := CalendarLines(events, prodId, nowMs, random);
      && |lines| >= 1 && lines[|lines| - 1] == "END:VCALENDAR"
      && LinesNoNewline(lines)
  {
    var lines := CalendarLines(events, prodId, nowMs, random);
    var texts := Texts(events, random);
    var stamp := ToICalDate(nowMs);
    DateNoNewline(nowMs);
    forall i | 0 <= i < |texts|
      ensures && '\n' !in texts[i].uid && '\n' !in texts[i].start && '\n' !in texts[i].end && '\n' !in texts[i].summary
              && (texts[i].location.Some? ==> '\n' !in texts[i].location.value)
              && (texts[i].description.Some? ==> '\n' !in texts[i].description.value)
    {
      TextNoNewline(events[i], random(i));
    }
    BlocksNoNewline(texts, stamp);
    var h := Header(prodId);
    var b := Blocks(texts, stamp);
    HeaderNoNewline(prodId);
    assert lines == h + b + ["END:VCALENDAR"];
    forall k | 0 <= k < |lines| ensures '\n' !in lines[k] {
      if k < 5 {
        assert lines[k] == h[k];
      } else if k < 5 + |b| {
        assert lines[k] == b[k - 5];
      }
    }
  }

  /** The header lines hold no line break when the product id holds none. */
  lemma HeaderNoNewline(prodId: string)
    requires '\n' !in prodId
    ensures LinesNoNewline(Header(prodId))
  {
    assert '\n' !in "PRODID:";
  }

  /** A calendar of one event is the header, that event's block and the
      closing line. */
  lemma OneEventCalendar(ev: IcsEvent, prodId: string, nowMs: int, random: nat -> string)
    ensures CalendarLines([ev], prodId, nowMs, random)
         == Header(prodId) + EventLines(TextOf(ev, random(0)), ToICalDate(nowMs)) + ["END:VCALENDAR"]
  {
    var t := TextOf(ev, random(0));
    assert Texts([ev], random) == [t];
    assert [t][..0] == [];
    assert Blocks([t], ToICalDate(nowMs)) == EventLines(t, ToICalDate(nowMs));
  }

  /** The showing in the repository's test starts at 10:00 and ends at
      10:30 UTC on 2 January 2024. */
  lemma ShowingStart()
    ensures ToICalDate(1704189600000) == "20240102T100000Z"
  {
    ToICalDateAt(1704189600000, UtcFields(2024, 1, 2, 10, 0, 0));
    PadTwoDigits(10);
    PadOneDigit(0);
  }

  lemma ShowingEnd()
    ensures ToICalDate(1704191400000) == "20240102T103000Z"
  {
    ToICalDateAt(1704191400000, UtcFields(2024, 1, 2, 10, 30, 0));
    PadTwoDigits(10);
    PadTwoDigits(30);
    PadOneDigit(0);
  }

  /** The showing's title, location and description need no escaping. */
  lemma ShowingTitlePlain()
    ensures EscapeText("Showing 1: 123 Main") == "Showing 1: 123 Main"
  {
    EscapePlain("Showing 1: 123 Main");
  }

  lemma ShowingLocationPlain()
    ensures EscapeText("123 Main") == "123 Main"
  {
    EscapePlain("123 Main");
  }

  lemma ShowingDescriptionPlain()
    ensures EscapeText("Test") == "Test"
  {
    EscapePlain("Test");
  }

  /** The values written for the showing in the repository's test. */
  lemma ShowingText(ev: IcsEvent, random: string)
    requires ev == IcsEvent(None, 1704189600000, 1704191400000, "Showing 1: 123 Main", Some("Test"), Some("123 Main"))
    ensures var t := TextOf(ev, random);
      && t.start == "20240102T100000Z" && t.end == "20240102T103000Z"
      && t.summary == "Showing 1: 123 Main"
      && t.location == Some("123 Main") && t.description == Some("Test")
  {
    ShowingStart();
    ShowingEnd();
    ShowingTitlePlain();
    ShowingLocationPlain();
    ShowingDescriptionPlain();
  }

  /** Where each field of a one-event calendar sits when the event has a
      location and a description. */
  lemma OneEventPositions(t: EventText, prodId: string, stamp: string)
    requires t.location.Some? && t.description.Some?
    ensures var lines := Header(prodId) + EventLines(t, stamp) + ["END:VCALENDAR"];
      && |lines| == 15
      && lines[0] == "BEGIN:VCALENDAR"
      && lines[5] == "BEGIN:VEVENT"
      && lines[8] == "DTSTART:" + t.start
      && lines[9] == "DTEND:" + t.end
      && lines[10] == "SUMMARY:" + t.summary
      && lines[11] == "LOCATION:" + t.location.value
      && lines[12] == "DESCRIPTION:" + t.description.value
      && lines[13] == "END:VEVENT"
  {
    assert EventLines(t, stamp) == ["BEGIN:VEVENT", "UID:" + t.uid, "DTSTAMP:" + stamp, "DTSTART:" + t.start, "DTEND:" + t.end,
      "SUMMARY:" + t.summary, "LOCATION:" + t.location.value, "DESCRIPTION:" + t.description.value, "END:VEVENT"];
  }

  /** The calendar of the single showing in the repository's test: its
      block carries the given summary, the UTC start and end, the location
      and the description. */
  lemma ShowingCalendar(ev: IcsEvent, nowMs: int, random: nat -> string)
    requires ev == IcsEvent(None, 1704189600000, 1704191400000, "Showing 1: 123 Main", Some("Test"), Some("123 Main"))
    ensures var lines := CalendarLines([ev], DefaultProdId, nowMs, random);
      && |lines| == 15
      && lines[0] == "BEGIN:VCALENDAR"
      && lines[5] == "BEGIN:VEVENT"
      && lines[8] == "DTSTART:" + "20240102T100000Z"
      && lines[9] == "DTEND:" + "20240102T103000Z"
      && lines[10] == "SUMMARY:" + "Showing 1: 123 Main"
      && lines[11] == "LOCATION:" + "123 Main"
      && lines[12] == "DESCRIPTION:" + "Test"
  {
    OneEventCalendar(ev, DefaultProdId, nowMs, random);
    ShowingText(ev, random(0));
    OneEventPositions(TextOf(ev, random(0)), DefaultProdId, ToICalDate(nowMs));
  }
}
