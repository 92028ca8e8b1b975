/** messageFormatter of message-formatter.js: turns one log entry into a
    coloured line and, when the calendar day has changed since the previous
    line, a day header. The module-level `lastdate` cursor is the field of
    class Formatter.

    chalk styles are tags on pieces of text (escape codes are not modelled).
    The Date conversion of line 47-49 (local time of the logged instant, shifted
    by the timezone offset) is an input: a DateView with the display date, the
    `hh:mm:ss` clock and getMilliseconds(). */
module MessageFormatter {
  import opened Text
  import opened Wrappers
  import opened JsValues
  import opened Patterns
  import opened DebugHelper

  /** The chalk styles the formatter applies. */
  datatype Style =
    | BlueBright
    | Red
    | GreenBright
    | WhiteBright
    | WhiteOnRed
    | Cyan
    | Palette(name: string)
    | Hex(spec: string)
    | Rgb(red: string, green: string, blue: string)

  /** A run of text, unstyled or wrapped in one style. */
  datatype Piece = Plain(text: string) | Styled(style: Style, text: string)

  /** The text of a line with the styles stripped. */
  function TextOf(pieces: seq<Piece>): string
  {
    if pieces == [] then "" else TextOf(pieces[..|pieces| - 1]) + pieces[|pieces| - 1].text
  }

  /** The local date and time of the logged instant, as `yyyy-mm-dd`, `hh:mm:ss`
      and the milliseconds. */
  datatype DateView = DateView(displaydate: string, clock: string, millis: nat)

  /** What messageFormatter returns. */
  datatype Formatted = Formatted(dayoutput: seq<Piece>, message: seq<Piece>, logid: JsValue, ip: JsValue)

  // ----- the time (message-formatter.js:41-53) -----

  /** The millisecond field: for a string logtime the ninth group of datematch (or
      nothing) left-padded with zeros to three characters, otherwise the Date's
      milliseconds padded the same way. */
  function MillisField(logtime: JsValue, fraction: Option<string>, millis: nat): string
  {
    if logtime.Str? then PadStart(if fraction.Some? then fraction.value else "", 3, '0')
    else PadStart(NatToString(millis), 3, '0')
  }

  /** The field always has three digits and keeps the value of what it pads; an
      absent fraction shows as 000. */
  lemma MillisFieldDigits(logtime: JsValue, fraction: Option<string>, millis: nat)
    requires fraction.Some? ==> IsGroup(fraction.value)
    requires millis < 1000
    ensures var f := MillisField(logtime, fraction, millis);
      |f| == 3 && AllDigits(f)
      && (logtime.Str? && fraction.Some? ==> DigitsValue(f) == DigitsValue(fraction.value))
      && (logtime.Str? && fraction.None? ==> f == "000")
      && (!logtime.Str? ==> DigitsValue(f) == millis)
  {
    if logtime.Str? {
      var g := if fraction.Some? then fraction.value else "";
      ZeroPadKeepsValue(g, 3);
      if fraction.None? {
        assert PadStart(g, 3, '0') == "000";
      }
    } else {
      ShortNumeral(millis);
      ZeroPadKeepsValue(NatToString(millis), 3);
    }
  }

  /** `displaytime`: the clock, a point and the millisecond field. */
  function DisplayTime(view: DateView, logtime: JsValue, fraction: Option<string>): string
  {
    view.clock + "." + MillisField(logtime, fraction, view.millis)
  }

  /** `shortdate === 1 ? displaytime.slice(0, -7) : displaytime` */
  function TimeShown(shortdate: JsValue, displaytime: string): string
  {
    if shortdate == Int(1) then
      if |displaytime| >= 7 then displaytime[..|displaytime| - 7] else ""
    else displaytime
  }

  /** With shortdate 1 the seconds and milliseconds are dropped: `hh:mm:ss.mmm`
      shows as `hh:mm`. Any other shortdate shows the whole time. */
  lemma ShortTimeIsHoursAndMinutes(shortdate: JsValue, hh: string, mm: string, ss: string, ms: string)
    requires |hh| == 2 && |mm| == 2 && |ss| == 2 && |ms| == 3
    ensures var t := hh + ":" + mm + ":" + ss + "." + ms;
      TimeShown(shortdate, t) == if shortdate == Int(1) then hh + ":" + mm else t
  {
    var t := hh + ":" + mm + ":" + ss + "." + ms;
    assert t[..5] == hh + ":" + mm;
  }

  // ----- the segments (message-formatter.js:53-71) -----

  /** `d`: the date and the time shown, in bright blue. */
  function DateSegment(view: DateView, shortdate: JsValue, displaytime: string): Piece
  {
    Styled(BlueBright, view.displaydate + " " + TimeShown(shortdate, displaytime))
  }

  /** `ip`: ` [address]` in red when ipmatch accepts the address, else nothing. */
  function IpSegment(ipaddress: JsValue): (seg: seq<Piece>)
    ensures seg != [] <==> IpMatch(ToStr(ipaddress))
    ensures seg != [] ==> seg == [Styled(Red, " [" + ToStr(ipaddress) + "]")]
  {
    if IpMatch(ToStr(ipaddress)) then [Styled(Red, " [" + ToStr(ipaddress) + "]")] else []
  }

  /** Whether the entry is a crash: `crash === 1`. */
  predicate IsCrash(crash: JsValue) { crash == Int(1) }

  /** `l`: the logid in bright white for a crash entry, else nothing. */
  function LogidSegment(crash: JsValue, logid: JsValue): (seg: seq<Piece>)
    ensures seg != [] <==> IsCrash(crash)
    ensures IsCrash(crash) ==> seg == [Styled(WhiteBright, " " + ToStr(logid))]
  {
    if IsCrash(crash) then [Styled(WhiteBright, " " + ToStr(logid))] else []
  }

  /** The style of the message text, by the first rule that applies: a crash is
      white on red, then a palette name, then a hex spec, then an rgb triple
      (with its three digit groups), else cyan. */
  function MessageStyle(crash: JsValue, colourspec: JsValue): Style
  {
    var spec := ToStr(colourspec);
    if IsCrash(crash) then WhiteOnRed
    else if IsPaletteKey(spec) then Palette(spec)
    else if HexMatch(spec) then Hex(spec)
    else if RgbMatch(spec) then
      var t := RgbParse(spec).value;
      Rgb(t.red, t.green, t.blue)
    else Cyan
  }

  /** The precedence of the colour rules: each style is chosen exactly when its
      rule applies and no earlier rule does, and an rgb style carries the three
      groups of the spec. */
  lemma MessageStylePrecedence(crash: JsValue, colourspec: JsValue)
    ensures var st := MessageStyle(crash, colourspec); var spec := ToStr(colourspec);
      (st == WhiteOnRed <==> IsCrash(crash))
      && (st.Palette? <==> !IsCrash(crash) && IsPaletteKey(spec))
      && (st.Hex? <==> !IsCrash(crash) && !IsPaletteKey(spec) && HexMatch(spec))
      && (st.Rgb? <==> !IsCrash(crash) && !IsPaletteKey(spec) && !HexMatch(spec) && RgbMatch(spec))
      && (st == Cyan <==> !IsCrash(crash) && !IsColourText(spec))
      && (st.Rgb? ==> spec == RenderRgb(RgbText(st.red, st.green, st.blue, RgbParse(spec).value.space1,
                                                RgbParse(spec).value.space2)))
  {
    var spec := ToStr(colourspec);
    if !IsCrash(crash) && !IsPaletteKey(spec) && !HexMatch(spec) && RgbMatch(spec) {
      RgbParseSound(spec);
    }
  }

  /** Math.round(gap / 60000): whole minutes, halves rounded up. */
  function RoundMinutes(gap: int): (m: int)
    ensures m * 60000 - 30000 <= gap < m * 60000 + 30000
  {
    (gap + 30000) / 60000
  }

  /** The rounded minutes are the only whole number within half a minute below
      and strictly less than half a minute above. */
  lemma RoundMinutesUnique(gap: int, m: int)
    requires m * 60000 - 30000 <= gap < m * 60000 + 30000
    ensures RoundMinutes(gap) == m
  {
    var d := RoundMinutes(gap) - m;
    assert -60000 < d * 60000 < 60000;
  }

  /** `g`: for an integer gap, ` gap: ` and the rounded minutes when shortdate is
      truthy, else the milliseconds; nothing for any other gap. */
  function GapSegment(gap: JsValue, shortdate: JsValue): (seg: seq<Piece>)
    ensures seg != [] <==> gap.Int?
    ensures gap.Int? && Truthy(shortdate) ==>
      seg == [Styled(WhiteBright, " gap: " + IntToString(RoundMinutes(gap.i)) + " mins")]
    ensures gap.Int? && !Truthy(shortdate) ==> seg == [Styled(WhiteBright, " gap: " + IntToString(gap.i) + "ms")]
  {
    if !gap.Int? then []
    else if Truthy(shortdate) then [Styled(WhiteBright, " gap: " + IntToString(RoundMinutes(gap.i)) + " mins")]
    else [Styled(WhiteBright, " gap: " + IntToString(gap.i) + "ms")]
  }

  /** With a truthy shortdate the gap reads as the whole number of minutes within
      half a minute of it (halves rounded up); otherwise as the milliseconds. */
  lemma GapText(gap: int, shortdate: JsValue, m: int)
    requires m * 60000 - 30000 <= gap < m * 60000 + 30000
    ensures TextOf(GapSegment(Int(gap), shortdate))
      == if Truthy(shortdate) then " gap: " + IntToString(m) + " mins" else " gap: " + IntToString(gap) + "ms"
  {
    RoundMinutesUnique(gap, m);
    TextOfOne(GapSegment(Int(gap), shortdate)[0]);
  }

  /** `${d}${l}${ip} ${t} ${m}${g}` */
  function MessageLine(logid: JsValue, crash: JsValue, shortdate: JsValue, ipaddress: JsValue,
                       topic: JsValue, message: JsValue, colourspec: JsValue, gap: JsValue,
                       view: DateView, displaytime: string): seq<Piece>
  {
    [DateSegment(view, shortdate, displaytime)] + LogidSegment(crash, logid) + IpSegment(ipaddress)
    + [Plain(" "), Styled(GreenBright, "(" + ToStr(topic) + ")"), Plain(" "),
       Styled(MessageStyle(crash, colourspec), ToStr(message))]
    + GapSegment(gap, shortdate)
  }

  /** The day header: the display date in bright white and `:\n` when it differs
      from the last date shown, else nothing. */
  function DayOutput(lastdate: string, displaydate: string): (o: seq<Piece>)
    ensures o != [] <==> lastdate != displaydate
    ensures o != [] ==> TextOf(o) == displaydate + ":\n"
  {
    if lastdate != displaydate then
      var o := [Styled(WhiteBright, displaydate), Plain(":\n")];
      TextOfTwo(o[0], o[1]);
      o
    else []
  }

  /** The message read without styles, segment by segment. */
  lemma MessageLineText(logid: JsValue, crash: JsValue, shortdate: JsValue, ipaddress: JsValue,
                        topic: JsValue, message: JsValue, colourspec: JsValue, gap: JsValue,
                        view: DateView, displaytime: string)
    ensures TextOf(MessageLine(logid, crash, shortdate, ipaddress, topic, message, colourspec, gap, view, displaytime))
      == view.displaydate + " " + TimeShown(shortdate, displaytime)
         + TextOf(LogidSegment(crash, logid)) + TextOf(IpSegment(ipaddress))
         + (" " + ("(" + ToStr(topic) + ")") + " " + ToStr(message)) + TextOf(GapSegment(gap, shortdate))
  {
    LineText(DateSegment(view, shortdate, displaytime), LogidSegment(crash, logid), IpSegment(ipaddress),
             Styled(GreenBright, "(" + ToStr(topic) + ")"), Styled(MessageStyle(crash, colourspec), ToStr(message)),
             GapSegment(gap, shortdate));
  }

  lemma LineText(d: Piece, l: seq<Piece>, ip: seq<Piece>, t: Piece, m: Piece, g: seq<Piece>)
    ensures TextOf([d] + l + ip + [Plain(" "), t, Plain(" "), m] + g)
      == d.text + TextOf(l) + TextOf(ip) + (" " + t.text + " " + m.text) + TextOf(g)
  {
    var mid := [Plain(" "), t, Plain(" "), m];
    var a1 := [d] + l;
    var a2 := a1 + ip;
    var a3 := a2 + mid;
    TextOfAppend([d], l);
    TextOfAppend(a1, ip);
    TextOfAppend(a2, mid);
    TextOfAppend(a3, g);
    TextOfOne(d);
    TextOfFour(Plain(" "), t, Plain(" "), m);
  }

  lemma TextOfOne(a: Piece)
    ensures TextOf([a]) == a.text
  {
    assert [a][..0] == [];
  }

  lemma TextOfTwo(a: Piece, b: Piece)
    ensures TextOf([a, b]) == a.text + b.text
  {
    assert [a, b][..1] == [a];
    TextOfOne(a);
  }

  lemma TextOfFour(a: Piece, b: Piece, c: Piece, d: Piece)
    ensures TextOf([a, b, c, d]) == a.text + b.text + c.text + d.text
  {
    assert [a, b, c, d][..3] == [a, b, c];
    assert [a, b, c][..2] == [a, b];
    TextOfTwo(a, b);
  }

  lemma {:induction false} TextOfAppend(a: seq<Piece>, b: seq<Piece>)
    ensures TextOf(a + b) == TextOf(a) + TextOf(b)
    decreases |b|
  {
    if b != [] {
      var n := |b| - 1;
      assert (a + b)[..|a + b| - 1] == a + b[..n];
      TextOfAppend(a, b[..n]);
    } else {
      assert a + b == a;
    }
  }

  /** The module-level `lastdate` cursor and the function that reads and moves it. */
  class Formatter {
    var lastdate: string

    constructor()
      ensures lastdate == ""
    {
      lastdate := "";
    }

    /** One call of messageFormatter. A string logtime that datematch rejects
        leaves `matches` null, and reading `matches[0]` throws a TypeError before
        the cursor is touched. */
    method Format(logid: JsValue, logtime: JsValue, crash: JsValue, shortdate: JsValue,
                  ipaddress: JsValue, topic: JsValue, message: JsValue, colourspec: JsValue,
                  gap: JsValue, view: DateView) returns (r: Result<Formatted, Thrown>)
      modifies this
      ensures r.Fail? <==> logtime.Str? && DateMatch(logtime.s).None?
      ensures r.Fail? ==> r.error == TypeError("Cannot read properties of null (reading '0')")
                          && lastdate == old(lastdate)
      ensures r.Ok? ==>
        var fraction := if logtime.Str? then DateMatch(logtime.s).value else None;
        r.value == Formatted(DayOutput(old(lastdate), view.displaydate),
                             MessageLine(logid, crash, shortdate, ipaddress, topic, message, colourspec,
                                         gap, view, DisplayTime(view, logtime, fraction)),
                             logid, ipaddress)
        && lastdate == view.displaydate
    {
      var fraction: Option<string> := None;
      if logtime.Str? {
        var matches := DateMatch(logtime.s);
        if matches.None? {
          return Fail(TypeError("Cannot read properties of null (reading '0')"));
        }
        fraction := matches.value;
      }
      var displaytime := DisplayTime(view, logtime, fraction);
      var d := DateSegment(view, shortdate, displaytime);
      var ip := IpSegment(ipaddress);
      var t := Styled(GreenBright, "(" + ToStr(topic) + ")");
      var l, m := MessagePieces(logid, crash, message, colourspec);
      var g := GapSegment(gap, shortdate);
      var dayoutput: seq<Piece> := [];
      if lastdate != view.displaydate {
        dayoutput := [Styled(WhiteBright, view.displaydate), Plain(":\n")];
        lastdate := view.displaydate;
      }
      r := Ok(Formatted(dayoutput, [d] + l + ip + [Plain(" "), t, Plain(" "), m] + g, logid, ipaddress));
    }
  }

  /** `l` and `m` of messageFormatter: the crash prefix and the message text in
      the colour the first applicable rule picks. */
  method MessagePieces(logid: JsValue, crash: JsValue, message: JsValue, colourspec: JsValue)
    returns (l: seq<Piece>, m: Piece)
    ensures l == LogidSegment(crash, logid)
    ensures m == Styled(MessageStyle(crash, colourspec), ToStr(message))
  {
    l := [];
    var spec := ToStr(colourspec);
    if crash == Int(1) {
      l := [Styled(WhiteBright, " " + ToStr(logid))];
      m := Styled(WhiteOnRed, ToStr(message));
    } else if IsPaletteKey(spec) {
      m := Styled(Palette(spec), ToStr(message));
    } else if HexMatch(spec) {
      m := Styled(Hex(spec), ToStr(message));
    } else if RgbMatch(spec) {
      var groups := RgbParse(spec).value;
      m := Styled(Rgb(groups.red, groups.green, groups.blue), ToStr(message));
    } else {
      m := Styled(Cyan, ToStr(message));
    }
  }

  /** Two consecutive lines of the same day: only the first has a day header,
      unless that day was already the last one shown. */
  method SameDayTwice(f: Formatter, view: DateView, logid: JsValue, crash: JsValue, shortdate: JsValue,
                      ipaddress: JsValue, topic: JsValue, m1: JsValue, m2: JsValue, colourspec: JsValue,
                      gap1: JsValue, gap2: JsValue, logtime: JsValue)
    returns (r1: Result<Formatted, Thrown>, r2: Result<Formatted, Thrown>)
    requires logtime.Str? ==> DateMatch(logtime.s).Some?
    modifies f
    ensures r1.Ok? && r2.Ok?
    ensures r1.value.dayoutput != [] <==> old(f.lastdate) != view.displaydate
    ensures r2.value.dayoutput == [] && f.lastdate == view.displaydate
  {
    r1 := f.Format(logid, logtime, crash, shortdate, ipaddress, topic, m1, colourspec, gap1, view);
    r2 := f.Format(logid, logtime, crash, shortdate, ipaddress, topic, m2, colourspec, gap2, view);
  }

  // ----- what the formatter shows of an entry from DebugHelper -----

  /** A colour spec the helper validated is drawn in its own style, and one it
      replaced by null is drawn cyan. */
  lemma ValidatedColourStyle(crash: JsValue, colourspec: JsValue)
    requires !IsCrash(crash)
    ensures MessageStyle(crash, ValidatedColour(colourspec)) != Cyan <==> IsColourSpec(colourspec)
  {
    MessageStylePrecedence(crash, ValidatedColour(colourspec));
    NullIsNoColour();
  }

  /** The address the helper hands on is shown exactly when it kept one. */
  lemma HelperAddressShown(call: seq<JsValue>, midnight: int, stampNow: int)
    ensures var p := ParseSpec(call, midnight, stampNow);
      IpSegment(p.ip) != [] <==> p.ip != Null
  {
    SlotsPassTheirTests(call, midnight, stampNow);
    NullIsNoIp();
  }
}
