/** The colour palette and the regular expressions of debug-utils.js:22-38,
    each written as the left-to-right matcher the expression denotes, with
    lemmas that pin down exactly which strings it accepts. */
module Patterns {
  import opened Text
  import opened Wrappers

  /** Own property names of COLOURS.COLOURS (debug-utils.js:25-34). */
  const PaletteKeys: set<string> := {"app", "db", "api", "client", "log", "mail", "auth", "error"}

  predicate IsPaletteKey(key: string) { key in PaletteKeys }

  /** Property names every plain object inherits from Object.prototype. */
  const ObjectPrototypeKeys: set<string> :=
    {"constructor", "hasOwnProperty", "isPrototypeOf", "propertyIsEnumerable",
     "toLocaleString", "toString", "valueOf", "__proto__",
     "__defineGetter__", "__defineSetter__", "__lookupGetter__", "__lookupSetter__"}

  /** `key in COLOURS.COLOURS` as JavaScript evaluates it: the `in` operator
      also finds inherited properties. */
  predicate InColoursAsWritten(key: string)
  {
    key in PaletteKeys || key in ObjectPrototypeKeys
  }

  /** The guard lets through names that are not palette entries. */
  lemma InheritedNamePassesPaletteTest()
    ensures InColoursAsWritten("toString") && !IsPaletteKey("toString")
  {
  }

  /** hexmatch, /^#(?:[0-9a-fA-F]{3}){1,2}$/: a `#` and three or six hex digits of either case. */
  predicate HexMatch(s: string)
  {
    (|s| == 4 || |s| == 7) && s[0] == '#' && forall i :: 1 <= i < |s| ==> IsHexDigit(s[i])
  }

  /** A `#` followed by ds matches exactly when ds is three or six hex digits, and
      nothing without a leading `#` matches. */
  lemma HexMatchOf(ds: string)
    ensures HexMatch("#" + ds) <==> (|ds| == 3 || |ds| == 6) && forall i :: 0 <= i < |ds| ==> IsHexDigit(ds[i])
    ensures forall s :: s != [] && s[0] != '#' ==> !HexMatch(s)
  {
    var s := "#" + ds;
    assert forall i :: 1 <= i < |s| ==> s[i] == ds[i - 1];
    assert forall i :: 0 <= i < |ds| ==> ds[i] == s[i + 1];
  }

  /** The palette's own hex colour is a hex spec; four hex digits are not. */
  lemma HexMatchExamples()
    ensures HexMatch("#ff651d") && HexMatch("#FFF") && !HexMatch("#ff65")
  {
    HexMatchOf("ff651d");
    HexMatchOf("FFF");
  }

  /** Length of the run of decimal digits at the front of s. */
  function DigitPrefix(s: string): (n: nat)
    ensures n <= |s|
    ensures n == |s| || !IsDigit(s[n])
  {
    if s != [] && IsDigit(s[0]) then 1 + DigitPrefix(s[1..]) else 0
  }

  /** Everything in the run is a digit. */
  lemma {:induction false} DigitPrefixDigits(s: string)
    ensures AllDigits(s[..DigitPrefix(s)])
  {
    if s != [] && IsDigit(s[0]) {
      DigitPrefixDigits(s[1..]);
      assert s[..DigitPrefix(s)] == [s[0]] + s[1..][..DigitPrefix(s[1..])];
    }
  }

  /** Digits followed by the end or by a non-digit form a run of exactly that length. */
  lemma {:induction false} DigitPrefixOf(g: string, rest: string)
    requires AllDigits(g)
    requires rest == [] || !IsDigit(rest[0])
    ensures DigitPrefix(g + rest) == |g|
  {
    if g == [] {
      assert g + rest == rest;
    } else {
      assert (g + rest)[0] == g[0];
      assert (g + rest)[1..] == g[1..] + rest;
      DigitPrefixOf(g[1..], rest);
    }
  }

  // ----- rgbmatch, /^(\d{1,3}), ?(\d{1,3}), ?(\d{1,3})$/ -----

  /** The three captured digit groups and whether each comma was followed by a space. */
  datatype RgbText = RgbText(red: string, green: string, blue: string, space1: bool, space2: bool)

  predicate IsGroup(g: string) { 1 <= |g| <= 3 && AllDigits(g) }

  predicate WellFormedRgb(t: RgbText) { IsGroup(t.red) && IsGroup(t.green) && IsGroup(t.blue) }

  function Sep(space: bool): string { if space then ", " else "," }

  function RenderRgb(t: RgbText): string
  {
    t.red + (Sep(t.space1) + (t.green + (Sep(t.space2) + t.blue)))
  }

  /** A group (\d{1,3}) at the front of s and what follows it. The group is the whole
      digit run, since what follows it, a comma or the end, is not a digit. */
  function Group(s: string): Option<(string, string)>
  {
    var n := DigitPrefix(s);
    if 1 <= n <= 3 then Some((s[..n], s[n..])) else None
  }

  /** `, ?` at the front of s: whether the space is there, and what follows. */
  function Comma(s: string): Option<(bool, string)>
  {
    if s != [] && s[0] == ',' then
      if |s| > 1 && s[1] == ' ' then Some((true, s[2..])) else Some((false, s[1..]))
    else None
  }

  /** The match of rgbmatch against s, giving its capture groups (what RegExp.exec returns). */
  function RgbParse(s: string): Option<RgbText>
  {
    match Group(s)
    case None => None
    case Some((r, s1)) =>
      match Comma(s1)
      case None => None
      case Some((sp1, s2)) =>
        match Group(s2)
        case None => None
        case Some((g, s3)) =>
          match Comma(s3)
          case None => None
          case Some((sp2, s4)) =>
            match Group(s4)
            case None => None
            case Some((b, s5)) =>
              if s5 == [] then Some(RgbText(r, g, b, sp1, sp2)) else None
  }

  predicate RgbMatch(s: string) { RgbParse(s).Some? }

  lemma GroupOf(g: string, rest: string)
    requires IsGroup(g)
    requires rest == [] || !IsDigit(rest[0])
    ensures Group(g + rest) == Some((g, rest))
  {
    DigitPrefixOf(g, rest);
    assert (g + rest)[..|g|] == g && (g + rest)[|g|..] == rest;
  }

  lemma CommaOf(space: bool, rest: string)
    requires rest != [] && IsDigit(rest[0])
    ensures Comma(Sep(space) + rest) == Some((space, rest))
  {
    var s := Sep(space) + rest;
    if space {
      assert s[2..] == rest;
    } else {
      assert s[1] == rest[0];
      assert s[1..] == rest;
    }
  }

  lemma GroupSound(s: string)
    requires Group(s).Some?
    ensures IsGroup(Group(s).value.0) && s == Group(s).value.0 + Group(s).value.1
  {
    DigitPrefixDigits(s);
    var n := DigitPrefix(s);
    assert s == s[..n] + s[n..];
  }

  lemma CommaSound(s: string)
    requires Comma(s).Some?
    ensures s == Sep(Comma(s).value.0) + Comma(s).value.1
  {
    if Comma(s).value.0 {
      assert s == s[..2] + s[2..] && s[..2] == ", ";
    } else {
      assert s == s[..1] + s[1..] && s[..1] == ",";
    }
  }

  /** Every triple of one-to-three-digit groups, with or without the spaces, is accepted
      and yields back its own groups. */
  lemma RgbParseRender(t: RgbText)
    requires WellFormedRgb(t)
    ensures RgbParse(RenderRgb(t)) == Some(t)
  {
    var x4 := Sep(t.space2) + t.blue;
    var x3 := t.green + x4;
    var x2 := Sep(t.space1) + x3;
    assert x4[0] == ',' && x2[0] == ',';
    assert x3[0] == t.green[0];
    GroupOf(t.blue, []);
    assert t.blue + [] == t.blue;
    CommaOf(t.space2, t.blue);
    GroupOf(t.green, x4);
    CommaOf(t.space1, x3);
    GroupOf(t.red, x2);
  }

  /** Whatever rgbmatch accepts is such a triple. */
  lemma RgbParseSound(s: string)
    requires RgbMatch(s)
    ensures WellFormedRgb(RgbParse(s).value) && RenderRgb(RgbParse(s).value) == s
  {
    GroupSound(s);
    var s1 := Group(s).value.1;
    CommaSound(s1);
    var s2 := Comma(s1).value.1;
    GroupSound(s2);
    var s3 := Group(s2).value.1;
    CommaSound(s3);
    var s4 := Comma(s3).value.1;
    GroupSound(s4);
    assert Group(s4).value.1 == [];
    assert s4 == Group(s4).value.0;
  }

  /** The groups are not range-checked. */
  lemma RgbAcceptsOutOfRangeValues(s: string)
    requires s == "999,999,999"
    ensures RgbMatch(s)
  {
    var t := RgbText("999", "999", "999", false, false);
    NinesGroup();
    RgbParseRender(t);
    NinesRender();
  }

  lemma NinesGroup()
    ensures IsGroup("999")
  {
    var g := "999";
    assert g[0] == '9' && g[1] == '9' && g[2] == '9';
  }

  lemma NinesRender()
    ensures RenderRgb(RgbText("999", "999", "999", false, false)) == "999,999,999"
  {
    var g := "999";
    assert RenderRgb(RgbText(g, g, g, false, false)) == g + ("," + (g + ("," + g)));
  }

  // ----- ipmatch, /^((25[0-5]|2[0-4]\d|1\d{2}|[1-9]?\d)(\.|$)){4}$/ -----

  /** An octet alternative at the front of s and what follows it: the whole digit run,
      at most three digits, no leading zero, value at most 255. */
  function Octet(s: string): (r: Option<(nat, string)>)
    ensures r.Some? ==> r.value.0 <= 255
  {
    var n := DigitPrefix(s);
    if 1 <= n <= 3 && (n == 1 || s[0] != '0') then
      DigitPrefixDigits(s);
      if DigitsValue(s[..n]) <= 255 then Some((DigitsValue(s[..n]), s[n..])) else None
    else None
  }

  function Prepend(v: nat, rest: Option<seq<nat>>): Option<seq<nat>>
  {
    if rest.Some? then Some([v] + rest.value) else None
  }

  /** k repetitions of the group (octet)(\.|$) matched against t, then the end of input;
      gives the octet values. */
  function IpGroups(t: string, k: nat): Option<seq<nat>>
    decreases k
  {
    if k == 0 then (if t == [] then Some([]) else None)
    else
      match Octet(t)
      case None => None
      case Some((v, rest)) =>
        if rest != [] && rest[0] == '.' then Prepend(v, IpGroups(rest[1..], k - 1))
        else if rest == [] then Prepend(v, IpGroups([], k - 1))
        else None
  }

  predicate IpMatch(s: string) { IpGroups(s, 4).Some? }

  /** The octets in decimal joined by dots, with an optional trailing dot. */
  function IpText(octets: seq<nat>, trailingDot: bool): string
    requires |octets| >= 1
  {
    if |octets| == 1 then NatToString(octets[0]) + (if trailingDot then "." else "")
    else NatToString(octets[0]) + ("." + IpText(octets[1..], trailingDot))
  }

  predicate AllOctets(octets: seq<nat>) { forall i :: 0 <= i < |octets| ==> octets[i] <= 255 }

  /** The decimal form of a value up to 255 is read back as one octet. */
  lemma OctetOf(v: nat, rest: string)
    requires v <= 255
    requires rest == [] || !IsDigit(rest[0])
    ensures Octet(NatToString(v) + rest) == Some((v, rest))
  {
    var d := NatToString(v);
    var s := d + rest;
    DigitPrefixOf(d, rest);
    ShortNumeral(v);
    assert s[..|d|] == d && s[|d|..] == rest;
    assert |d| > 1 ==> s[0] == d[0];
  }

  /** One octet group: the decimal form of v followed by a dot or by the end. */
  lemma IpGroupsCons(v: nat, tail: string, k: nat)
    requires v <= 255 && k >= 1
    requires tail == [] || tail[0] == '.'
    ensures IpGroups(NatToString(v) + tail, k)
         == Prepend(v, IpGroups(if tail == [] then [] else tail[1..], k - 1))
  {
    OctetOf(v, tail);
  }

  /** Dotted decimal octets, with or without a trailing dot, are accepted and give
      back their values. */
  lemma {:induction false} IpGroupsRender(octets: seq<nat>, trailingDot: bool)
    requires |octets| >= 1 && AllOctets(octets)
    ensures IpGroups(IpText(octets, trailingDot), |octets|) == Some(octets)
    decreases |octets|
  {
    var v, more := octets[0], octets[1..];
    assert octets == [v] + more;
    if |octets| > 1 {
      IpGroupsRender(more, trailingDot);
      IpGroupsRenderStep(v, more, trailingDot);
    } else {
      IpGroupsRenderOne(v, trailingDot);
    }
  }

  /** An octet in front of octets that are read back. */
  lemma IpGroupsRenderStep(v: nat, more: seq<nat>, trailingDot: bool)
    requires v <= 255 && |more| >= 1
    requires IpGroups(IpText(more, trailingDot), |more|) == Some(more)
    ensures IpGroups(IpText([v] + more, trailingDot), |more| + 1) == Some([v] + more)
  {
    var rest := IpText(more, trailingDot);
    assert IpText([v] + more, trailingDot) == NatToString(v) + ("." + rest) by {
      IpTextCons(v, more, trailingDot);
    }
    IpGroupsDotCons(v, rest, more, |more|);
  }

  /** An octet and a dot in front of what k groups accept is accepted by k + 1 groups. */
  lemma IpGroupsDotCons(v: nat, rest: string, vs: seq<nat>, k: nat)
    requires v <= 255 && IpGroups(rest, k) == Some(vs)
    ensures IpGroups(NatToString(v) + ("." + rest), k + 1) == Some([v] + vs)
  {
    IpGroupsCons(v, "." + rest, k + 1);
    assert ("." + rest)[1..] == rest;
  }

  /** The last group: one octet, with or without the trailing dot. */
  lemma {:induction false} IpGroupsRenderOne(v: nat, trailingDot: bool)
    requires v <= 255
    ensures IpGroups(IpText([v], trailingDot), 1) == Some([v])
  {
    assert IpGroups([], 0) == Some([]);
    if trailingDot {
      IpGroupsCons(v, ".", 1);
    } else {
      IpGroupsCons(v, [], 1);
      assert NatToString(v) + [] == NatToString(v);
    }
    assert [v] + [] == [v];
  }

  /** What an octet alternative accepts is the decimal form of its value, and the
      digit run ends there. */
  lemma OctetSound(t: string)
    requires Octet(t).Some?
    ensures t == NatToString(Octet(t).value.0) + Octet(t).value.1
  {
    var n := DigitPrefix(t);
    DigitPrefixDigits(t);
    assert Canonical(t[..n]);
    CanonicalRoundTrip(t[..n]);
    assert t == t[..n] + t[n..];
  }

  /** One group: an octet, then a dot or the end. */
  lemma IpGroupsSoundOne(t: string) returns (dot: bool)
    requires IpGroups(t, 1).Some?
    ensures |IpGroups(t, 1).value| == 1 && AllOctets(IpGroups(t, 1).value)
    ensures t == IpText(IpGroups(t, 1).value, dot)
  {
    var (v, rest) := Octet(t).value;
    OctetSound(t);
    var vs := IpGroups(t, 1).value;
    dot := rest != [];
    if dot {
      assert rest == ".";
      assert vs == [v];
    } else {
      assert vs == [v] + [];
      assert t == NatToString(v) + [];
    }
  }
  /** Nothing is left to match a further group once the input has ended. */
  lemma NoGroupInEmpty(j: nat)
    requires j >= 1
    ensures IpGroups([], j).None?
  {
    assert DigitPrefix([]) == 0;
  }
  /** A group followed by further groups ends with a dot. */
  lemma IpGroupsStep(t: string, k: nat) returns (v: nat, tail: string, more: seq<nat>)
    requires k >= 2 && IpGroups(t, k).Some?
    ensures v <= 255 && t == NatToString(v) + ("." + tail)
    ensures IpGroups(tail, k - 1) == Some(more) && IpGroups(t, k) == Some([v] + more)
    ensures tail == GroupTail(t)
  {
    var rest;
    v, rest := Octet(t).value.0, Octet(t).value.1;
    OctetSound(t);
    if rest == [] {
      NoGroupInEmpty(k - 1);
      assert false;
    }
    tail := rest[1..];
    assert rest == "." + tail;
    more := IpGroups(tail, k - 1).value;
  }

  lemma IpTextCons(v: nat, more: seq<nat>, dot: bool)
    requires |more| >= 1
    ensures IpText([v] + more, dot) == NatToString(v) + ("." + IpText(more, dot))
  {
    assert ([v] + more)[1..] == more;
  }
  /** Whatever k groups accept is k dotted decimal octets, with or without a trailing dot. */
  lemma {:induction false} IpGroupsSound(t: string, k: nat) returns (dot: bool)
    requires k >= 1 && IpGroups(t, k).Some?
    ensures |IpGroups(t, k).value| == k && AllOctets(IpGroups(t, k).value)
    ensures t == IpText(IpGroups(t, k).value, dot)
    decreases k
  {
    if k == 1 {
      dot := IpGroupsSoundOne(t);
    } else {
      IpGroupsNext(t, k);
      dot := IpGroupsSound(GroupTail(t), k - 1);
      IpSoundCons(t, k, dot);
    }
  }

  /** What follows the first octet and its dot. */
  function GroupTail(t: string): string
  {
    var r := Octet(t);
    if r.Some? && r.value.1 != [] then r.value.1[1..] else []
  }

  /** Further groups are matched against what follows the first one. */
  lemma IpGroupsNext(t: string, k: nat)
    requires k >= 2 && IpGroups(t, k).Some?
    ensures IpGroups(GroupTail(t), k - 1).Some?
  {
    var v, tail, more := IpGroupsStep(t, k);
  }

  /** An octet and a dot in front of dotted octets are one more dotted octet. */
  lemma IpSoundCons(t: string, k: nat, dot: bool)
    requires k >= 2 && IpGroups(t, k).Some? && IpGroups(GroupTail(t), k - 1).Some?
    requires |IpGroups(GroupTail(t), k - 1).value| == k - 1 && AllOctets(IpGroups(GroupTail(t), k - 1).value)
    requires GroupTail(t) == IpText(IpGroups(GroupTail(t), k - 1).value, dot)
    ensures |IpGroups(t, k).value| == k && AllOctets(IpGroups(t, k).value)
    ensures t == IpText(IpGroups(t, k).value, dot)
  {
    var v, tail, more := IpGroupsStep(t, k);
    DottedOctetsCons(v, tail, more, dot);
  }

  /** The same, stated over the octets themselves. */
  lemma DottedOctetsCons(v: nat, tail: string, more: seq<nat>, dot: bool)
    requires v <= 255 && |more| >= 1 && AllOctets(more) && tail == IpText(more, dot)
    ensures AllOctets([v] + more)
    ensures NatToString(v) + ("." + tail) == IpText([v] + more, dot)
  {
    var vs := [v] + more;
    forall i | 0 <= i < |vs| ensures vs[i] <= 255 {
      if i > 0 { assert vs[i] == more[i - 1]; }
    }
    IpTextCons(v, more, dot);
  }

  /** ipmatch accepts exactly four dotted octets 0-255 without leading zeros,
      and also the same text followed by one dot. */
  lemma IpMatchExactly(s: string)
    ensures IpMatch(s) <==> exists octets: seq<nat>, dot: bool
      :: |octets| == 4 && AllOctets(octets) && s == IpText(octets, dot)
  {
    if IpMatch(s) {
      var dot := IpGroupsSound(s, 4);
      var vs := IpGroups(s, 4).value;
      assert |vs| == 4 && AllOctets(vs) && s == IpText(vs, dot);
    }
    if exists octets: seq<nat>, dot: bool :: |octets| == 4 && AllOctets(octets) && s == IpText(octets, dot) {
      var octets: seq<nat>, dot: bool :| |octets| == 4 && AllOctets(octets) && s == IpText(octets, dot);
      IpGroupsRender(octets, dot);
    }
  }

  /** The worked address of the examples is accepted. */
  lemma IpMatchExample(s: string)
    requires s == "192.168.1.5"
    ensures IpMatch(s)
  {
    ExampleText();
    IpGroupsRender([192, 168, 1, 5], false);
  }

  /** So is the same address followed by a dot. */
  lemma IpMatchTrailingDotExample(s: string)
    requires s == "192.168.1.5."
    ensures IpMatch(s)
  {
    DottedExampleText();
    IpGroupsRender([192, 168, 1, 5], true);
  }

  lemma ExampleText()
    ensures IpText([192, 168, 1, 5], false) == "192.168.1.5"
  {
    var octets: seq<nat> := [192, 168, 1, 5];
    assert IpText(octets, false) == "192.168.1.5";
  }

  lemma DottedExampleText()
    ensures IpText([192, 168, 1, 5], true) == "192.168.1.5."
  {
    var octets: seq<nat> := [192, 168, 1, 5];
    assert IpText(octets, true) == "192.168.1.5.";
  }

  // ----- datematch, /^(\d{4})-([01]\d)-([0-3]\d) ([0-2]\d):([0-5]\d)(:([0-5]\d)(\.(\d{1,3}))?)?$/ -----

  /** "YYYY-MM-DD hh:mm" with the digit ranges the expression allows. */
  predicate DateTimeHead(s: string)
    requires |s| >= 16
  {
    AllDigits(s[..4]) && s[4] == '-' && '0' <= s[5] <= '1' && IsDigit(s[6]) && s[7] == '-'
    && '0' <= s[8] <= '3' && IsDigit(s[9]) && s[10] == ' '
    && '0' <= s[11] <= '2' && IsDigit(s[12]) && s[13] == ':' && '0' <= s[14] <= '5' && IsDigit(s[15])
  }

  /** The match of datematch against s: None when it fails, otherwise its ninth capture
      group (the digits after the seconds' decimal point), itself None when absent. */
  function DateMatch(s: string): (r: Option<Option<string>>)
    ensures r.Some? ==> |s| == 16 || |s| == 19 || 21 <= |s| <= 23
    ensures r.Some? && r.value.Some? ==> |s| >= 21 && IsGroup(r.value.value) && s == s[..20] + r.value.value
    ensures r.Some? ==> DateTimeHead(s)
    ensures r.Some? && |s| >= 19 ==> s[16] == ':' && '0' <= s[17] <= '5' && IsDigit(s[18])
    ensures r.Some? && |s| >= 21 ==> s[19] == '.'
  {
    if |s| < 16 || !DateTimeHead(s) then None
    else if |s| == 16 then Some(None)
    else if |s| >= 19 && s[16] == ':' && '0' <= s[17] <= '5' && IsDigit(s[18]) then
      if |s| == 19 then Some(None)
      else if s[19] == '.' && 21 <= |s| <= 23 && AllDigits(s[20..]) then Some(Some(s[20..]))
      else None
    else None
  }

  /** A date and time to the minute matches, with no fraction group. */
  lemma DateMatchMinutes(s: string)
    requires |s| == 16 && DateTimeHead(s)
    ensures DateMatch(s) == Some(None)
  {
  }

  /** Seconds and a fraction of one to three digits: the fraction is the ninth group;
      without the fraction there is no ninth group. */
  lemma DateMatchSeconds(head: string, sec: string, frac: string)
    requires |head| == 16 && DateTimeHead(head)
    requires |sec| == 2 && '0' <= sec[0] <= '5' && IsDigit(sec[1])
    requires frac == [] || IsGroup(frac)
    ensures DateMatch(head + ":" + sec) == Some(None)
    ensures frac != [] ==> DateMatch(head + ":" + sec + "." + frac) == Some(Some(frac))
  {
    var t := head + ":" + sec;
    assert t[..4] == head[..4] && t[..16] == head;
    if frac != [] {
      var u := t + "." + frac;
      assert u[..4] == head[..4] && u[..19] == t && u[20..] == frac;
    }
  }

  /** What the colour tests of debug-utils.js:89 accept: a palette name, a hex
      spec or an rgb triple. */
  predicate IsColourText(spec: string)
  {
    IsPaletteKey(spec) || HexMatch(spec) || RgbMatch(spec)
  }
}
