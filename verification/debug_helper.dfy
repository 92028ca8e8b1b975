/** The log call of debug-helper.js: the factory `DebugHelper(topic, colourspec,
    shortdate, immediate, writer)` validates the colour spec and remembers the
    time of its creation; the function it returns sorts a loose positional list
    of arguments into an optional 'crash' marker, an optional timestamp from
    today, an optional IPv4 address and the message parts, joins the parts into
    one message and measures the gap since the previous call.

    The clock (`Date.now()` and local midnight) is passed in. `COLOURS` and
    `ipmatch` are the definitions of debug-utils.js:22-37 (module Patterns). */
module DebugHelper {
  import opened Text
  import opened Patterns
  import opened JsValues

  // ----- colour spec and short-date flag (debug-helper.js:21-22) -----

  /** A palette name, `#` and three or six hex digits, or an `r, g, b` triple. */
  predicate IsColourSpec(v: JsValue)
  {
    IsColourText(ToStr(v))
  }

  /** The colour spec handed to the writer: the input when it is a colour spec, else null. */
  function ValidatedColour(v: JsValue): (cs: JsValue)
    ensures cs == v || cs == Null
    ensures cs != Null ==> IsColourSpec(cs)
  {
    if IsColourSpec(v) then v else Null
  }

  /** null is not a colour spec, so a colour is never lost or invented. */
  lemma NullIsNoColour()
    ensures !IsColourSpec(Null)
  {
    assert DigitPrefix("null") == 0;
  }

  /** Validation keeps exactly the colour specs and is idempotent. */
  lemma ValidatedColourExactly(v: JsValue)
    ensures ValidatedColour(v) == v <==> IsColourSpec(v) || v == Null
    ensures ValidatedColour(ValidatedColour(v)) == ValidatedColour(v)
  {
    NullIsNoColour();
  }

  /** The validation as written: `colourspec in COLOURS.COLOURS` also finds the names
      every object inherits from Object.prototype. */
  function ValidatedColourAsWritten(v: JsValue): (cs: JsValue)
    ensures cs == v || cs == Null
    ensures IsColourSpec(v) ==> cs == v
  {
    if InColoursAsWritten(ToStr(v)) || HexMatch(ToStr(v)) || RgbMatch(ToStr(v)) then v else Null
  }

  /** An inherited name such as `toString` passes the validation as written although
      it names no palette entry; the palette test on own names rejects it. */
  lemma InheritedNameKeptAsColour()
    ensures ValidatedColourAsWritten(Str("toString")) == Str("toString")
    ensures ValidatedColour(Str("toString")) == Null
  {
    assert DigitPrefix("toString") == 0;
    InheritedNamePassesPaletteTest();
  }

  /** `shortdate ? 1 : 0` */
  function ShortDateFlag(shortdate: JsValue): (sd: int)
    ensures sd == 0 || sd == 1
    ensures sd == 1 <==> Truthy(shortdate)
  {
    if Truthy(shortdate) then 1 else 0
  }

  // ----- the positional slots (debug-helper.js:25-50) -----

  /** The k-th argument of the call; a missing one is undefined. */
  function Slot(call: seq<JsValue>, k: nat): JsValue
  {
    if k < |call| then call[k] else Undef
  }

  /** The rest parameter `...args`: everything after the third argument. */
  function RestArgs(call: seq<JsValue>): seq<JsValue>
  {
    if |call| > 3 then call[3..] else []
  }

  /** What moving a displaced slot value to the front of the parts puts there:
      nothing for undefined, the elements of an array (`ip.concat(args)`),
      otherwise the value itself (`args.unshift(ip)`). */
  function Expand(v: JsValue): seq<JsValue>
  {
    match v
    case Undef => []
    case Arr(es) => es
    case _ => [v]
  }

  /** Number.isInteger(v) && v > midnight */
  predicate IsTodayStamp(v: JsValue, midnight: int)
  {
    v.Int? && v.i > midnight
  }

  /** ipmatch.test(v), which converts v to a string first. */
  predicate IpTest(v: JsValue)
  {
    IpMatch(ToStr(v))
  }

  /** 1 when the first argument is the string 'crash' and so is consumed as the marker. */
  function MarkerSlots(call: seq<JsValue>): (n: nat)
    ensures n <= 1
    ensures n == 1 <==> |call| > 0 && call[0] == Str("crash")
  {
    if Slot(call, 0) == Str("crash") then 1 else 0
  }

  /** The message parts when the arguments before position k are kept by slots:
      the expanded values of the slots k, k+1, ... up to the third argument, in
      order, then the rest parameters. */
  function PartsFrom(call: seq<JsValue>, k: nat): seq<JsValue>
    decreases 3 - k
  {
    if k >= 3 then RestArgs(call) else Expand(Slot(call, k)) + PartsFrom(call, k + 1)
  }

  /** What the returned function hands on besides the per-instance fields. */
  datatype Parsed = Parsed(crash: int, logtime: int, ip: JsValue, parts: seq<JsValue>)

  /** The slots read greedily from the left: after the optional marker, a timestamp
      from today if there is one, then an address that `isAddress` accepts if there
      is one; every argument up to the third that no slot keeps becomes a message
      part, in the caller's order, before the rest parameters. `stampNow` is the
      clock reading that replaces a missing timestamp. */
  function ParseWith(call: seq<JsValue>, midnight: int, stampNow: int, isAddress: JsValue -> bool): Parsed
  {
    var m := MarkerSlots(call);
    var stamped := IsTodayStamp(Slot(call, m), midnight);
    var i := if stamped then m + 1 else m;
    var addressed := isAddress(Slot(call, i));
    var kept := if addressed then i + 1 else i;
    Parsed(m,
           if stamped then Slot(call, m).i else stampNow,
           if addressed then Slot(call, i) else Null,
           PartsFrom(call, kept))
  }

  /** The slot rules with ipmatch as the address test. */
  function ParseSpec(call: seq<JsValue>, midnight: int, stampNow: int): Parsed
  {
    ParseWith(call, midnight, stampNow, IpTest)
  }

  /** The argument shuffling of debug-helper.js:26-50, step by step: each value that
      fails its slot's test is moved back to the front of `args`. The address test,
      ipmatch.test in the source, is `isAddress`. */
  method ParseArgs(call: seq<JsValue>, midnight: int, stampNow: int, isAddress: JsValue -> bool)
    returns (p: Parsed)
    ensures p == ParseWith(call, midnight, stampNow, isAddress)
  {
    var c, logtime, ip := Slot(call, 0), Slot(call, 1), Slot(call, 2);
    var args := RestArgs(call);
    var crash := 1;
    // the slot boundary: args == PartsFrom(call, next)
    ghost var next := 3;
    if c != Str("crash") {
      args := Expand(ip) + args;
      next := 2;
      ip := logtime;
      logtime := c;
      crash := 0;
    }
    assert args == PartsFrom(call, next);
    assert next == MarkerSlots(call) + 2;
    assert ip == Slot(call, next - 1) && logtime == Slot(call, next - 2);
    var stamp: int;
    if !(logtime.Int? && logtime.i > midnight) {
      args := Expand(ip) + args;
      next := next - 1;
      ip := logtime;
      stamp := stampNow;
    } else {
      stamp := logtime.i;
    }
    assert args == PartsFrom(call, next);
    assert ip == Slot(call, next - 1);
    if !isAddress(ip) {
      args := Expand(ip) + args;
      next := next - 1;
      ip := Null;
    }
    assert args == PartsFrom(call, next);
    p := Parsed(crash, stamp, ip, args);
  }

  // ----- properties of the slot rules -----

  /** crash is 1 exactly when the first argument is the string 'crash'. */
  lemma CrashMarker(call: seq<JsValue>, midnight: int, stampNow: int)
    ensures var p := ParseSpec(call, midnight, stampNow);
      (p.crash == 1 <==> |call| > 0 && call[0] == Str("crash")) && (p.crash == 0 || p.crash == 1)
  {
  }

  /** The timestamp handed on is one from today or the clock reading, and the
      address is one that ipmatch accepts or null. */
  lemma SlotsPassTheirTests(call: seq<JsValue>, midnight: int, stampNow: int)
    ensures var p := ParseSpec(call, midnight, stampNow);
      (p.logtime > midnight || p.logtime == stampNow) && (p.ip == Null || IpTest(p.ip))
  {
  }

  /** No argument is lost and none is reordered: when the first three arguments are
      neither undefined nor arrays, the marker, the kept timestamp, the kept address
      and the message parts are the caller's arguments in the caller's order. */
  lemma ParseKeepsOrder(call: seq<JsValue>, midnight: int, stampNow: int)
    requires |call| >= 3
    requires forall j :: 0 <= j < 3 ==> !call[j].Undef? && !call[j].Arr?
    ensures var p := ParseSpec(call, midnight, stampNow);
      var m := MarkerSlots(call);
      call == call[..m]
              + (if IsTodayStamp(call[m], midnight) then [Int(p.logtime)] else [])
              + (if p.ip != Null then [p.ip] else [])
              + p.parts
  {
    NullIsNoIp();
    KeepsOrderWith(call, midnight, stampNow, IpTest);
  }

  /** The same for any address test that rejects null. */
  lemma KeepsOrderWith(call: seq<JsValue>, midnight: int, stampNow: int, isAddress: JsValue -> bool)
    requires |call| >= 3 && !isAddress(Null)
    requires forall j :: 0 <= j < 3 ==> !call[j].Undef? && !call[j].Arr?
    ensures var p := ParseWith(call, midnight, stampNow, isAddress);
      var m := MarkerSlots(call);
      call == call[..m]
              + (if IsTodayStamp(call[m], midnight) then [Int(p.logtime)] else [])
              + (if p.ip != Null then [p.ip] else [])
              + p.parts
  {
    var p := ParseWith(call, midnight, stampNow, isAddress);
    var m := MarkerSlots(call);
    var stamped := IsTodayStamp(call[m], midnight);
    var i := if stamped then m + 1 else m;
    var kept := if isAddress(call[i]) then i + 1 else i;
    assert p.parts == PartsFrom(call, kept);
    assert p.ip != Null <==> isAddress(call[i]);
    PartsFromPlain(call, kept);
    SplitAt(call, m, i, kept, if stamped then [Int(p.logtime)] else [],
            if p.ip != Null then [p.ip] else []);
  }

  lemma SplitAt<T>(s: seq<T>, m: nat, i: nat, k: nat, a: seq<T>, b: seq<T>)
    requires m <= i <= k <= |s| && a == s[m..i] && b == s[i..k]
    ensures s == s[..m] + a + b + s[k..]
  {
    assert s[..m] + a + b == s[..k];
  }

  lemma NullIsNoIp()
    ensures !IpTest(Null) && !IpTest(Undef)
  {
    assert DigitPrefix("null") == 0 && DigitPrefix("undefined") == 0;
  }

  /** Without undefined or array arguments in the slots, the parts from position k
      are the arguments from position k. */
  lemma {:induction false} PartsFromPlain(call: seq<JsValue>, k: nat)
    requires |call| >= 3 && k <= 3
    requires forall j :: 0 <= j < 3 ==> !call[j].Undef? && !call[j].Arr?
    ensures PartsFrom(call, k) == call[k..]
    decreases 3 - k
  {
    if k < 3 {
      PartsFromPlain(call, k + 1);
      assert call[k..] == [call[k]] + call[k + 1..];
    }
  }

  // ----- the message (debug-helper.js:54-57) -----

  /** args.reduce((cum, arg) => arg === undefined ? cum : `${cum} ${arg}`.trim(), '') */
  function JoinMessage(parts: seq<JsValue>): (msg: string)
    ensures IsTrimmed(msg)
  {
    if parts == [] then ""
    else
      var cum := JoinMessage(parts[..|parts| - 1]);
      var arg := parts[|parts| - 1];
      if arg.Undef? then cum else Trim(cum + " " + ToStr(arg))
  }

  /** A part that converts to a non-empty word with no white space at its ends. */
  predicate IsWord(v: JsValue)
  {
    !v.Undef? && ToStr(v) != [] && IsTrimmed(ToStr(v))
  }

  predicate AllWords(parts: seq<JsValue>)
  {
    forall k :: 0 <= k < |parts| ==> IsWord(parts[k])
  }

  /** The words the parts convert to. */
  function Words(parts: seq<JsValue>): (ws: seq<string>)
    ensures |ws| == |parts|
  {
    if parts == [] then [] else Words(parts[..|parts| - 1]) + [ToStr(parts[|parts| - 1])]
  }

  lemma {:induction false} WordsAreWords(parts: seq<JsValue>)
    requires AllWords(parts)
    ensures forall k :: 0 <= k < |parts| ==> Words(parts)[k] != [] && IsTrimmed(Words(parts)[k])
  {
    if parts != [] {
      var n := |parts| - 1;
      assert AllWords(parts[..n]) by {
        forall k | 0 <= k < n ensures IsWord(parts[..n][k]) { assert parts[..n][k] == parts[k]; }
      }
      WordsAreWords(parts[..n]);
      assert IsWord(parts[n]);
    }
  }

  /** The parts that are not undefined, in order. */
  function Defined(parts: seq<JsValue>): (ds: seq<JsValue>)
    ensures |ds| <= |parts|
    ensures forall v :: v in ds ==> v in parts && !v.Undef?
  {
    if parts == [] then []
    else
      var last := parts[|parts| - 1];
      Defined(parts[..|parts| - 1]) + (if last.Undef? then [] else [last])
  }

  /** Undefined parts are skipped: the message is the join of the other parts. */
  lemma {:induction false} JoinSkipsUndefined(parts: seq<JsValue>)
    ensures JoinMessage(parts) == JoinMessage(Defined(parts))
  {
    if parts != [] {
      var init, last := parts[..|parts| - 1], parts[|parts| - 1];
      JoinSkipsUndefined(init);
      if last.Undef? {
        assert Defined(parts) == Defined(init);
      } else {
        var ds := Defined(init) + [last];
        assert Defined(parts) == ds;
        assert ds[..|ds| - 1] == Defined(init) && ds[|ds| - 1] == last;
        var cum := JoinMessage(init);
        assert JoinMessage(ds) == Trim(cum + " " + ToStr(last));
      }
    }
  }

  /** When every part that is not undefined is a word, the message is those
      words joined with single spaces. */
  lemma JoinOfDefinedWords(parts: seq<JsValue>)
    requires forall k :: 0 <= k < |parts| && !parts[k].Undef? ==> IsWord(parts[k])
    ensures JoinMessage(parts) == Join(Words(Defined(parts)), " ")
  {
    var ds := Defined(parts);
    assert AllWords(ds) by {
      forall k | 0 <= k < |ds| ensures IsWord(ds[k]) {
        assert ds[k] in parts;
      }
    }
    JoinSkipsUndefined(parts);
    JoinMessageOfWords(ds);
  }

  /** An undefined part between two words leaves a single space. */
  lemma UndefinedBetweenWords(a: string, b: string)
    requires IsWord(Str(a)) && IsWord(Str(b))
    ensures JoinMessage([Str(a), Undef, Str(b)]) == a + " " + b
  {
    var parts := [Str(a), Undef, Str(b)];
    assert parts[..2] == [Str(a), Undef] && parts[..2][..1] == [Str(a)];
    JoinTwoWords(a, b);
    assert [Str(a), Str(b)][..1] == [Str(a)];
  }

  /** Parts that are words are joined with single spaces. */
  lemma {:induction false} JoinMessageOfWords(parts: seq<JsValue>)
    requires AllWords(parts)
    ensures JoinMessage(parts) == Join(Words(parts), " ")
  {
    if parts != [] {
      var n := |parts| - 1;
      assert AllWords(parts[..n]) by {
        forall k | 0 <= k < n ensures IsWord(parts[..n][k]) { assert parts[..n][k] == parts[k]; }
      }
      JoinMessageOfWords(parts[..n]);
      JoinMessageStep(parts);
    }
  }

  /** One more word after words joined with single spaces. */
  lemma JoinMessageStep(parts: seq<JsValue>)
    requires |parts| >= 1 && IsWord(parts[|parts| - 1])
    requires AllWords(parts[..|parts| - 1])
    requires JoinMessage(parts[..|parts| - 1]) == Join(Words(parts[..|parts| - 1]), " ")
    ensures JoinMessage(parts) == Join(Words(parts), " ")
  {
    var init := parts[..|parts| - 1];
    var w := ToStr(parts[|parts| - 1]);
    var cum := Join(Words(init), " ");
    assert JoinMessage(parts) == Trim(cum + " " + w);
    assert Words(parts) == Words(init) + [w];
    if init == [] {
      assert cum + " " + w == " " + w;
      TrimLeadingSpace(w);
    } else {
      JoinOneMoreWord(init, w);
    }
  }

  /** Trimming the join of words with one more word after a space changes nothing. */
  lemma JoinOneMoreWord(init: seq<JsValue>, w: string)
    requires init != [] && AllWords(init) && w != [] && IsTrimmed(w)
    ensures Trim(Join(Words(init), " ") + " " + w) == Join(Words(init) + [w], " ")
  {
    WordsAreWords(init);
    JoinOfWordsIsWord(Words(init));
    TrimOfSpacedWords(Join(Words(init), " "), w);
    JoinAppend(Words(init), w, " ");
  }

  /** Two words with one space between them need no trimming. */
  lemma TrimOfSpacedWords(a: string, b: string)
    requires a != [] && IsTrimmed(a) && b != [] && IsTrimmed(b)
    ensures Trim(a + " " + b) == a + " " + b
  {
    var s := a + " " + b;
    assert s[0] == a[0] && s[|s| - 1] == b[|b| - 1];
    TrimFixesTrimmed(s);
  }

  /** The join of one or more words starts and ends with a word character. */
  lemma {:induction false} JoinOfWordsIsWord(ws: seq<string>)
    requires |ws| >= 1
    requires forall k :: 0 <= k < |ws| ==> ws[k] != [] && IsTrimmed(ws[k])
    ensures Join(ws, " ") != [] && IsTrimmed(Join(ws, " "))
  {
    if |ws| > 1 {
      var init := ws[..|ws| - 1];
      JoinOfWordsIsWord(init);
      var j := Join(init, " ");
      var w := ws[|ws| - 1];
      var s := j + " " + w;
      assert s[0] == j[0] && s[|s| - 1] == w[|w| - 1];
    }
  }

  // ----- the worked examples -----

  /** Two words joined. */
  lemma JoinTwoWords(a: string, b: string)
    requires IsWord(Str(a)) && IsWord(Str(b))
    ensures JoinMessage([Str(a), Str(b)]) == a + " " + b
  {
    var parts := [Str(a), Str(b)];
    assert parts[..1] == [Str(a)];
    assert JoinMessage([Str(a)]) == Trim("" + " " + a);
    assert "" + " " + a == " " + a;
    TrimLeadingSpace(a);
    TrimOfSpacedWords(a, b);
  }

  /** Three words joined. */
  lemma JoinThreeWords(a: string, b: string, c: string)
    requires IsWord(Str(a)) && IsWord(Str(b)) && IsWord(Str(c))
    ensures JoinMessage([Str(a), Str(b), Str(c)]) == a + " " + b + " " + c
  {
    var parts := [Str(a), Str(b), Str(c)];
    assert parts[..2] == [Str(a), Str(b)];
    JoinTwoWords(a, b);
    var ab := a + " " + b;
    assert ab[0] == a[0] && ab[|ab| - 1] == b[|b| - 1];
    TrimOfSpacedWords(ab, c);
  }

  lemma StampAndAddressKept(call: seq<JsValue>, midnight: int, stampNow: int)
    requires MarkerSlots(call) == 0 && IsTodayStamp(Slot(call, 0), midnight) && IpTest(Slot(call, 1))
    ensures ParseSpec(call, midnight, stampNow) == Parsed(0, Slot(call, 0).i, Slot(call, 1), PartsFrom(call, 2))
  {
  }

  lemma NothingKept(call: seq<JsValue>, midnight: int, stampNow: int)
    requires MarkerSlots(call) == 0 && !IsTodayStamp(Slot(call, 0), midnight) && !IpTest(Slot(call, 0))
    ensures ParseSpec(call, midnight, stampNow) == Parsed(0, stampNow, Null, PartsFrom(call, 0))
  {
  }

  /** (ts, address, w1, w2) with ts later than midnight and an address ipmatch accepts:
      both slots are kept and the words form the message. */
  lemma StampAddressAndWords(ts: int, midnight: int, stampNow: int, a: string, w1: string, w2: string)
    requires ts > midnight && IpMatch(a) && IsWord(Str(w1)) && IsWord(Str(w2))
    ensures var p := ParseSpec([Int(ts), Str(a), Str(w1), Str(w2)], midnight, stampNow);
      p == Parsed(0, ts, Str(a), [Str(w1), Str(w2)]) && JoinMessage(p.parts) == w1 + " " + w2
  {
    var call := [Int(ts), Str(a), Str(w1), Str(w2)];
    assert MarkerSlots(call) == 0;
    assert IsTodayStamp(Slot(call, 0), midnight);
    assert PartsFrom(call, 3) == [Str(w2)];
    assert PartsFrom(call, 2) == [Str(w1), Str(w2)];
    StampAndAddressKept(call, midnight, stampNow);
    JoinTwoWords(w1, w2);
  }

  /** The first worked example: (ts, '192.168.1.5', w1, w2) with a timestamp from today
      keeps the stamp and the address 192.168.1.5, and the two words form the message. */
  lemma WorkedExampleWithAddress(ts: int, midnight: int, stampNow: int, a: string, w1: string, w2: string)
    requires ts > midnight && a == "192.168.1.5" && IsWord(Str(w1)) && IsWord(Str(w2))
    ensures var p := ParseSpec([Int(ts), Str(a), Str(w1), Str(w2)], midnight, stampNow);
      p == Parsed(0, ts, Str(a), [Str(w1), Str(w2)]) && JoinMessage(p.parts) == w1 + " " + w2
  {
    IpMatchExample(a);
    StampAddressAndWords(ts, midnight, stampNow, a, w1, w2);
  }

  /** (w0, w1, w2) where w0 is neither a timestamp nor an address: nothing is kept and
      all three words form the message. */
  lemma NoStampNoAddress(midnight: int, stampNow: int, w0: string, w1: string, w2: string)
    requires !IpMatch(w0) && w0 != "crash" && IsWord(Str(w0)) && IsWord(Str(w1)) && IsWord(Str(w2))
    ensures var p := ParseSpec([Str(w0), Str(w1), Str(w2)], midnight, stampNow);
      p == Parsed(0, stampNow, Null, [Str(w0), Str(w1), Str(w2)])
      && JoinMessage(p.parts) == w0 + " " + w1 + " " + w2
  {
    var call := [Str(w0), Str(w1), Str(w2)];
    assert MarkerSlots(call) == 0;
    assert PartsFrom(call, 3) == [];
    assert PartsFrom(call, 0) == call;
    NothingKept(call, midnight, stampNow);
    JoinThreeWords(w0, w1, w2);
  }

  /** The second worked example: ('not-an-ip', 'disk', 'full') gives the address null
      and the message "not-an-ip disk full". */
  lemma WorkedExampleWithoutAddress(midnight: int, stampNow: int, w0: string, w1: string, w2: string)
    requires w0 == "not-an-ip" && w1 == "disk" && w2 == "full"
    ensures var p := ParseSpec([Str(w0), Str(w1), Str(w2)], midnight, stampNow);
      p.crash == 0 && p.logtime == stampNow && p.ip == Null
      && JoinMessage(p.parts) == w0 + " " + w1 + " " + w2
  {
    assert DigitPrefix(w0) == 0;
    NoStampNoAddress(midnight, stampNow, w0, w1, w2);
  }

  /** Displaced values go back in the caller's order: an undefined one is dropped
      and the elements of an array are spliced in where the array stood. Here the
      first argument is neither a timestamp nor an address, the second is
      undefined and the third an array. */
  lemma DisplacedValuesSpliced(midnight: int, stampNow: int, w: string, es: seq<JsValue>, rest: seq<JsValue>)
    requires w != "crash" && !IpMatch(w)
    ensures var p := ParseSpec([Str(w), Undef, Arr(es)] + rest, midnight, stampNow);
      p == Parsed(0, stampNow, Null, [Str(w)] + es + rest)
  {
    var call := [Str(w), Undef, Arr(es)] + rest;
    assert Slot(call, 0) == Str(w) && Slot(call, 1) == Undef && Slot(call, 2) == Arr(es);
    assert RestArgs(call) == rest;
    assert PartsFrom(call, 0) == [Str(w)] + es + rest;
  }

  // ----- the per-instance state (debug-helper.js:19-25, 51-53, 58) -----

  /** The arguments the writer receives, in order: (logtime, crash, sd, ip, topic,
      message, cs, gap, immediate). The writer's result is returned unchanged; the
      model returns this record in its place. */
  datatype Entry = Entry(logtime: int, crash: int, sd: int, ip: JsValue, topic: JsValue,
                         message: string, cs: JsValue, gap: int, immediate: JsValue)

  /** The closure returned by DebugHelper: its captured constants and the
      `timestamp` cursor. */
  class Helper {
    const topic: JsValue
    const cs: JsValue
    const sd: int
    const immediate: JsValue
    var timestamp: int

    constructor(topic: JsValue, colourspec: JsValue, shortdate: JsValue, immediate: JsValue, now: int)
      ensures this.topic == topic && this.immediate == immediate
      ensures cs == ValidatedColour(colourspec) && sd == ShortDateFlag(shortdate)
      ensures timestamp == now
    {
      this.topic := topic;
      cs := ValidatedColour(colourspec);
      sd := ShortDateFlag(shortdate);
      timestamp := now;
      this.immediate := immediate;
    }

    /** One log call: `midnight` is local midnight, `stampNow` the clock reading
        used as the log time when no timestamp is given, `now` the clock reading
        that ends the gap. */
    method Log(call: seq<JsValue>, midnight: int, stampNow: int, now: int) returns (e: Entry)
      modifies this
      ensures var p := ParseSpec(call, midnight, stampNow);
        e == Entry(p.logtime, p.crash, sd, p.ip, topic, JoinMessage(p.parts), cs,
                   now - old(timestamp), immediate)
      ensures timestamp == now
    {
      var p := ParseArgs(call, midnight, stampNow, IpTest);
      var gap := now - timestamp;
      timestamp := now;
      var message := JoinMessage(p.parts);
      e := Entry(p.logtime, p.crash, sd, p.ip, topic, message, cs, gap, immediate);
    }
  }

  /** The gaps of successive calls on one instance add up to the time since the
      previous reading of the cursor. */
  method TwoCalls(h: Helper, call1: seq<JsValue>, call2: seq<JsValue>, midnight: int,
                  stamp1: int, now1: int, stamp2: int, now2: int) returns (e1: Entry, e2: Entry)
    modifies h
    ensures e1.gap + e2.gap == now2 - old(h.timestamp)
    ensures e2.gap == now2 - now1 && h.timestamp == now2
  {
    e1 := h.Log(call1, midnight, stamp1, now1);
    e2 := h.Log(call2, midnight, stamp2, now2);
  }
}
