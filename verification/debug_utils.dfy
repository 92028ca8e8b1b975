/** The copy of DebugHelper in debug-utils.js:87-128. Its factory (lines 87-92)
    is the one of debug-helper.js, so its state is DebugHelper.Helper; the
    returned function differs at line 106, which calls `getTime()` on `from`,
    the number that `setHours` returned. `Number.isInteger(logtime)` is tested
    first, so the call is reached, and throws, exactly when the timestamp slot
    holds an integer. The copy of messageFormatter in the same file (lines
    39-85) is MessageFormatter.Formatter with a cursor of its own. */
module DebugUtils {
  import opened Wrappers
  import opened JsValues
  import opened Patterns
  import opened DebugHelper
  import opened MessageFormatter

  /** What the engine throws at debug-utils.js:106. */
  const GetTimeError: Thrown := TypeError("from.getTime is not a function")

  /** The argument sorting of the copy: an integer in the timestamp slot throws,
      anything else is sorted as in debug-helper.js, with `isAddress` as the
      address test. */
  function ParseAsWritten(call: seq<JsValue>, midnight: int, stampNow: int, isAddress: JsValue -> bool)
    : Result<Parsed, Thrown>
  {
    if Slot(call, MarkerSlots(call)).Int? then Fail(GetTimeError)
    else Ok(ParseWith(call, midnight, stampNow, isAddress))
  }

  /** debug-utils.js:94-118 step by step; `isAddress` is ipmatch.test. */
  method ParseArgsAsWritten(call: seq<JsValue>, midnight: int, stampNow: int, isAddress: JsValue -> bool)
    returns (r: Result<Parsed, Thrown>)
    ensures r == ParseAsWritten(call, midnight, stampNow, isAddress)
  {
    var c, logtime, ip := Slot(call, 0), Slot(call, 1), Slot(call, 2);
    var args := RestArgs(call);
    var crash := 1;
    ghost var next := 3;
    if c != Str("crash") {
      args := Expand(ip) + args;
      next := 2;
      ip := logtime;
      logtime := c;
      crash := 0;
    }
    assert args == PartsFrom(call, next);
    assert next == MarkerSlots(call) + 2;
    assert ip == Slot(call, next - 1) && logtime == Slot(call, next - 2);
    if logtime.Int? {
      return Fail(GetTimeError);
    }
    args := Expand(ip) + args;
    next := next - 1;
    ip := logtime;
    assert args == PartsFrom(call, next);
    assert ip == Slot(call, next - 1);
    if !isAddress(ip) {
      args := Expand(ip) + args;
      next := next - 1;
      ip := Null;
    }
    assert args == PartsFrom(call, next);
    r := Ok(Parsed(crash, stampNow, ip, args));
  }

  /** The copy throws exactly for an integer in the timestamp slot, and otherwise
      agrees with debug-helper.js, whose timestamp is then the clock reading. */
  lemma CopyDiffersOnlyOnIntegers(call: seq<JsValue>, midnight: int, stampNow: int, isAddress: JsValue -> bool)
    ensures ParseAsWritten(call, midnight, stampNow, isAddress).Fail? <==> Slot(call, MarkerSlots(call)).Int?
    ensures ParseAsWritten(call, midnight, stampNow, isAddress).Ok? ==>
      ParseAsWritten(call, midnight, stampNow, isAddress).value == ParseWith(call, midnight, stampNow, isAddress)
      && ParseWith(call, midnight, stampNow, isAddress).logtime == stampNow
  {
  }

  /** The discrepancy: a timestamp from today, which debug-helper.js keeps, makes
      the copy throw; so does a stale integer, which debug-helper.js moves into the
      message. */
  lemma TodayStampThrowsInCopy(ts: int, midnight: int, stampNow: int, rest: seq<JsValue>)
    ensures var call := [Int(ts)] + rest;
      ParseAsWritten(call, midnight, stampNow, IpTest) == Fail(GetTimeError)
      && (ts > midnight ==> ParseSpec(call, midnight, stampNow).logtime == ts)
      && (ts <= midnight ==> ParseSpec(call, midnight, stampNow).logtime == stampNow)
  {
    var call := [Int(ts)] + rest;
    assert Slot(call, 0) == Int(ts);
  }

  /** One call of the copy's returned function on an instance: the throw comes
      before the gap is measured, so it leaves the cursor where it was. */
  method LogAsWritten(h: Helper, call: seq<JsValue>, midnight: int, stampNow: int, now: int)
    returns (r: Result<Entry, Thrown>)
    modifies h
    ensures r.Fail? <==> Slot(call, MarkerSlots(call)).Int?
    ensures r.Fail? ==> r.error == GetTimeError && h.timestamp == old(h.timestamp)
    ensures r.Ok? ==>
      var p := ParseSpec(call, midnight, stampNow);
      r.value == Entry(p.logtime, p.crash, h.sd, p.ip, h.topic, JoinMessage(p.parts), h.cs,
                       now - old(h.timestamp), h.immediate)
      && h.timestamp == now
  {
    var parsed := ParseArgsAsWritten(call, midnight, stampNow, IpTest);
    if parsed.Fail? {
      return Fail(parsed.error);
    }
    var e := h.Log(call, midnight, stampNow, now);
    r := Ok(e);
  }

  /** The two copies of messageFormatter keep separate day cursors: the same line
      formatted by one copy and then by the other gets a day header from each copy
      whose own cursor shows another date, whether or not the other copy has just
      printed that date. */
  method SeparateDayCursors(f: Formatter, g: Formatter, view: DateView, logid: JsValue, logtime: JsValue,
                            crash: JsValue, shortdate: JsValue, ipaddress: JsValue, topic: JsValue,
                            message: JsValue, colourspec: JsValue, gap: JsValue)
    returns (r1: Result<Formatted, Thrown>, r2: Result<Formatted, Thrown>)
    requires f != g
    requires logtime.Str? ==> DateMatch(logtime.s).Some?
    modifies f, g
    ensures r1.Ok? && r2.Ok?
    ensures r1.value.dayoutput != [] <==> old(f.lastdate) != view.displaydate
    ensures r2.value.dayoutput != [] <==> old(g.lastdate) != view.displaydate
    ensures r1.value.message == r2.value.message
    ensures f.lastdate == view.displaydate && g.lastdate == view.displaydate
  {
    r1 := f.Format(logid, logtime, crash, shortdate, ipaddress, topic, message, colourspec, gap, view);
    r2 := g.Format(logid, logtime, crash, shortdate, ipaddress, topic, message, colourspec, gap, view);
  }
}
