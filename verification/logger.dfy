/** logger.js: the one-line console logger, which hides client addresses
    behind their cyrb53 hash on request. The environment flags, the clock's ISO
    text, node's isIP and chalk's colouring functions are inputs; the printed
    line is the result. */
module Logger {
  import opened Text
  import opened Wrappers
  import opened JsValues
  import opened Cyrb53Hash

  /** Which of LOG_NONE, LOG_NO_DATE and LOG_IP_HIDDEN are defined. */
  datatype Env = Env(logNone: bool, logNoDate: bool, logIpHidden: bool)

  /** Nothing printed, the line console.log prints, or the exception thrown. */
  datatype LogOutcome = Silent | Printed(line: string) | Threw(error: Thrown)

  /** The own keys of the logger's COLOURS table. */
  const LoggerColours: seq<string> := ["app", "db", "api", "client", "log", "mail", "auth", "err", "error"]

  /** A key COLOURS holds as its own property. */
  predicate IsLoggerColour(key: string)
  {
    key in LoggerColours
  }

  const NotAColour: Thrown := TypeError("COLOURS[logcolor] is not a function")

  /** What cyrb53 reads of a non-string value: `length` of undefined or null
      throws, a number or boolean has no length (nothing is folded), and a
      non-empty array has no charCodeAt. */
  function HashInput(ip: JsValue): (r: Result<seq<CodeUnit>, Thrown>)
    ensures ip.Str? ==> r == Ok(Utf16(ip.s))
    ensures r.Fail? <==> ip.Undef? || ip.Null? || (ip.Arr? && ip.elems != [])
  {
    match ip
    case Undef => Fail(TypeError("Cannot read properties of undefined (reading 'length')"))
    case Null => Fail(TypeError("Cannot read properties of null (reading 'length')"))
    case Str(s) => Ok(Utf16(s))
    case Arr(es) => if es == [] then Ok([]) else Fail(TypeError("str.charCodeAt is not a function"))
    case _ => Ok([])
  }

  /** The client shown for an address: its cyrb53 hash in decimal when
      LOG_IP_HIDDEN is defined, the address itself otherwise. */
  function Client(env: Env, ip: JsValue): Result<string, Thrown>
  {
    if env.logIpHidden then
      match HashInput(ip)
      case Ok(units) => Ok(NatToString(Hash(units, 0) as int))
      case Fail(e) => Fail(e)
    else Ok(ToStr(ip))
  }

  /** The ISO time and `: `, unless LOG_NO_DATE is defined. */
  function DateText(env: Env, isoNow: string): string
  {
    if env.logNoDate then "" else isoNow + ": "
  }

  /** The line before trimming, from the first argument, the level and the
      joined messages as strings: the date prefix, the coloured client for an
      address, and the message coloured by the colour the first argument names,
      or the level after an address. `isAddress` is node's isIP(ip) != 0 and
      `client` what Client gives for ip. */
  function Untrimmed(env: Env, isoNow: string, isAddress: bool, client: Result<string, Thrown>,
                     paint: (string, string) -> string, ipText: string, levelText: string,
                     joined: string): Result<string, Thrown>
  {
    if !isAddress then
      if IsLoggerColour(ipText) then Ok(DateText(env, isoNow) + paint(ipText, levelText + joined))
      else Fail(NotAColour)
    else if client.Fail? then Fail(client.error)
    else if IsLoggerColour(levelText) then
      Ok(DateText(env, isoNow) + paint("client", client.value + ": ") + paint(levelText, joined))
    else Fail(NotAColour)
  }

  /** What logger(ip, level, ...messages) does. */
  function LogLine(env: Env, isoNow: string, isAddress: bool, paint: (string, string) -> string,
                   ip: JsValue, level: JsValue, messages: seq<JsValue>): (r: LogOutcome)
    ensures env.logNone <==> r == Silent
    ensures r.Printed? ==> IsTrimmed(r.line)
    ensures !env.logNone && !isAddress ==> (r.Threw? <==> !IsLoggerColour(ToStr(ip)))
  {
    if env.logNone then Silent
    else
      match Untrimmed(env, isoNow, isAddress, Client(env, ip), paint, ToStr(ip), ToStr(level), ArrayJoin(messages, " "))
      case Ok(line) => Printed(Trim(line))
      case Fail(e) => Threw(e)
  }

  /** The client text, hashed by cyrb53 when LOG_IP_HIDDEN is defined. */
  method ClientOf(env: Env, ip: JsValue) returns (client: Result<string, Thrown>)
    ensures client == Client(env, ip)
  {
    if env.logIpHidden {
      var units := HashInput(ip);
      if units.Fail? {
        return Fail(units.error);
      }
      var h := Cyrb53(units.value, 0);
      client := Ok(NatToString(h as int));
    } else {
      client := Ok(ToStr(ip));
    }
  }

  /** logger as the source writes it: nothing when LOG_NONE is defined,
      otherwise the composed line, trimmed, or the exception composing threw. */
  method Log(env: Env, isoNow: string, isIp: string -> bool, paint: (string, string) -> string,
             ip: JsValue, level: JsValue, messages: seq<JsValue>) returns (out: LogOutcome)
    ensures out == LogLine(env, isoNow, isIp(ToStr(ip)), paint, ip, level, messages)
  {
    if env.logNone {
      return Silent;
    }
    var line := Compose(env, isoNow, isIp, paint, ip, ToStr(ip), ToStr(level), ArrayJoin(messages, " "));
    match line
    case Ok(l) => out := Printed(Trim(l));
    case Fail(e) => out := Threw(e);
  }

  /** The body of logger past the LOG_NONE test, building the line with
      successive appends; `ipText`, `levelText` and `joined` are ip, level and
      messages.join(' ') as strings. */
  method Compose(env: Env, isoNow: string, isIp: string -> bool, paint: (string, string) -> string,
                 ip: JsValue, ipText: string, levelText: string, joined: string)
    returns (line: Result<string, Thrown>)
    ensures line == Untrimmed(env, isoNow, isIp(ipText), Client(env, ip), paint, ipText, levelText, joined)
  {
    var logLine := "";
    if !env.logNoDate {
      logLine := logLine + (isoNow + ": ");
    }
    assert logLine == DateText(env, isoNow);
    var message: string;
    var logcolor: string;
    if !isIp(ipText) {
      logcolor := ipText;
      message := levelText + joined;
    } else {
      var client := ClientOf(env, ip);
      if client.Fail? {
        return Fail(client.error);
      }
      logLine := logLine + paint("client", client.value + ": ");
      logcolor := levelText;
      message := joined;
    }
    if !IsLoggerColour(logcolor) {
      return Fail(NotAColour);
    }
    line := Ok(logLine + paint(logcolor, message));
  }

  // ----- properties of the logged line -----

  /** The ISO date and `: ` lead the line exactly when LOG_NO_DATE is undefined,
      and the rest of the line does not depend on the date. */
  lemma DatePrefix(env: Env, isoNow: string, isAddress: bool, client: Result<string, Thrown>,
                   paint: (string, string) -> string, ipText: string, levelText: string, joined: string)
    requires !env.logNoDate
    ensures var dated := Untrimmed(env, isoNow, isAddress, client, paint, ipText, levelText, joined);
      var plain := Untrimmed(env.(logNoDate := true), isoNow, isAddress, client, paint, ipText, levelText, joined);
      dated.Ok? == plain.Ok? && (dated.Ok? ==> dated.value == isoNow + ": " + plain.value)
  {
    if isAddress && client.Ok? {
      var c := paint("client", client.value + ": ");
      var m := paint(levelText, joined);
      assert (isoNow + ": ") + c + m == isoNow + ": " + ("" + c + m);
    } else if !isAddress {
      var m := paint(ipText, levelText + joined);
      assert "" + m == m;
    }
  }

  /** For a first argument that is not an address, it names the colour and the
      level is glued to the joined messages without a separator. */
  lemma NonAddressLine(env: Env, isoNow: string, paint: (string, string) -> string,
                       ip: JsValue, level: JsValue, messages: seq<JsValue>)
    requires !env.logNone && !env.logNoDate && IsLoggerColour(ToStr(ip))
    ensures LogLine(env, isoNow, false, paint, ip, level, messages)
      == Printed(Trim(isoNow + ": " + paint(ToStr(ip), ToStr(level) + ArrayJoin(messages, " "))))
  {
  }

  /** A hidden client is shown as the decimal numeral of its hash, and two
      addresses are shown alike exactly when their hashes are equal. */
  lemma HiddenClient(env: Env, a: string, b: string)
    requires env.logIpHidden
    ensures Client(env, Str(a)) == Ok(NatToString(Hash(Utf16(a), 0) as int))
    ensures Canonical(Client(env, Str(a)).value)
    ensures Client(env, Str(a)) == Client(env, Str(b)) <==> Hash(Utf16(a), 0) as int == Hash(Utf16(b), 0) as int
  {
    var ha := Hash(Utf16(a), 0);
    var hb := Hash(Utf16(b), 0);
    if Client(env, Str(a)) == Client(env, Str(b)) {
      NatToStringInjective(ha as int, hb as int);
    }
  }

  /** A colour name that is not one of the nine keys makes the call throw,
      whichever argument names it. */
  lemma UnknownColourThrows(env: Env, isoNow: string, isAddress: bool, paint: (string, string) -> string,
                            ip: JsValue, level: JsValue, messages: seq<JsValue>)
    requires !env.logNone
    requires !IsLoggerColour(ToStr(if isAddress then level else ip))
    ensures LogLine(env, isoNow, isAddress, paint, ip, level, messages).Threw?
  {
  }
}
