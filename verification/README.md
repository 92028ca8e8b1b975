# Debug and logging helpers, modelled in Dafny

This project models the self-contained logic of a small Node.js server toolkit:

- **The `DebugHelper` log call** (debug-helper.js). The factory validates a colour spec and remembers its creation time. The function it returns sorts a loose positional argument list into four things:
  - an optional `'crash'` marker;
  - an optional timestamp from today;
  - an optional IPv4 address;
  - the message parts.

  It then joins the parts into one trimmed message and measures the gap since the same instance's previous call.
- **The copy in debug-utils.js.** It holds:
  - the colour palette;
  - the `hexmatch`, `rgbmatch`, `ipmatch` and `datematch` expressions;
  - a second `messageFormatter`;
  - a second `DebugHelper`, which differs at line 106.
- **`messageFormatter`** (message-formatter.js). It turns one entry into a coloured line. It picks the message colour by a fixed precedence. It shows the address, logid and gap segments only when they apply. It emits a day header whenever the display date differs from the module-level `lastdate`.
- **`Responder`** (responder.js). It streams a JSON array of rows, or a JSON object of value and row sections, to a sink. It refuses illegal call orders and hands out at most one drain promise at a time.
- **`cyrb53` and `logger`** (logger.js). `cyrb53` is a 53-bit string hash. `logger` composes a console line, which can hide the client address behind its hash.

Modules and files:

| file | module | what it holds |
|---|---|---|
| `wrappers.dfy` | `Wrappers` | `Option` and `Result` |
| `text.dfy` | `Text` | decimal numerals, `trim`, `padStart`, joining |
| `js_values.dfy` | `JsValues` | the JavaScript values that reach these functions, `ToString` and truthiness |
| `patterns.dfy` | `Patterns` | the palette and the four regular expressions, each as the matcher it denotes |
| `debug_helper.dfy` | `DebugHelper` | the colour validation, the slot rules and the message join; class `Helper` holds the gap cursor |
| `debug_utils.dfy` | `DebugUtils` | the debug-utils.js copy of `DebugHelper` as written |
| `message_formatter.dfy` | `MessageFormatter` | the segments; class `Formatter` holds the `lastdate` cursor |
| `responder.dfy` | `Responder` | class `Responder` over a sink of chunks, with a ghost document that the chunks spell |
| `cyrb53.dfy` | `Cyrb53Hash` | the hash, over `bv32` accumulators |
| `logger.dfy` | `Logger` | the line composer |

How the source maps onto Dafny:

- **Imperative code becomes methods.** Each is proved equal to a specification function, and the properties are proved about that function:
  - `DebugHelper.ParseArgs` is the argument shuffling, step by step;
  - `Cyrb53Hash.Cyrb53` is the hashing loop;
  - `Logger.Compose` appends to the line in the source's order;
  - `MessageFormatter.MessagePieces` is the colour if-chain.
- **State the source updates in place becomes class fields:**
  - the closure's `timestamp` is `DebugHelper.Helper.timestamp`;
  - the module-level `lastdate` is `MessageFormatter.Formatter.lastdate`;
  - the flags of `Responder` are fields of `Responder.Responder`.
- **JavaScript coercions are modelled.** A regular expression's `test` and a template literal convert their argument to a string first. The model does the same through `JsValues.ToStr`, so `null` is tested as the text `"null"`.
- **Globals without imports.** debug-helper.js uses `COLOURS` and `ipmatch` without importing them. The model takes the definitions in debug-utils.js:22-37 for them.

## Model

| member | source | states |
|---|---|---|
| DebugHelper.ValidatedColour | debug-helper.js:21 | the colour spec handed on is the input or null, and a non-null one is a palette name, a hex spec or an rgb triple |
| DebugHelper.ValidatedColourExactly | debug-helper.js:21 | validation keeps the input exactly when it is a colour spec (or null already), and validating twice changes nothing |
| DebugHelper.NullIsNoColour | debug-helper.js:21 | null, read as the text "null", is no colour spec, so null as a result always means "no colour" |
| DebugHelper.ValidatedColourAsWritten | debug-helper.js:21 | the `in` test as JavaScript evaluates it keeps every colour spec, and otherwise gives the input or null |
| DebugHelper.InheritedNameKeptAsColour | debug-helper.js:21 | as written, `toString` passes as a colour although it is no palette entry; the corrected validation rejects it |
| DebugHelper.ShortDateFlag | debug-helper.js:22 | `sd` is 1 exactly when shortdate is truthy, else 0 |
| DebugHelper.MarkerSlots | debug-helper.js:26-34 | the crash marker takes one slot exactly when the first argument is the string 'crash', and none otherwise |
| DebugHelper.ParseArgs | debug-helper.js:26-50 | the step-by-step shuffling of crash, logtime, ip and args gives exactly the greedy slot rules of ParseWith, for any address test |
| DebugHelper.CrashMarker | debug-helper.js:26-34 | crash is 1 exactly when the first argument is the string 'crash', otherwise 0 |
| DebugHelper.SlotsPassTheirTests | debug-helper.js:36-50 | the logtime handed on is later than midnight or is the clock reading, and the ip is null or passes ipmatch |
| DebugHelper.StampAndAddressKept | debug-helper.js:36-50 | a stamp from today followed by an accepted address: both are kept and the parts start after them |
| DebugHelper.NothingKept | debug-helper.js:36-50 | a first argument that is neither a stamp from today nor an address: logtime is the clock, ip is null, and every argument is a message part |
| DebugHelper.ParseKeepsOrder | debug-helper.js:26-50 | with no undefined or array in the slots, the marker, the kept stamp, the kept address and the parts are the caller's arguments in the caller's order |
| DebugHelper.KeepsOrderWith | debug-helper.js:26-50 | the same order preservation for any address test that rejects null |
| DebugHelper.DisplacedValuesSpliced | debug-helper.js:28-50 | a displaced undefined is dropped, and a displaced array is spliced in element by element where it stood |
| DebugHelper.JoinMessage | debug-helper.js:54-57 | the joined message has no leading or trailing white space |
| DebugHelper.JoinMessageOfWords | debug-helper.js:54-57 | parts that are words are joined with single spaces, in order |
| DebugHelper.JoinSkipsUndefined | debug-helper.js:54-57 | undefined parts are skipped: the message is the join of the parts that are not undefined |
| DebugHelper.JoinOfDefinedWords | debug-helper.js:54-57 | when every part that is not undefined is a word, the message is those words, in order, joined with single spaces |
| DebugHelper.UndefinedBetweenWords | debug-helper.js:55-56 | an undefined part between two words leaves a single space: `a b` |
| DebugHelper.JoinTwoWords | debug-helper.js:54-57 | two words join as `a b` |
| DebugHelper.JoinThreeWords | debug-helper.js:54-57 | three words join as `a b c` |
| DebugHelper.StampAddressAndWords | debug-helper.js:25-57 | (stamp from today, address, w1, w2) keeps the stamp and the address and gives the message `w1 w2` |
| DebugHelper.WorkedExampleWithAddress | debug-helper.js:25-57 | (ts, '192.168.1.5', w1, w2) with ts later than midnight keeps ts and 192.168.1.5, and the message is `w1 w2` |
| DebugHelper.NoStampNoAddress | debug-helper.js:25-57 | three words with no stamp or address: logtime is the clock, ip is null, and the message is all three words |
| DebugHelper.WorkedExampleWithoutAddress | debug-helper.js:25-57 | ('not-an-ip', 'disk', 'full') gives crash 0, the clock as logtime, ip null and the message `not-an-ip disk full` |
| DebugHelper.Helper.constructor | debug-helper.js:19-24 | the instance holds the topic, the validated colour, the 0/1 short-date flag, `immediate`, and the creation time as its cursor |
| DebugHelper.Helper.Log | debug-helper.js:25-59 | the writer receives (logtime, crash, sd, ip, topic, message, cs, gap, immediate) from the slot rules and the join; gap is now minus the cursor, and the cursor becomes now |
| DebugHelper.TwoCalls | debug-helper.js:51-53 | on one instance, the second gap is the time between the two calls, and the two gaps add up to the time since the cursor's first value |
| DebugUtils.ParseArgsAsWritten | debug-utils.js:94-118 | the copy's shuffling step by step equals its specification: throw for an integer in the timestamp slot, otherwise the slot rules |
| DebugUtils.CopyDiffersOnlyOnIntegers | debug-utils.js:93-126 | the copy throws exactly when the timestamp slot holds an integer, and otherwise agrees with debug-helper.js |
| DebugUtils.TodayStampThrowsInCopy | debug-utils.js:104-106 | an integer stamp throws in the copy, whether debug-helper.js would keep it (later than midnight) or move it to the message |
| DebugUtils.LogAsWritten | debug-utils.js:93-127 | a call of the copy throws exactly for an integer stamp and then leaves the cursor alone; otherwise it gives the entry of Helper.Log and moves the cursor |
| DebugUtils.SeparateDayCursors | debug-utils.js:39-77 | the two formatter copies keep separate `lastdate` cursors: the same line formatted by each gets a day header from each copy whose own cursor showed another date, even right after the other copy printed that date; the lines agree, and both cursors end on the date |
| Patterns.InheritedNamePassesPaletteTest | debug-utils.js:89 | `'toString' in COLOURS.COLOURS` holds although toString is no own palette name |
| Patterns.HexMatchOf | debug-utils.js:23 | `#` then ds matches exactly when ds is three or six hex digits of either case, and no text without a leading `#` matches |
| Patterns.HexMatchExamples | debug-utils.js:23 | `#ff651d` and `#FFF` match, `#ff65` does not |
| Patterns.RgbParseRender | debug-utils.js:24 | every triple of one-to-three-digit groups, with or without the optional spaces, is accepted and parsed back into its groups |
| Patterns.RgbParseSound | debug-utils.js:24 | whatever rgbmatch accepts is such a triple, rendered back exactly |
| Patterns.RgbAcceptsOutOfRangeValues | debug-utils.js:24 | `999,999,999` is accepted, because the groups are not range-checked |
| Patterns.Octet | debug-utils.js:37 | an accepted octet has a value of at most 255 |
| Patterns.IpGroupsRender | debug-utils.js:37 | dotted decimal octets of 0-255, with or without a trailing dot, are accepted and give back their values |
| Patterns.IpGroupsSound | debug-utils.js:37 | whatever k groups accept is k dotted octets of 0-255, with or without a trailing dot |
| Patterns.IpMatchExactly | debug-utils.js:37 | ipmatch accepts exactly four dotted decimal octets 0-255 without leading zeros, optionally followed by one dot |
| Patterns.IpMatchExample | debug-utils.js:37 | `192.168.1.5` is accepted |
| Patterns.IpMatchTrailingDotExample | debug-utils.js:37 | `192.168.1.5.` is accepted too |
| Patterns.DateMatch | debug-utils.js:38 | a match starts with a `YYYY-MM-DD hh:mm` head in the allowed digit ranges, continues with `:ss` when longer and then `.` and the fraction; it has length 16, 19 or 21-23, and its ninth group is the one-to-three-digit fraction that ends the text |
| Patterns.DateMatchMinutes | debug-utils.js:38 | a date and time to the minute matches, with no ninth group |
| Patterns.DateMatchSeconds | debug-utils.js:38 | with seconds it matches; the fraction after a point is the ninth group, and without one there is none |
| MessageFormatter.MillisFieldDigits | message-formatter.js:50-52 | the millisecond field has three digits and keeps the value of the captured group or of getMilliseconds; an absent group shows as 000 |
| MessageFormatter.ShortTimeIsHoursAndMinutes | message-formatter.js:53 | with shortdate 1, `hh:mm:ss.mmm` is shown as `hh:mm`; any other shortdate shows the whole time |
| MessageFormatter.IpSegment | message-formatter.js:54 | the ` [address]` segment, in red, appears exactly when ipmatch accepts the address |
| MessageFormatter.LogidSegment | message-formatter.js:57-59 | the logid segment appears exactly for a crash entry, and is a space and the logid in bright white |
| MessageFormatter.MessageStylePrecedence | message-formatter.js:56-70 | each style is chosen exactly when its rule applies and no earlier one does (crash, palette, hex, rgb, else cyan), and an rgb style carries the spec's three groups |
| MessageFormatter.MessagePieces | message-formatter.js:56-70 | the if-chain gives the logid segment and the message in the style of the first applicable rule |
| MessageFormatter.RoundMinutes | message-formatter.js:71 | the minutes shown are within half a minute of the gap, with halves rounded up |
| MessageFormatter.RoundMinutesUnique | message-formatter.js:71 | they are the only whole number of minutes within that bracket |
| MessageFormatter.GapSegment | message-formatter.js:71 | the gap segment appears exactly for an integer gap, in bright white: ` gap: ` and the rounded minutes and ` mins` when shortdate is truthy, else the milliseconds and `ms` |
| MessageFormatter.GapText | message-formatter.js:71 | with a truthy shortdate the gap reads as the whole number of minutes within half a minute of it (halves rounded up), otherwise as the raw milliseconds |
| MessageFormatter.DayOutput | message-formatter.js:72-76 | the day header is non-empty exactly when the display date differs from the last one, and it reads `date:` and a newline |
| MessageFormatter.MessageLineText | message-formatter.js:80 | the message, without styles, is date, time, logid, address, ` (topic) `, message and gap, in that order |
| MessageFormatter.Formatter.constructor | message-formatter.js:38 | the cursor starts empty |
| MessageFormatter.Formatter.Format | message-formatter.js:40-84 | a string logtime that datematch rejects throws before the cursor moves; otherwise the result is the day header and the line, with logid and ip echoed, and the cursor holds the display date |
| MessageFormatter.SameDayTwice | message-formatter.js:72-76 | of two consecutive lines of one day, only the first can carry a day header |
| MessageFormatter.ValidatedColourStyle | message-formatter.js:61-69 | a colour spec the helper validated is drawn in its own style, and one it replaced by null is drawn cyan |
| MessageFormatter.HelperAddressShown | message-formatter.js:54 | the address the helper hands on is shown exactly when it kept one |
| Responder.AddRow | responder.js:66-79 | a row goes to the open row section (or starts an array) and is appended after the rows already there |
| Responder.NewSectionFacts | responder.js:52-62 | a new section takes rows exactly when no value is given, and holds no rows yet |
| Responder.OpenAddSection | responder.js:42-60 | the chunks addSection writes (`]` if rows were open, `{` or `,`, the header, then the value or `[`) extend the text by the new section |
| Responder.OpenAddRow | responder.js:66-81 | the chunks write sends (`[` for a new array, a comma before every row but the first, then the row) extend the text by the new row |
| Responder.AddSectionKeeps | responder.js:37-64 | addSection keeps the flags and the sink in step with the document |
| Responder.AddRowKeeps | responder.js:65-81 | write keeps the flags and the sink in step with the document |
| Responder.EndKeeps | responder.js:102-119 | after end the sink holds the JSON text of the document |
| Responder.ClosedIsJson | responder.js:104-116 | closing the streamed text gives the JSON text: `[]` when nothing was written, the rows in brackets, or the members in braces |
| Responder.ClosingChunks | responder.js:104-116 | end writes `]` if rows are open, then `}` for an object or `[]` for an empty response, and nothing more for an array |
| Responder.Responder.constructor | responder.js:28-36 | all flags start false and nothing is written |
| Responder.Responder.AddSection | responder.js:37-64 | once ended nothing changes; an array response throws; otherwise exactly the section chunks are written and the flags are updated |
| Responder.Responder.Write | responder.js:65-101 | once ended the promise is rejected and nothing changes; after a value section it throws; otherwise the row is written, and a false reply yields the outstanding drain promise, created only if none is outstanding |
| Responder.Responder.AppendRow | responder.js:66-81 | the sink part of write: `[` and isArray for a first write, the comma rule, and the row |
| Responder.Responder.NextDrain | responder.js:86-98 | a new drain promise only when none is awaited; nothing else changes |
| Responder.Responder.Drained | responder.js:91-95 | the drain event clears `awaitingDrain` |
| Responder.Responder.End | responder.js:102-119 | end is idempotent and leaves the sink ended, holding the JSON text of what was streamed; the drain state is untouched |
| Cyrb53Hash.CharUnits | logger.js:40 | below U+10000 one code unit, the character's value; above it a surrogate pair D800-DBFF, DC00-DFFF that encodes the value |
| Cyrb53Hash.Utf16One | logger.js:39-40 | the code units of one character are its encoding |
| Cyrb53Hash.Utf16Basic | logger.js:39-40 | text in the basic plane has one code unit per character, equal to its value |
| Cyrb53Hash.Utf16Append | logger.js:39-40 | the code units of a concatenation are those of its parts, in order |
| Cyrb53Hash.Init | logger.js:38 | h1 is 0xdeadbeef xor seed and h2 is 0x41c6ce57 xor seed, so the start depends only on the seed |
| Cyrb53Hash.AbsorbAppend | logger.js:39-43 | folding a concatenation folds the first part, then the second |
| Cyrb53Hash.AbsorbOneMore | logger.js:39-43 | each code unit is folded into both accumulators exactly once, in order |
| Cyrb53Hash.Finish | logger.js:44-45 | the final h2 is mixed with the h1 already updated |
| Cyrb53Hash.Combine | logger.js:46 | the result is below 2^53 and equals 2^32 times the low 21 bits of h2, plus h1 read as unsigned |
| Cyrb53Hash.CombineParts | logger.js:46 | the low 32 bits of the result are h1, and the bits above them are the low 21 bits of h2 |
| Cyrb53Hash.Cyrb53 | logger.js:37-47 | the loop computes the fold of the code units followed by the final mixing |
| Cyrb53Hash.EmptyHash | logger.js:38 | the hash of the empty string depends on the seed alone; unseeded it is 3338908027751811 |
| Cyrb53Hash.HashOfA | logger.js:37-47 | cyrb53("a") is 7929297801672961 |
| Logger.HashInput | logger.js:59 | a string is hashed over its code units; undefined, null and a non-empty array throw |
| Logger.LogLine | logger.js:49-68 | nothing is printed exactly when LOG_NONE is defined; a printed line is trimmed; for a non-address the call throws exactly when the first argument names no colour |
| Logger.ClientOf | logger.js:59 | the client is the decimal cyrb53 hash when LOG_IP_HIDDEN is defined, else the address |
| Logger.Compose | logger.js:51-64 | the successive appends build the specified untrimmed line, or throw |
| Logger.Log | logger.js:49-68 | logger prints the trimmed line of LogLine, prints nothing, or throws |
| Logger.DatePrefix | logger.js:52 | the ISO date and `: ` lead the line exactly when LOG_NO_DATE is undefined, and the rest does not depend on it |
| Logger.NonAddressLine | logger.js:55-57 | for a non-address first argument, it is the colour, and the level is glued to the joined messages without a separator |
| Logger.HiddenClient | logger.js:59-60 | a hidden client is shown as the canonical numeral of its hash; two addresses show alike exactly when their hashes are equal |
| Logger.UnknownColourThrows | logger.js:64 | a colour name outside the nine COLOURS keys throws, whichever argument names it |
| Text.NatToString | logger.js:60 | the decimal form of a number has no leading zeros and reads back as that number |
| Text.NatToStringInjective | logger.js:60 | distinct numbers have distinct decimal forms |
| Text.IntToString | message-formatter.js:71 | an integer is written in decimal, with a minus sign when negative |
| Text.Trim | logger.js:66 | trim leaves no white space at either end and never lengthens |
| Text.TrimStartRemovesSpace | logger.js:66 | trimStart removes a prefix of white space and nothing else |
| Text.TrimEndRemovesSpace | logger.js:66 | trimEnd removes a suffix of white space and nothing else |
| Text.TrimIsInfix | logger.js:66 | trim gives an infix of the text with only white space before and after it |
| Text.TrimFixesTrimmed | logger.js:66 | trim changes a text exactly when it has white space at an end |
| Text.PadStart | message-formatter.js:49-52 | padStart leaves a long enough text alone, and otherwise adds fill characters in front up to the length |
| Text.ZeroPadKeepsValue | message-formatter.js:52 | zero padding keeps the value of a numeral |

## Left out

- The conversion from a Date to local time is not modelled. `new Date(matches[0])`, the timezone shift and the `getFullYear`…`getMilliseconds` calls of message-formatter.js:47-52 are replaced by a `DateView` input: the display date, the `hh:mm:ss` clock and the milliseconds. `Date.now()` and `setHours(0,0,0,0)` are parameters: the clock readings and local midnight.
- chalk is not modelled. Styles are tags on pieces of text, and no escape codes are produced. In logger.js, where the whole line is trimmed, colouring is a function parameter `paint`.
- `JSON.stringify` is not modelled: the caller passes the JSON text of a value or a row.
- The `Responder` sink is a list of chunks and an ended flag. `response.write`'s boolean reply is an input to `Write`. The `'drain'` event is the method `Drained`. Promises are `WriteOutcome` values: resolved, rejected, or the n-th drain promise. The `debug('…')` tracing calls are left out.
- node's `isIP` is a parameter of `Logger.Log`.
- The writer called at debug-helper.js:58 is foreign code, so the model returns the record of its arguments in place of its result.
- Plain (non-array) objects are not among the modelled JavaScript values.
- Numbers are integers, or a number given with its text. The exponent forms `Number.prototype.toString` uses for very large numbers are not modelled.
- Only integer gaps are shown (message-formatter.js:71). Rounding is exact for them, so floating-point division is not modelled.
- Lone surrogates cannot occur in a Dafny string, so `Cyrb53Hash.Utf16` covers well-formed text only.
- The seed of cyrb53 is its 32-bit value after `^` has converted it.
- DebugHelper.Helper.constructor: the colour is validated by the corrected rule, on own palette names. As written, line 21 also keeps names inherited from Object.prototype, such as `toString` (see the second finding).
- Cyrb53Hash.Finish: its contract restates the final mixing, because no property of the avalanche step beyond its definition is promised.
- Logger.LogLine: a colour name inherited from Object.prototype (such as `toString`) is treated as unknown. The source instead calls the inherited method: `COLOURS.toString(message)` prints `[object Object]`.
- MessageFormatter.MessageStylePrecedence: the palette rule uses the own palette names. The source's `in` test also finds inherited names (see the second finding) and would call, for example, `Object.prototype.toString`.
- debug.js is not part of this model. It is glue over a database driver, timers and the console.
- version.js is not part of this model. It only runs processes and reads files.
- server-utils.js is not part of this model. It only re-exports.
- The asynchronous logging of debug.js, which calls `DebugHelper`, is not part of this model.

## Findings

| source | as written | input that shows it | evidently intended | confidence | as-written member | corrected member |
|---|---|---|---|---|---|---|
| debug-utils.js:106 | `logtime > from.getTime()`, where `from` is already the number `setHours` returned | any integer in the timestamp slot, such as `(Date.now(), 'disk')`: `from.getTime` is not a function, so the call throws | compare with `from` itself, as debug-helper.js:38 does | high; not executed | DebugUtils.TodayStampThrowsInCopy | DebugHelper.ParseArgs |
| debug-helper.js:21 | `colourspec in COLOURS.COLOURS` | `'toString'`: `in` finds the name on Object.prototype, so it is kept as a colour spec although no palette entry has it | accept own palette names only | medium; not executed | DebugHelper.InheritedNameKeptAsColour | DebugHelper.ValidatedColourExactly |
