# egg-log: a verified model of the leveled line logger

This project models `index.js` of egg-log, a small syslog-style logger. The file does three things.

- **Severity scale.** Eight exported constants, EMERGENCY = 0 through DEBUG = 7, follow section 6.2.1 of RFC 5424.
- **Emitter.** A `Log` object holds a threshold resolved from a level name. `log(levelStr, msg)`
  writes `[<date>] <LEVEL> <msg>\n` to its stream when the level's rank is at most the threshold.
  Eight convenience methods forward a fixed level name to `log`.
- **Reader.** `read` installs a `data` handler that keeps a text buffer. The handler appends each
  chunk. When the whole buffer ends in a newline, it splits the buffer on `\n`, skips empty pieces,
  and matches each piece against `/^\[([^\]]+)\] (\w+) (.*)/`. It reports a record
  `{date, level, levelString, msg}` for each match and then clears the buffer. An `end` handler
  reports the end of the input.

Modules, one per concern:

- `Wrappers` (wrappers.dfy): `Option`, which stands for JavaScript's `undefined`.
- `Text` (text.dfy): the regex character classes, `split('\n')` with its join and uniqueness
  lemmas, ASCII `toUpperCase`, first-index search and greedy prefix runs.
- `Severity` (severity.dfy): the `Level` datatype with `Rank`, `Name`, `LevelOfRank` and
  `FromName`. `Lookup` returns `Known(rank)` or `Unknown` in place of a property read on `exports`.
- `LineFormat` (line_format.dfy): the line shape the emitter writes, and a hand-written matcher
  for the regex. The matcher is proved sound and complete against the grammar, and formatting
  then parsing gives back the same fields.
- `Reader` (reader.dfy): the `data` handler as a pure state machine. `Step` handles one chunk and
  `Run` a sequence of chunks. Lemmas cover accounting (no line lost, duplicated or reordered),
  chunking independence and read-back of a written log.
- `Logging` (logging.dfy): the `Log` class. Its fields are `threshold`, `sink` (the lines
  written), `buf` and `events`. Its invariant is that the threshold is a rank and that between
  chunks the buffer never ends in a newline. `Feed` follows `Reader.Step` exactly, so the
  accounting and read-back lemmas of `Reader` apply to the class as well.

Chunk boundaries cannot lose data. The clear at index.js:124 runs only when the whole buffer ends
in a newline, so it never drops an unterminated partial line. If one chunk holds a complete line
plus the start of the next, the gate at index.js:107 holds both lines back until a later newline
arrives, and then both are reported (`Reader.RunDrains`, `Reader.ReadBackAnyChunking`).
The `end` handler (index.js:127-129) does not flush the buffer, though. A final line with no
trailing newline stays in the buffer and is never reported, in the source and in the model alike
(`Reader.PartialChunkBuffered`, `Reader.RunAccounts`). A whole input reports exactly one `end`
event, after all its line records (`Reader.OneEndEvent`).

`.` in the regex stops at any ECMAScript line terminator (`\n`, `\r`, U+2028, U+2029), and the
pattern has no `$` anchor. So a matching line's message is the text up to the first such character,
and the rest of the line is ignored. The date capture `[^\]]+` may contain any character except `]`.

## Model

| member | source | states |
|---|---|---|
| Severity.Rank | index.js:29-85 | every level's exported rank lies in 0..7 |
| Severity.LevelOfRank | index.js:29-85 | a rank names a level exactly when it is in 0..7, and that level has this rank |
| Severity.Name | index.js:29-85 | the exported property name of each level; by `Severity.NamesAreCapitals` each is a non-empty run of capitals, fixed by upper-casing and a `\w+` token |
| Severity.NamesAreCapitals | index.js:29-85 | every exported name is a non-empty run of capital letters A-Z |
| Severity.FromName | index.js:29-85 | only the eight exact upper-case names are levels; a result's name is the given string, and None means no level has that name |
| Severity.Lookup | index.js:114 | `exports[name]` is Known exactly when the name is a level's name; the rank is then at most 7 and names that level |
| Severity.NameRoundTrip | index.js:29-85 | name → level → name is the identity, and looking up a level's name gives its rank |
| Severity.RanksContiguous | index.js:29-85 | the ranks are exactly 0..7, with no gaps |
| Severity.RankInjective | index.js:29-85 | two levels share a rank only if they are the same level |
| Severity.RankRoundTrip | index.js:29-85 | rank → level → rank is the identity |
| Text.EndsInNewline | index.js:107 | the gate `buf[buf.length - 1] !== '\n'`; `Reader.Step` and `Reader.PartialChunkBuffered` state what each side of it does |
| Text.ToUpper | index.js:16 | upper-casing keeps the length, leaves no lower-case ASCII letter and changes only lower-case letters (by 32) |
| Text.ToUpperIdempotent | index.js:16 | upper-casing twice is upper-casing once |
| Text.IndexOf | index.js:111 | the first occurrence of a character, or None exactly when it does not occur |
| Text.PrefixWhile | index.js:111 | the greedy run of a character class: all of its characters are in the class, and the next one is not |
| Text.Split | index.js:108 | `split('\n')` always gives at least one piece |
| Text.SplitPiecesNewlineFree | index.js:108 | no piece of the split contains a newline |
| Text.SplitJoin | index.js:108 | joining the pieces with newlines gives back the text |
| Text.SplitUnique | index.js:108 | the split is the only cut into newline-free pieces that join back to the text |
| Text.SplitNoNewline | index.js:108 | text without a newline is a single piece |
| Text.SplitCons | index.js:108 | a newline-free prefix followed by a newline splits off as the first piece |
| Text.SplitAppend | index.js:108 | splitting text that ends in a newline, followed by more text, gives the first part's pieces (minus the trailing empty one) and then the second part's |
| LineFormat.LineBody | index.js:144-146 | the written line without its newline starts with `[`; by `LineFormat.LineBodyOneLine` it is a single line exactly when its fields are |
| LineFormat.LineBodyOneLine | index.js:144-146 | the line body holds a newline exactly when the date, the level name or the message does |
| LineFormat.FormatLine | index.js:143-147 | the written line is `[date] LEVEL msg` followed by a final newline |
| LineFormat.DateField | index.js:111 | a date capture is non-empty and free of `]`, and the line is `[` + date + `] ` + rest |
| LineFormat.LevelField | index.js:111 | a level capture is a non-empty `\w` run, and the text is word + space + rest |
| LineFormat.MessageField | index.js:111 | the message capture holds no line terminator; what follows it is empty or starts with one |
| LineFormat.ParseLine | index.js:111-117 | a record has a valid date, a `\w+` level string, a terminator-free message and level = lookup(levelString); an unknown level still gives a record |
| LineFormat.ParseLineSound | index.js:110-121 | a record comes only from a line that starts with `[date] level msg` and continues, if at all, with a line terminator |
| LineFormat.ParseLineComplete | index.js:111-117 | every line of that form matches, with exactly those captures |
| LineFormat.DateFieldOf | index.js:111 | a bracketed date token is captured exactly |
| LineFormat.LevelFieldOf | index.js:111 | a word followed by a space is captured exactly |
| LineFormat.MessageFieldOf | index.js:111 | a terminator-free message followed by nothing or a terminator is captured exactly |
| LineFormat.NameIsLevelToken | index.js:111 | every level name is a `\w+` token |
| LineFormat.FormatParseRoundTrip | index.js:143-147 | the line `log` writes for a known level parses back to the same date, level name, rank and message |
| LineFormat.NoBracketNoRecord | index.js:110-121 | a line not starting with `[` yields no record and no error |
| Reader.PieceEvents | index.js:109-121 | the forEach body for one piece; by `Reader.PieceEventsMeaning` it yields at most one event, the piece's record, exactly when the piece is non-empty and matches |
| Reader.PieceEventsMeaning | index.js:109-121 | a piece yields at most one event: its record, exactly when the piece is non-empty and matches the regex |
| Reader.LineEvents | index.js:108-123 | the forEach over the pieces, in order; its lemmas show it concatenates over pieces, reports only line records and at most one per piece |
| Reader.LineEventsAtMostOnePerPiece | index.js:108-123 | a run of pieces yields at most one event per piece |
| Reader.Flush | index.js:108-123 | split the buffer and run the forEach; `Reader.FlushAppend`, `Reader.FlushOneLine` and `Reader.ReadBackLog` state what it reports |
| Reader.Step | index.js:105-125 | after a chunk the buffer never ends in a newline; it is either emptied or holds all the text with nothing emitted; emitted events plus a later flush of the buffer equal a flush of all the text |
| Reader.PartialChunkBuffered | index.js:106-107 | when the buffer does not end in a newline, nothing is emitted and the buffer is the old one plus the chunk |
| Reader.LineEventsSingle | index.js:108-123 | one piece yields its own events |
| Reader.FlushEmpty | index.js:108-123 | flushing empty text yields no events |
| Reader.FlushOneLine | index.js:108-123 | one newline-terminated line yields only that line's events |
| Reader.LineEventsAppend | index.js:108-123 | the forEach processes pieces in order, so events of consecutive pieces concatenate |
| Reader.LinesAppend | index.js:108-129 | the line events of two event runs concatenate |
| Reader.LineEventsAreLines | index.js:108-123 | a flush reports only line events |
| Reader.LineEventsDropEmpty | index.js:108-123 | a trailing empty piece adds no events |
| Reader.FlushAppend | index.js:106-124 | flushing newline-terminated text followed by more text is flushing each in turn |
| Reader.Run | index.js:105 | successive `data` notifications, each a `Reader.Step` from the buffer the last one left |
| Reader.RunReportsLines | index.js:105-125 | the `data` notifications report only line records |
| Reader.LinesAreLineRecords | index.js:108-129 | filtering for line records leaves only line records |
| Reader.Session | index.js:105-129 | a whole input: the events of its `data` notifications, then the `end` event |
| Reader.OneEndEvent | index.js:105-129 | however many lines came before, a whole input reports exactly one `end` event, and it comes last |
| Reader.RunAccounts | index.js:105-125 | over any chunks, emitted events followed by a flush of the final buffer equal a flush of all the text: nothing lost, duplicated or reordered |
| Reader.RunDrains | index.js:106-124 | when all text received ends in a newline, the buffer ends up empty, so no partial line is discarded |
| Reader.ChunkingIndependence | index.js:106-124 | any chunking of newline-terminated text emits the same events as one chunk holding it all |
| Reader.ReadBackLine | index.js:105-125 | one emitted line fed to an empty reader yields exactly one record with its date, level name, rank and message |
| Reader.MalformedLineDropped | index.js:109-121 | a chunk such as `not a log line\n` yields no events |
| Reader.ReadBackLog | index.js:105-125 | a log written line by line reads back as one record per line, in order |
| Reader.ReadBackAnyChunking | index.js:105-125 | a written log cut into any chunks, even mid-line, reads back completely and leaves the buffer empty |
| Reader.WrittenEndsInNewline | index.js:143-147 | a non-empty written log ends in a newline |
| Logging.ResolveThreshold | index.js:6-17 | the resolution with the documented DEBUG default (index.js:6-7): the threshold is always a rank in 0..7; see "## Findings" for the code's own fallback |
| Logging.NameIsUpper | index.js:16 | level names are unchanged by upper-casing |
| Logging.ResolveByName | index.js:15-17 | any spelling that upper-cases to a level's name selects that level's rank |
| Logging.ResolveUnknown | index.js:6-17 | under the documented default, a name that upper-cases to no level's name falls back to DEBUG (7) |
| Logging.ResolveAsWritten | index.js:15-17 | as the code is written: a level exactly when the upper-cased name is a level's, and then the same rank as the documented resolution; otherwise `undefined`, because `this.DEBUG` is read on the instance |
| Logging.AdmitsAsWritten | index.js:141 | `exports[levelStr] <= undefined` is false: nothing passes an undefined level |
| Logging.UnknownLevelSilentAsWritten | index.js:15-17 | as written, a logger built with an unknown level name leaves its level undefined and writes no message of any level |
| Logging.VerboseDiffers | index.js:17 | on `new Log('verbose')` the code as written drops even an EMERGENCY message, while the documented default writes a DEBUG one |
| Logging.ResolveCaseInsensitive | index.js:15-17 | a name and its upper-cased form resolve alike |
| Logging.Admits | index.js:141 | `exports[levelStr] <= this.level` holds exactly when the name is some level's and that level's rank is at most the threshold |
| Logging.AdmitsLevel | index.js:141 | a known level passes the threshold exactly when its rank is at most the threshold |
| Logging.UnknownNeverAdmitted | index.js:141 | an unknown level name never passes, whatever the threshold |
| Logging.ThresholdFilter | index.js:141 | a logger built with level C writes level L exactly when rank(L) ≤ rank(C) |
| Logging.Log.constructor | index.js:14-21 | the threshold is the resolved level; the sink, buffer and events start empty; the invariant holds |
| Logging.Log.Log | index.js:140-150 | appends exactly `[date] LEVEL msg\n` when the level passes the threshold; otherwise, or for an unknown name, the sink is unchanged |
| Logging.Log.Emergency | index.js:159-161 | always writes one EMERGENCY line |
| Logging.Log.Alert | index.js:170-172 | writes one ALERT line exactly when the threshold is at least 1 |
| Logging.Log.Critical | index.js:181-183 | writes one CRITICAL line exactly when the threshold is at least 2 |
| Logging.Log.Error | index.js:192-194 | writes one ERROR line exactly when the threshold is at least 3 |
| Logging.Log.Warning | index.js:203-205 | writes one WARNING line exactly when the threshold is at least 4 |
| Logging.Log.Notice | index.js:214-216 | writes one NOTICE line exactly when the threshold is at least 5 |
| Logging.Log.Info | index.js:225-227 | writes one INFO line exactly when the threshold is at least 6 |
| Logging.Log.Debug | index.js:236-238 | writes one DEBUG line exactly when the threshold is DEBUG (7) |
| Logging.Log.Feed | index.js:105-125 | keeps the invariant (the threshold is a rank and the buffer never ends in a newline); the new buffer and the appended events are exactly those of `Reader.Step`, so `Reader.RunAccounts` shows no line is lost |
| Logging.Log.EmitLines | index.js:108-123 | the loop over the split pieces appends exactly the flush's events, in order |
| Logging.Log.End | index.js:127-129 | appends exactly one end event and changes nothing else |

## Left out

- Message formatting: `util.format` (index.js:2, 142) is a foreign library. Every emitting method takes the already-formatted message string.
- Dates: `new Date()` (index.js:144) and `new Date(captures[1])` (index.js:113) are not modelled. The emitter takes the rendered date as a string parameter, and a record keeps the raw date token, so an unparsable date does not appear as `Invalid Date`.
- Streams: the default to `process.stdout`, `setEncoding`, `stream.on` and `stream.write` are not modelled (index.js:18, 104, 105, 127, 143). The sink is a `seq<string>` of written lines, and the input arrives through explicit `Feed` and `End` calls. The `readable` check (index.js:20) is not modelled: every `Log` offers `Feed` and `End`. A failing sink write is not modelled.
- Event emission: the `EventEmitter` inheritance is commented out (index.js:3, 245), so `self.emit` as written would throw. The `catch` at index.js:119-121 would swallow that throw for `line` events, but not for `end`. The model records the intended events in the `events` sequence instead.
- `this` binding: `read`, `log` and the convenience methods are arrow functions (index.js:99, 140, 159-238), so as written their `this` is the module's, not the instance's. The model gives them the intended per-instance meaning.
- Message spreading: the convenience methods pass `...msg`, which spreads a string into characters. The model passes the message whole.
- Logging.ResolveThreshold: follows the documented DEBUG default for an unknown level name, not the code at index.js:17, which leaves the level `undefined`; `Logging.ResolveAsWritten` models the code, and "## Findings" records the difference.
- Logging.ResolveUnknown: states the documented DEBUG fallback; as written, an unknown name turns off all output (`Logging.UnknownLevelSilentAsWritten`).
- Logging.Log.constructor: resolves the threshold with `Logging.ResolveThreshold`, so a logger built with an unknown level name writes every level, where the code as written writes none. It also takes only a string level. A numeric level skips the guard at index.js:15, which leaves `this.level` and `this.stream` unset, and the source then throws at index.js:20.
- Text.ToUpper: upper-cases ASCII letters only. JavaScript's `toUpperCase` also maps other letters, for instance `ı` to `I`, so such a spelling of a level name is treated as unknown here.
- Severity.Lookup: maps every string other than the eight names to Unknown. In the source the lookup is a property read on the exported function object, which differs for other property names:
  - `length` reads that function's arity 2, so a parsed line `[d] length m` gets level 2 and `log('length', …)` compares 2 against the threshold.
  - `name`, `prototype` and inherited properties such as `toString` read non-numbers.
  - `caller` and `arguments` throw a TypeError, because `Log` is a strict-mode function (index.js:1). In the `data` handler the catch at index.js:119-121 swallows it, so a line `[d] caller m` gives no record, where the model reports `Record(d, Unknown, "caller", m)`. In `log` (index.js:141) the throw reaches the caller, where the model writes nothing.
- Logging.Log.End: the model does not stop `End` from being called twice, or `Feed` from being called after `End`. The stream delivers `end` once and nothing after it.

## Findings

| source | as written | input that shows it | evidently intended | confidence | as-written member | corrected member |
|---|---|---|---|---|---|---|
| index.js:17 | the fallback reads `this.DEBUG` on the new instance, whose prototype (index.js:91-239) has `debug` but no `DEBUG`, so an unknown name leaves `this.level` undefined and `exports[L] <= undefined` is false for every level | `new Log('verbose', s)` followed by `emergency('x')` writes nothing | the documented default to DEBUG (index.js:6-7), i.e. `exports.DEBUG` | high; not executed | Logging.ResolveAsWritten | Logging.ResolveThreshold |
