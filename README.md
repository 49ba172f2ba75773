# hao core, modelled in Dafny

`hao` is a Python utility library. This project models four parts of it and
proves properties about each model.

- **Metrics** (`hao/meters.py`):
  - `SimpleCounter` counts events. It remembers the count at the last report, so each report can take the delta since then.
  - `SimpleMetrics` keeps one counter per key, plus a table of gauges. Every interval it runs a report cycle. The cycle takes each counter's delta, formats its rate, and pushes the rate to a Prometheus push gateway. On exit it deletes the pushed jobs.
- **RMQ wire protocol** (`hao/rmq.py`):
  - The 11-byte frame header: the magic `<RMQ>`, an event byte, an ok byte and a big-endian u32 payload size.
  - The request payloads of `pull`, `publish`, `ack` and `stats`.
  - The decoding of the `pull` reply and of the `stats` reply map.
  - How `publish` turns its data into bytes.
- **Size and version text** (`hao/systems.py`):
  - `bytes2mega`, and the symbol and divisor that `bytes2human` picks.
  - The bits-to-bytes step of `Bits`.
  - The CUDA driver version text.
- **Declarative namespaces** (`hao/namespaces.py`):
  - How each declared attribute gets its value. The code first takes the parsed command line. There the attribute's default already stands in when the flag is not given. Then come the constructor keyword, the environment, and the configuration or default.
  - The `MISSING` messages for required attributes.
  - The argument help text and the list-type `nargs` rule.
  - `as_dict` and `prettify`.

Layout:

| file | module | contents |
|---|---|---|
| `common.dfy` | `Common` | `Option`, Python truthiness of optional strings, `str(int)` and its parser, `startswith`, `str.join` |
| `wire.dfy` | `Wire` | bytes, big-endian integers (`int.to_bytes`, struct `I`/`Q`/`q`), UTF-8 encoding and strict decoding, struct `s` fields |
| `meters.dfy` | `Meters` | the `Counter` class, the `Metrics` class, rate formatting, gateway URLs and bodies, the report cycle |
| `rmq.dfy` | `Rmq` | the header codec, the request payloads with decoders for them, the pull reply, publish dispatch, the stats decoder |
| `systems.dfy` | `Systems` | `Bytes2Mega`, `Bytes2Human` with its prefix table, `Bits`, the CUDA version |
| `namespaces.dfy` | `Namespaces` | argument names, attribute declarations, the resolution loop, the `Namespace` class, `as_dict`, `prettify` |

How the source's shapes are modelled:

- Where the source updates objects in place, the model uses classes:
  - `Meters.Counter`, `Meters.Metrics` and `Namespaces.Namespace` are classes whose methods change their fields.
  - The dicts that the classes update keep insertion order, so each is a key sequence plus a map. The `stats` reply dict is the exception: it is a plain map (see "Left out").
  - The loops of `_report_meters`, `stats`' `decode_payload`, `bytes2human` and the namespace constructor are methods. Each is proved against a specification function.
- Everything else is functions over values, with lemmas relating them.
- The `pull`, `publish`, `ack` and `stats` exchanges take the reply bytes as parameters. No socket is modelled.

A zero count raises. `_fmt_rate(0, 10)` gives rate 0.0 in `hao/meters.py:107-110`. That rate is below 0.1, so the code computes `1 / 0.0` and raises `ZeroDivisionError`. `Meters.FmtRate` returns `ZeroDivisionError` exactly when the count is 0 and the interval is positive. The report cycle stops at that meter and skips the gauges, because `_report` catches the exception around both (`hao/meters.py:84-89`). Counters are Python integers, and so are the model's.

## Model

| member | source | states |
|---|---|---|
| Common.IntToDecimal | hao/systems.py:104 | `str(i)`: at least one character, all digits for a non-negative `i`, a `-` and then digits for a negative one |
| Common.IntToDecimalRoundTrip | hao/systems.py:104 | the decimal text of any integer reads back as that integer |
| Common.Join | hao/namespaces.py:92-96 | `sep.join(parts)`: empty for no parts, the part itself for one part |
| Common.JoinAt | hao/namespaces.py:177 | in `sep.join(parts)`, part `i` stands at its offset: the lengths of the parts before it, each with one separator |
| Common.JoinSepAt | hao/namespaces.py:177 | every part but the last is followed by exactly the separator, up to the next part's offset |
| Common.JoinLength | hao/namespaces.py:177 | the joined text ends with the last part: its length plus one separator is the offset after the last part |
| Common.JoinedAfter | hao/namespaces.py:177-181 | after a lead ending in the separator, the text starts with the lead, each part follows a separator at its offset, and nothing follows the last part |
| Wire.ToBytes | hao/rmq.py:51-52 | `int.to_bytes(size, 'big')` succeeds exactly when `0 <= i < 256^size`, and then gives `size` bytes whose big-endian reading is `i` |
| Wire.FromBigEndianOfBigEndian | hao/rmq.py:100-106 | a value that fits the width, written big-endian, reads back as itself |
| Wire.BigEndianOfFromBigEndian | hao/rmq.py:114 | every byte string is the big-endian encoding of its own reading |
| Wire.SignedFromBigEndian64 | hao/rmq.py:313 | struct `q` gives a value in the signed 64-bit range, negative exactly when the top bit is set |
| Wire.SignedRoundTrip64 | hao/rmq.py:313 | every signed 64-bit value survives writing and reading back |
| Wire.EncodeChar | hao/rmq.py:221 | one character takes 1 to 4 UTF-8 bytes, and exactly one byte (its code) when it is ASCII |
| Wire.Utf8Length | hao/rmq.py:221 | a string's UTF-8 form is at least as long as the string, and equally long exactly when the string is ASCII |
| Wire.Utf8Ascii | hao/rmq.py:221 | the UTF-8 form of an ASCII string is its character codes, one byte each |
| Wire.EncodeCharDecodes | hao/rmq.py:323 | the bytes of one encoded character decode to that character |
| Wire.DecodedSequenceEncodes | hao/rmq.py:323 | a well-formed byte sequence is the encoding of the character it decodes to |
| Wire.DecodeUtf8OfUtf8 | hao/rmq.py:221-323 | `s.encode('utf-8').decode('utf-8') == s` for every string of Unicode scalar values |
| Wire.Utf8OfDecodeUtf8 | hao/rmq.py:323 | bytes that decode are exactly the encoding of what they decode to |
| Wire.FixedField | hao/rmq.py:221 | struct `{n}s` writes exactly `n` bytes: the first `n` bytes of the value, or the value padded with zero bytes |
| Rmq.PriorityOf | hao/rmq.py:55-62 | a byte names a priority exactly when it is 0, 1 or 2, and the priority's byte is that byte |
| Rmq.EventOf | hao/rmq.py:65-73 | a byte names an event exactly when it is 1 to 4, and the event's byte is that byte |
| Rmq.OkOf | hao/rmq.py:76-82 | a byte names an OK flag exactly when it is 0 or 1, and the flag's byte is that byte |
| Rmq.EnumBytesRoundTrip | hao/rmq.py:55-82 | every priority, event and OK flag reads back from its byte |
| Rmq.NewMsg | hao/rmq.py:86-90 | a given payload sets the payload size to its length, overriding the size argument |
| Rmq.Encode | hao/rmq.py:98-106 | fails without a payload or with a size outside u32; otherwise gives the 11 header bytes (magic, event, ok, big-endian size) followed by the payload |
| Rmq.FromBytes | hao/rmq.py:108-123 | "Server lost" exactly for empty input; succeeds exactly for 11 bytes with the magic, an event byte 1 to 4 and an ok byte 0 or 1, reading event, ok and size; every other input is an RMQ error |
| Rmq.HeaderRoundTrip | hao/rmq.py:98-123 | reading the first 11 bytes of an encoded message gives back its event, ok and payload size |
| Rmq.HeaderCanonical | hao/rmq.py:98-123 | every header that reads successfully is re-encoded byte for byte |
| Rmq.Frame | hao/rmq.py:86-106 | a request frame exists exactly when the payload is shorter than 2^32 bytes, and is the header with ok TRUE and the payload's length, followed by the payload |
| Rmq.NamePrefix | hao/rmq.py:221 | the queue name is written as its length (in characters) as u32 and then a field of that many bytes, failing when the length does not fit u32 |
| Rmq.Pack | hao/rmq.py:221 | struct `I`/`Q` succeeds exactly for values in range and writes bytes that read back as the value |
| Rmq.GetPayload | hao/rmq.py:220-221 | the GET payload exists exactly when name length and ttl fit u32, and is 4 + name + 4 bytes |
| Rmq.PutPayload | hao/rmq.py:252-254 | the PUT payload exists exactly when name length and data length fit u32, and is 4 + name + 1 + 4 + data bytes |
| Rmq.AckPayload | hao/rmq.py:287-288 | the ACK payload exists exactly when the name length fits u32 and the id fits u64, and is 4 + name + 1 + 8 bytes |
| Rmq.StatPayload | hao/rmq.py:310-311 | the STAT payload exists exactly when the name length fits u32, and is 4 + name bytes |
| Rmq.ReadName | hao/rmq.py:221 | reading a length-prefixed name splits the payload into the name and the rest with nothing lost |
| Rmq.ReadNamePrefix | hao/rmq.py:221 | a written name prefix reads back as the name field, leaving the rest untouched |
| Rmq.GetPayloadRoundTrip | hao/rmq.py:220-221 | a GET payload parses back to the queue's name field and the ttl |
| Rmq.PutPayloadRoundTrip | hao/rmq.py:252-254 | a PUT payload parses back to the name field, the priority and the data |
| Rmq.AckPayloadRoundTrip | hao/rmq.py:287-288 | an ACK payload parses back to the name field, the priority and the id |
| Rmq.StatPayloadRoundTrip | hao/rmq.py:310-311 | a STAT payload parses back to the name field |
| Rmq.NameFieldAscii | hao/rmq.py:221 | for an ASCII queue name the name field is the name's UTF-8 bytes and decodes back to the name |
| Rmq.Slice | hao/rmq.py:322-324 | Python slicing: the exact slice when the bounds are in range, never longer than the input |
| Rmq.DecodeGetPayload | hao/rmq.py:222-227 | no message under 13 bytes; otherwise fails exactly on a priority byte above 2, and reads mid (u64), priority and up to `size` data bytes after byte 13 |
| Rmq.GetPayloadDecodes | hao/rmq.py:222-227 | an encoded message, followed by any trailing bytes, decodes to itself |
| Rmq.PullRequest | hao/rmq.py:229-231 | the pull frame exists exactly when the GET payload and its frame fit u32 |
| Rmq.PullReply | hao/rmq.py:233-241 | a bad reply header gives its error, and a reply with payload size 0 gives no message |
| Rmq.PullExchange | hao/rmq.py:222-241 | a reply carrying an encoded message yields that message |
| Rmq.PublishBody | hao/rmq.py:258-267 | `None` publishes nothing, an unsupported type is a `ValueError`, bytes are sent as they are, and text and JSON made of Unicode scalar values are sent as UTF-8 that decodes back to them |
| Rmq.PublishRequest | hao/rmq.py:258-271 | no data sends nothing and an unsupported type fails before anything is built |
| Rmq.FrameParses | hao/rmq.py:98-106 | a frame parses back to its event and its parsed payload |
| Rmq.PublishRequestRoundTrip | hao/rmq.py:252-271 | a publish frame parses to a PUT of the queue's name field, the priority and the data's bytes |
| Rmq.AckRequestFrame | hao/rmq.py:292-294 | the ack frame exists exactly when the ACK payload and its frame fit u32 and the id fits u64 |
| Rmq.CheckReply | hao/rmq.py:273-279 | a bad header gives its error; otherwise the reply is accepted exactly when it carries no text, and a non-empty text is raised as the server's error |
| Rmq.DecodeStatsValue | hao/rmq.py:312-314 | struct `>qqqdd` succeeds exactly on 40 bytes and fails with `struct.error` otherwise |
| Rmq.StatsValueRoundTrip | hao/rmq.py:312-314 | encoded stats decode back to themselves |
| Rmq.StatsSpec | hao/rmq.py:315-318 | a stats payload under 4 bytes decodes to the empty map |
| Rmq.DecodeStats | hao/rmq.py:315-327 | the decoding loop computes the same result as the entry-by-entry specification, errors included |
| Rmq.StatsFromTurn | hao/rmq.py:322 | each entry starts with its key length and value length read as two u32 |
| Rmq.StatsKeyTurn | hao/rmq.py:323 | a key that decodes as UTF-8 moves on to reading the value |
| Rmq.StatsKeyFails | hao/rmq.py:323 | a key that does not decode stops the decoding with a decode error |
| Rmq.StatsValueTurn | hao/rmq.py:324-326 | a decoded value is stored under its key and the offset moves past key and value |
| Rmq.StatsValueFails | hao/rmq.py:324-325 | a value that does not decode stops the decoding with its error |
| Rmq.StatsRequest | hao/rmq.py:329-331 | the stats frame exists exactly when the STAT payload and its frame fit u32 |
| Rmq.StatsReply | hao/rmq.py:333-336 | a bad reply header gives its error |
| Rmq.CollectLastWins | hao/rmq.py:325 | a key holds the value of its last entry |
| Rmq.CollectKeeps | hao/rmq.py:325 | a key no entry mentions keeps its earlier value |
| Rmq.StatsFromEncoded | hao/rmq.py:321-326 | one encoded entry is read as its key and value, and the offset moves past it |
| Rmq.StatsFromEntries | hao/rmq.py:321-326 | a run of encoded entries decodes to the map collected from them in order |
| Rmq.StatsRoundTrip | hao/rmq.py:315-327 | an encoded stats payload decodes to its entries, later duplicates winning |
| Meters.Counter.constructor | hao/meters.py:15-18 | a new counter has count 0 and last-report value 0 |
| Meters.Counter.Increment | hao/meters.py:21-23 | the count goes up by exactly one and the last-report value is unchanged |
| Meters.Counter.Get | hao/meters.py:25-27 | returns the count, which is at least the last-report value, and changes nothing |
| Meters.Counter.Delta | hao/meters.py:29-33 | returns count minus last-report value (never negative) and sets the last-report value to the unchanged count |
| Meters.Counter.Reset | hao/meters.py:35-38 | both values become 0 |
| Meters.DeltaTwice | hao/meters.py:29-33 | a second delta right after the first returns 0 |
| Meters.FmtRate | hao/meters.py:104-111 | interval <= 0 gives rate 0 in it/s with 1 digit; otherwise a rate below 0.1 is inverted into s/it with 0 digits and any other is shown in it/s with 1 digit; a zero count with a positive interval raises `ZeroDivisionError` |
| Meters.SlowRateExceedsTen | hao/meters.py:109-110 | an inverted rate is always above 10 seconds per item |
| Meters.JobUrl | hao/meters.py:124 | the job URL starts with the gateway and has the gateway, job and host name plus 23 fixed characters |
| Meters.JobUrlRoundTrip | hao/meters.py:124 | the job name reads back from its URL |
| Meters.BodyText | hao/meters.py:125 | the push body is twice the key, the value and 16 fixed characters long |
| Meters.BodyTextRoundTrip | hao/meters.py:125 | the value reads back from the push body |
| Meters.PushFor | hao/meters.py:122-125 | a push is made exactly when gateway and key are both truthy, to the URL of that job |
| Meters.PushBodyDecodes | hao/meters.py:125 | the pushed bytes are UTF-8 of the body text, from which the value reads back |
| Meters.DeleteFor | hao/meters.py:131-134 | a delete is made exactly when gateway and key are both truthy, to the URL of that job |
| Meters.DeleteMatchesPush | hao/meters.py:122-134 | a delete goes to the same URL as the push for that job, under the same condition |
| Meters.DeleteAll | hao/meters.py:72-74 | on exit, one delete per meter key in order when the gateway is configured, none otherwise |
| Meters.RowOf | hao/meters.py:96-98 | a meter's row holds its delta (count minus last-report value) and its total (count) |
| Meters.Step | hao/meters.py:96-102 | one meter raises exactly when the interval is positive and its delta or total is 0; otherwise it makes one push to its own job URL when the gateway is configured, and none when it is not |
| Meters.StepPushesRate | hao/meters.py:96-102 | the push a meter makes goes to its job, and its body decodes as UTF-8 to the text exposition of the meter's rate over one interval, as rendered |
| Meters.CycleFrom | hao/meters.py:96-102 | the cycle from a meter on keeps the pushes made so far, adds at most one per meter handled, and reaches the end unless it stops at an exception |
| Meters.Cycle | hao/meters.py:91-102 | a cycle makes at most one push per meter it reached and runs to the end unless it stops |
| Meters.CycleHandlesPrefix | hao/meters.py:84-102 | every meter before the last one reached was handled without an exception, and a stopped cycle stopped at a meter that raises |
| Meters.CycleStopsAtFirstRaise | hao/meters.py:84-102 | a cycle runs to the end exactly when no meter raises, and otherwise stops at the first meter that raises |
| Meters.CycleFromRaise | hao/meters.py:96-102 | the cycle stops right after a meter that raises, without its push |
| Meters.CycleFromOk | hao/meters.py:96-102 | after a meter that does not raise, the cycle goes on with that meter's pushes made |
| Meters.CyclePushesEachMeter | hao/meters.py:96-102 | with the gateway configured, the cycle pushes once per meter handled without an exception, in key order; push `j` goes to the job of the `j`-th such meter, and its body is the text exposition of that meter's rate |
| Meters.PushesShift | hao/meters.py:96-102 | the pushes after one more meter are that meter's own push followed by those of the meters after it |
| Meters.Advanced | hao/meters.py:97 | taking deltas keeps the set of meters |
| Meters.AdvancedAt | hao/meters.py:96-97 | after the deltas of the first `n` keys, those counters have their last-report value equal to their count and the others are untouched |
| Meters.Metrics.constructor | hao/meters.py:46-55 | a new registry has no meters, no gauges, cycle 0, is not running, and owns only fresh counters |
| Meters.Metrics.AddMeter | hao/meters.py:50 | a missing key gets a fresh zeroed counter at the end of the key order, and nothing else changes |
| Meters.Metrics.Bump | hao/meters.py:77 | only that key's count goes up by one |
| Meters.Metrics.Mark | hao/meters.py:76-77 | creates a zeroed counter for a new key (appended to the key order), then increments that key's count only; gauges, cycle and running are unchanged; only a new counter joins the registry's counters |
| Meters.Metrics.RegisterGauge | hao/meters.py:79-82 | with `overwrite=False` an existing gauge is kept; otherwise the gauge is stored, new keys going last; the meters and counters are untouched |
| Meters.Metrics.Reset | hao/meters.py:68-70 | meters are emptied and the cycle count is 0, and gauges are kept; the registry owns the same counters |
| Meters.Metrics.Start | hao/meters.py:57-62 | when running, nothing changes; otherwise the registry is reset and then running; the registry owns the same counters |
| Meters.Metrics.Stop | hao/meters.py:64-66 | a valid registry stays valid and owns the same counters; it is not running, and nothing else changes |
| Meters.Metrics.ExitDeletes | hao/meters.py:72-74 | on exit, one delete per meter key, in key order, each to that job's URL, when the gateway is configured |
| Meters.Metrics.TakeDelta | hao/meters.py:97-98 | returns the meter's delta and total and records the total as its last-report value |
| Meters.Metrics.HandleMeter | hao/meters.py:96-102 | handling the next meter gives that meter's step and advances its counter |
| Meters.Metrics.HandleMeters | hao/meters.py:96-102 | the loop over the meters makes exactly the pushes of the cycle and stops where it stops, with the counters reached advanced |
| Meters.Metrics.ReportMeters | hao/meters.py:91-102 | the cycle count goes up by one even with no meters, the keys stay the same, the pushes are those of the cycle, and the counters reached have had their delta taken; the registry owns the same counters |
| Meters.Metrics.Report | hao/meters.py:84-89 | after the meters' cycle the gauges are read in order, unless a meter raised, in which case none are; the counters reached have their deltas taken, and the registry owns the same counters |
| Systems.Bytes2Mega | hao/systems.py:103-104 | the text ends in `m` after at least one character |
| Systems.Bytes2MegaReads | hao/systems.py:103-104 | the number before the `m` is `q` with `q * 2^20 <= n < (q + 1) * 2^20` |
| Systems.ScaleIsShift | hao/systems.py:94-95 | the divisor of the i-th prefix, `1 << 10*i`, is 1024 to the power i |
| Systems.Prefixes | hao/systems.py:93-95 | the prefix table maps k, m, G, T, P, E, Z and Y, and nothing else, to 2^10 up to 2^80 |
| Systems.UnitsDistinct | hao/systems.py:92 | the unit symbols B, k, m, G, T, P, E, Z and Y are distinct, each found at its own position |
| Systems.RankBounds | hao/systems.py:96-100 | the chosen symbol is the largest whose divisor is at most `abs(n)`, and it is `B` exactly when `abs(n) < 1024` |
| Systems.RankIs | hao/systems.py:96-100 | a symbol whose divisor is at most `abs(n)` while the next one's exceeds it is the one chosen |
| Systems.HumanOf | hao/systems.py:91-100 | the value is `n` over a positive divisor, with a symbol from the units |
| Systems.HumanOfValue | hao/systems.py:96-100 | the unscaled `B` form exactly when no prefix applies; otherwise the divisor is at most `abs(n)` and below the next prefix |
| Systems.Bytes2Human | hao/systems.py:91-100 | the scan from Y downwards returns the value, divisor and symbol of the specification |
| Systems.BytesSize | hao/systems.py:30-36 | `Bytes` keeps the value and formats it with `bytes2mega` and `bytes2human` |
| Systems.BitsToBytes | hao/systems.py:45 | the byte count is the floor of bits over 8 |
| Systems.BitsSize | hao/systems.py:39-47 | `Bits` keeps the value and formats its byte count |
| Systems.CudaVersion | hao/systems.py:124-126 | the version text contains a dot |
| Systems.CudaVersionRoundTrip | hao/systems.py:126 | the text reads back as the major `v // 1000` and minor `v % 1000 // 10` |
| Systems.CudaVersionParts | hao/systems.py:126 | the minor is below 100, and major, minor and the dropped last digit rebuild `v` |
| Systems.CudaVersionExample | hao/systems.py:122-126 | 12020 gives "12.2" |
| Namespaces.ArgName | hao/namespaces.py:169-170 | the name itself without a truthy prefix, and otherwise the prefix and `_` followed by the name |
| Namespaces.ArgNameRoundTrip | hao/namespaces.py:169-170 | under a given prefix, the attribute name reads back from its argument name |
| Namespaces.MakeAttr | hao/namespaces.py:10-18 | a declaration without a type, or with a falsy one (an empty list instance), gets `str`; a truthy type is kept; everything else it is given is kept |
| Namespaces.EmptyListTypeIsStr | hao/namespaces.py:13-101 | an attribute declared with `type=[]` reaches the parser as a `str` option with its own `nargs`, not as a list option |
| Namespaces.ArgType | hao/namespaces.py:85-90 | `nargs='*'` exactly for list types (or when already asked); the `list` class and list instances take `str`, a parameterised list, set or tuple takes its first parameter, and other types are unchanged |
| Namespaces.NonEmpty | hao/namespaces.py:92 | `filter(None, ...)` keeps only non-empty parts, taken from the input |
| Namespaces.HelpText | hao/namespaces.py:94 | the help part is non-empty exactly when the help is truthy |
| Namespaces.DefaultText | hao/namespaces.py:95 | the default part is present exactly when the default is truthy, as `(default: d)` |
| Namespaces.DescriptionForm | hao/namespaces.py:92-96 | the description is the required/optional tag, then each present part after one space |
| Namespaces.ArgumentFor | hao/namespaces.py:83-101 | the parser argument is `--` and the argument name, with the description, the default, the action and the converted `nargs`; a type is passed exactly when there is no `action`, and it is the converted type |
| Namespaces.ResolveAfterFirstSome | hao/namespaces.py:120-130 | after the first step, resolution takes the first present among that step's value, the keyword, the environment (when enabled) and the configuration or default |
| Namespaces.ResolvePrecedence | hao/namespaces.py:101-130 | an attribute's value is the first present among: the parsed command line (the given flag, else the default argparse was given), the constructor keyword, the environment (when enabled), and the configuration at its key or name with the default as fallback |
| Namespaces.DefaultShadowsLaterSources | hao/namespaces.py:101-130 | an attribute with a default never reads the keyword, environment or configuration: it gets the given flag or else its default |
| Namespaces.ResolveAgainstDocumented | hao/namespaces.py:33-130 | the code's order differs from the documented one only for an attribute with a default whose flag is not given, and then the code gives the default |
| Namespaces.KeywordShadowedByDefault | hao/namespaces.py:33-130 | with default 1 and keyword 2 and no flag, the code resolves to 1 where the documented order gives 2 |
| Namespaces.DocumentedPrecedence | hao/namespaces.py:33 | the documented order takes the first present among the given flag, keyword, environment, and configuration or default |
| Namespaces.ResolveValue | hao/namespaces.py:101-130 | the resolution steps compute that first present value |
| Namespaces.FirstSome | hao/namespaces.py:117-130 | the first present value exists exactly when some candidate is present |
| Namespaces.OutcomeOf | hao/namespaces.py:131-141 | a required attribute without a value gives `MISSING: --` and its argument name; every other attribute is assigned its value, `None` included |
| Namespaces.MissingNamesAttribute | hao/namespaces.py:131-132 | the attribute reads back from its missing message |
| Namespaces.Set | hao/namespaces.py:108 | `setattr` stores the value, appending a new name and keeping an existing name's place |
| Namespaces.SetWellFormed | hao/namespaces.py:108 | `setattr` keeps the attribute names distinct and matching the stored values |
| Namespaces.Del | hao/namespaces.py:161 | `delattr` removes exactly that name |
| Namespaces.DelWellFormed | hao/namespaces.py:161 | `delattr` keeps the attribute names distinct and matching the stored values |
| Namespaces.SetAllLookup | hao/namespaces.py:107-112 | after a run of `setattr`, a name holds the value of its last assignment |
| Namespaces.SetAllWellFormed | hao/namespaces.py:107-112 | a run of `setattr` keeps the names distinct and matching the stored values |
| Namespaces.Outcomes | hao/namespaces.py:117-141 | one outcome per declared attribute, in declaration order |
| Namespaces.OutcomesSplit | hao/namespaces.py:131-141 | every attribute is either assigned or reported as missing, never both |
| Namespaces.NoMessagesIff | hao/namespaces.py:131-133 | there is no missing message exactly when every required attribute has a value |
| Namespaces.MessagesEmpty | hao/namespaces.py:131-141 | there are no messages exactly when every outcome is an assignment |
| Namespaces.KwMapLast | hao/namespaces.py:47-121 | every keyword name is a key of the keyword dict, holding the value of its last occurrence |
| Namespaces.KwMapKeys | hao/namespaces.py:47-121 | every key of the keyword dict is a keyword name |
| Namespaces.Namespace.constructor | hao/namespaces.py:106-161 | the instance holds the keywords, then the plain fields, then the resolved attributes, minus class methods, and collects the missing messages; the keywords the resolution consults are these keywords read as a dict |
| Namespaces.Namespace.SetAttrs | hao/namespaces.py:107-113 | the loop stores each pair in turn |
| Namespaces.Namespace.ResolveAttrs | hao/namespaces.py:116-141 | the loop assigns every attribute's resolved value, in order, and adds a message for each missing required one |
| Namespaces.Namespace.RemoveClassMethods | hao/namespaces.py:159-161 | the loop deletes exactly the attributes holding class methods |
| Namespaces.DropAmongKeys | hao/namespaces.py:159-161 | dropping among some names removes exactly the class methods among them and keeps the other values |
| Namespaces.DropClassMethodsKeys | hao/namespaces.py:159-161 | no class method is left, and every other attribute keeps its value |
| Namespaces.Namespace.AsDict | hao/namespaces.py:186-190 | `as_dict` holds exactly the attributes whose names do not start with `_` and whose values are not class methods |
| Namespaces.PublicNames | hao/namespaces.py:186-190 | the public names, in the instance's order |
| Namespaces.PublicOf | hao/namespaces.py:186-190 | exactly the public attributes, with their values |
| Namespaces.PublicOfWellFormed | hao/namespaces.py:186-190 | the dictionary lists exactly the public names in order, each with a value |
| Namespaces.Namespace.Prettify | hao/namespaces.py:172-175 | with no public attributes, `[Cls]\t[-]` |
| Namespaces.PrettyText | hao/namespaces.py:172-181 | with no attributes, `[Cls]\t[-]`; with several, the text starts with `[Cls]`, a newline and a tab, the line of attribute `i` follows the `i`-th newline and tab at its offset in the joined lines, and nothing follows the last line |
| Namespaces.LayoutMulti | hao/namespaces.py:177-181 | with several lines, after the header each line follows a newline and a tab, in order, and the text ends with the last line |
| Namespaces.Pad | hao/namespaces.py:177 | a name shorter than the width is padded to exactly the width: fill on the right for `<`, on the left for `>`, split with the odd character on the right for `^` |
| Namespaces.MaxLen | hao/namespaces.py:176 | no name is longer than the width base |
| Namespaces.MaxLenAttained | hao/namespaces.py:176 | the width base is the length of some name |
| Namespaces.Lines | hao/namespaces.py:177 | one line per attribute, in order: padded name, `: `, value |
| Namespaces.LinesAligned | hao/namespaces.py:176-177 | every line starts with its name padded to one more than the longest, so all colons stand in the same column |
| Namespaces.PrettyTextSingle | hao/namespaces.py:176-179 | a single attribute goes on the header line after a tab |

## Left out

- Locks and threads: the locks in `SimpleCounter`, the `threads.PeriodicalTask` timer and `exits.OnExit`. Each operation is taken as atomic. `Start` and `Stop` only set a running flag.
- HTTP calls: `requests.put` and `requests.delete` are not made. Pushes and deletes are returned as values. Transport failures are only logged by the source, so they change nothing in the model.
- Configuration and host: `config.get` and `config.HOSTNAME` are inputs of `Meters.Metrics.constructor`.
- Logging: every log line, and the padding widths used in them.
- Gauges: producers are opaque. `Meters.Metrics.Report` records which gauges are read, not the values or the exceptions they raise.
- `SimpleCounter.__str__` (`hao/meters.py:40-41`) is not modelled. It returns an int, so Python would raise `TypeError` on `str(counter)`.
- Meters.FmtRate: gives the rate as a real number with its unit and digit count, not the padded text. Float rounding and formatting are not modelled.
- Systems.HumanOf: gives the value as the integer `n` and the divisor, not the `%.2f` text of `float(n) / divisor`. Float rounding is not modelled.
- `Percent`, `MemInfo` percent, `CpuInfo`, `GpuInfo`, `Process`, and the `psutil`, `pynvml` and `datetime` calls in `hao/systems.py`: floats and system APIs. The CUDA driver version is a parameter of `Systems.CudaVersion`.
- Sockets: the `RMQ` class's socket handling (`_connect`, `_send`, `_recv`, `close`, `reconnect`, the lock and `atexit`). Reply headers and bodies are parameters of `Rmq.PullReply`, `Rmq.CheckReply` and `Rmq.StatsReply`.
- Timeout and `OSError` branches of `pull`, `publish`, `ack` and `stats`: these depend on the socket.
- `Msg.__str__`: text rendering only.
- Rmq.PublishBody: strings are sequences of Unicode scalar values. A Python `str` holding a lone surrogate (such as one `surrogateescape` decoding produces) makes `.encode('utf-8')` raise `UnicodeEncodeError` in `publish` (`hao/rmq.py:261`) and in every queue-name encoding (`hao/rmq.py:221`, `254`, `288`, `311`); the model cannot hold such a string, so that error is not modelled. The same limit applies to `Wire.DecodeUtf8OfUtf8`, `Rmq.GetPayload`, `Rmq.PutPayload`, `Rmq.AckPayload` and `Rmq.StatPayload`.
- Rmq.DecodeStatsValue: keeps `ins` and `outs` as their 8 raw bytes rather than as doubles.
- Rmq.StatsSpec: the decoded stats are a map. The source's dict also records the order in which keys first appear, and the model does not keep that order. Which key holds which value, with later duplicates winning, is kept.
- JSON: the dict payload of `publish` is taken as the already-dumped JSON text, because `jsons.dumps` is not part of this model.
- Argument parsing and reflection in `hao/namespaces.py`:
  - argparse itself, the scan of the class hierarchy for fields and attributes, and the handling of the parser's `_actions` and `_defaults`. The parsed command line, environment and configuration are inputs in `Namespaces.Sources`.
  - The `adds` loop (`hao/namespaces.py:143-155`).
  - The bool-to-`strings.boolean` conversion of argument types.
  - Type conversion of environment values.
- Namespaces.Namespace.ResolveAttrs: a resolved string is stored as it is. The source applies `str.format(**values)` to it, ignoring `KeyError`, and also formats `attr.key` before the configuration lookup.
- Namespaces.Resolve: a default is taken as it is. argparse would pass a string default through the argument's `type`, and that conversion is not modelled.
- Namespaces.Resolve: the configuration is always a mapping. A missing configuration with an attribute key, where the source would fail on `None.get`, is not modelled. Neither is the `cfg.get(key)` sub-section step.
- Printing help and `sys.exit(0)` when messages exist (`hao/namespaces.py:163-167`): I/O. The messages are kept in `Namespaces.Namespace`.
- `from_dict`, `_method` and the class wrapper (`hao/namespaces.py:192-237`): dynamic class creation and qualname patching.
- The `from_args` check against passing `_cls` (`hao/namespaces.py:48-49`) is not modelled.
- Non-ASCII queue names: the name field holds `len(queue)` bytes of the UTF-8 encoding, as the source writes it, so a non-ASCII name is truncated. Only ASCII names are proved to read back as text (`Rmq.NameFieldAscii`).

## Findings

| source | as written | input that shows it | evidently intended | confidence | as-written member | corrected member |
|---|---|---|---|---|---|---|
| hao/namespaces.py:33 | The parser gets each attribute's default (lines 98 and 101). So `getattr(ns, arg_name)` at line 119 already holds the default when the flag is absent. The keyword, environment and configuration are then never consulted for an attribute with a default. | attribute `x` with default 1, constructor keyword `x=2`, no `--x` flag: the code resolves `x` to 1 | the documented order (command line, constructor, environment, config, default), under which the keyword 2 wins | medium, not executed | Namespaces.KeywordShadowedByDefault | Namespaces.DocumentedPrecedence |

The `Namespace` class models the program as it runs, so it resolves with `Namespaces.Resolve`, the order as written. `Namespaces.DocumentedResolve` is the documented order, and `Namespaces.ResolveAgainstDocumented` relates the two for every attribute and source.
