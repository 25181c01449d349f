# Traffic shaper control model

A Dafny model of the traffic-shaping control logic in `python/entrypoint.py`.
The program runs a small HTTP handler, `RateHandler`. It holds four shaping
settings: `rate` in kbit/s, `delay` and `jitter` in ms, and `packet_error` in
percent. A GET request with query parameters for any of these updates the
stored settings. When something changed, the handler re-runs the
`wondershaper` tool on `eth0` with the full settings. It then answers with an
echo of the requested keys, or with `<key> Value Error` when a value is not an
integer.

Modules:

- `Wrappers`: the `Option` type.
- `Text`: Python's `str.split(sep)` as `Split`. Also `Prefixed`, the inverse
  construction (`sep + word` for every word) used to state round trips.
- `Decimal`: `int(s)` as `ParseInt` and `"{}".format(n)` as `Str`. Both round
  trips are proved.
- `Shaper`: `shape_traffic`'s command text.
  - `ShapeCommand` builds the command exactly as the source appends its
    options.
  - `ApplyCommands` is the pair of shell commands one apply issues.
  - A decoder, `DecodeCommand`, reads a command back into its settings. It is
    used to prove what the command carries.
- `Response`: the two reply texts.
  - `EchoBody` and `ErrorBody` build them.
  - The reader `ParseReply` shows that each reply is unambiguous.
- `Handler`:
  - The recognised keys and the defaults.
  - `Process`, the reference definition of the update loop of `render_GET`,
    with the lemmas about it.
  - The class `RateHandler`:
    - `data` is `self.data`.
    - `log` holds every command handed to `os.system`, oldest first.
    - Its methods model the constructor, `shape_traffic`'s two shell calls, and
      `render_GET`. `render_GET` is split into its update loop (`Update`) and
      its echo loop (`Echo`).

The query is a sequence of `(key, value)` pairs. `request.args[key][0]` is the
first value sent for `key` (`FirstValue`). Python's iteration order over the
set `common_endpoints` is unspecified, so it is a parameter, `order`. The
predicate `IsIterationOrder` constrains it: `order` holds each key that is both
recognised and sent, exactly once, in any order. Every property below holds for
every such order.

On a value that does not parse, the code returns at once (lines 129-131).
Keys visited earlier in the loop have by then already been written into
`self.data` (line 134), and nothing rolls them back. No shaping command is
issued. `ProcessRejected` states this. `RejectionLeavesRateUnapplied` shows the
consequence for one concrete input: the stored settings and the shaping in
force drift apart. `int()` accepts negative numbers and nothing in the handler
rejects them, so stored values may be negative. The model claims no range for
the values.

## Model

| member | source | states |
|---|---|---|
| Decimal.ParseInt | python/entrypoint.py:128 | `int(s)` succeeds exactly on an optional `+`/`-` sign followed by at least one decimal digit. A `-` sign gives a value of at most zero; otherwise the value is at least zero. |
| Decimal.ParseIntValue | python/entrypoint.py:128 | For every sign in {none, `+`, `-`}, every run of leading zeros and every natural n, `int()` of sign, zeros and the digits of n gives n, negated for `-`. So `+5000` and `05000` give 5000, `-007` gives -7 and `-0` gives 0. |
| Decimal.AcceptedTextForm | python/entrypoint.py:128 | Every text `int()` accepts has that form, so `ParseIntValue` fixes the value of every accepted text. |
| Decimal.Str | python/entrypoint.py:141 | `"{}".format(n)` is non-empty and consists of digits, with at most a leading minus sign. |
| Decimal.ParseStr | python/entrypoint.py:128 | Parsing the text the program writes for any integer gives back that integer. |
| Decimal.StrParse | python/entrypoint.py:128 | Every canonical decimal text (no leading zeros, no `-0`) parses, and writing the value back gives the same text. |
| Shaper.OptionsPieces | python/entrypoint.py:66-73 | The options are ` -l D`, ` -j J` and ` -e E`, in that order. Each appears only when its value is non-zero, and jitter appears only when delay is non-zero. |
| Shaper.RateCommand | python/entrypoint.py:35 | The rate template `/wondershaper -a eth0 -u {rate} -d {rate}` with the rate written twice (definition; `CommandWords` states its words). |
| Shaper.Options | python/entrypoint.py:66-73 | The option text built by conditional appends, jitter only when the text already holds the delay option (definition; `OptionsPieces` and `OptionPresence` state its content). |
| Shaper.ShapeCommand | python/entrypoint.py:74-75 | The rate command followed by the option text (definition; `CommandWords` and `DecodeShapeCommand` state what it carries). |
| Shaper.ApplyCommands | python/entrypoint.py:77-78 | One apply: the clear command `/wondershaper -ca eth0` (the constant at line 34), then the rate command (definition; `ShapeTraffic` appends exactly these). |
| Shaper.CommandWords | python/entrypoint.py:74-75 | The command's space-separated words are `/wondershaper -a eth0 -u R -d R`, with the same rate for upload and download, followed by the present options as flag/value pairs in the fixed order. |
| Shaper.DecodeShapeCommand | python/entrypoint.py:66-75 | Reading the constructed command back gives exactly the effective settings: rate, delay and packet error, and jitter when delay is non-zero, or 0 otherwise. |
| Shaper.JitterDroppedWithoutDelay | python/entrypoint.py:69-70 | Jitter without delay is silently dropped: the command for the settings equals the command with jitter zeroed when delay is zero. |
| Shaper.CommandDeterminesSettings | python/entrypoint.py:66-75 | Two settings produce the same command if and only if their effective settings are equal. |
| Shaper.OptionPresence | python/entrypoint.py:66-73 | The command contains `-l` iff delay is non-zero, `-j` iff both delay and jitter are non-zero, and `-e` iff packet error is non-zero. |
| Shaper.DefaultCommand | python/entrypoint.py:27-35 | The default settings give exactly `/wondershaper -a eth0 -u 80000 -d 80000`, with no options. |
| Handler.FirstValue | python/entrypoint.py:128 | A first value exists for a key exactly when that key was sent. |
| Handler.FirstValueIsFirst | python/entrypoint.py:128 | The value found for a key is the value of the first pair sent with that key: no earlier pair has that key. |
| Handler.Requested | python/entrypoint.py:128 | `int()` of the first value sent for a key, absent when the key was not sent or the value does not parse (definition; `ProcessApplied` and `ProcessRejected` use it). |
| Handler.DefaultSettings | python/entrypoint.py:43-47 | The defaults hold exactly the four recognised keys, with rate 80000 and delay, jitter and packet error 0. |
| Handler.ToParams | python/entrypoint.py:105 | `shape_traffic(**self.data)`: the four stored values passed by name (definition). |
| Handler.IsIterationOrder | python/entrypoint.py:121-122 | `common_endpoints`: each key both recognised and sent, exactly once, in any order (definition; the order is a parameter). |
| Handler.Process | python/entrypoint.py:125-135 | The update loop never adds or removes a stored key. |
| Handler.ProcessApplied | python/entrypoint.py:125-135 | The loop completes iff every visited value parses. Then each visited key holds its parsed value and every other key keeps its value, and "changed" holds iff some parsed value differed from the stored one. |
| Handler.ProcessRejected | python/entrypoint.py:126-134 | A rejected request names the first visited key whose value does not parse. The keys before it hold their parsed values, and all other keys keep theirs. |
| Handler.LaterKeysUntouched | python/entrypoint.py:126-134 | After a rejection at position j, the key at j and every later key keep their stored values. |
| Handler.RepeatedRequestUnchanged | python/entrypoint.py:132-137 | Sending an accepted request again stores the same settings and reports no change, so it issues no command. |
| Handler.NoChangeKeepsSettings | python/entrypoint.py:132-135 | A request that reports no change leaves every stored value as it was. |
| Handler.AppliedStaysInSync | python/entrypoint.py:136-137 | When the last issued command matches the stored settings, an accepted request keeps it that way: either nothing changed and nothing is issued, or the new settings are applied in full. |
| Handler.RejectionLeavesRateUnapplied | python/entrypoint.py:126-137 | For `rate=5000&delay=abc` visited rate first, the new rate is stored, no command is issued, and the stored settings no longer match the last command. Repeating `rate=5000` then reports no change. |
| Handler.ProcessSameRequests | python/entrypoint.py:128 | The loop's outcome depends on the query only through the parsed first values of the visited keys. |
| Handler.UnrecognisedKeyIgnored | python/entrypoint.py:121-122 | Pairs with unrecognised keys are ignored wherever they appear in the query. The query and its recognised pairs alone admit the same iteration orders and give the same outcome. |
| Handler.RateRequestStored | python/entrypoint.py:125-135 | `?rate=5000` on the defaults stores rate 5000, keeps the other defaults and reports a change. |
| Handler.RateRequestCommand | python/entrypoint.py:74-75 | Those settings are applied as `/wondershaper -a eth0 -u 5000 -d 5000`. |
| Handler.RateRequestEcho | python/entrypoint.py:139-142 | The reply to it is exactly `Received:\nrate=5000 \n\n`. |
| Handler.RateRequestRejected | python/entrypoint.py:129-131 | `?rate=abc` is rejected naming `rate`, changes nothing, and the reply is exactly `rate Value Error\n`. |
| Handler.Echoed | python/entrypoint.py:140-141 | One echoed entry per visited key. |
| Handler.EchoedAt | python/entrypoint.py:140-141 | The i-th echoed entry is the i-th visited key with its now-stored value, in loop order. |
| Handler.RepliesReadBack | python/entrypoint.py:131-143 | A success reply reads back as exactly the echoed entries. An error reply reads back as the offending key. |
| Handler.RateHandler.constructor | python/entrypoint.py:104-105 | Settings start as `{rate: 80000, delay: 0, jitter: 0, packet_error: 0}`, and the log holds exactly one apply: the clear command, then the rate command for the defaults. |
| Handler.RateHandler.ShapeTraffic | python/entrypoint.py:77-78 | An apply appends exactly two commands: the clear command `/wondershaper -ca eth0`, then the constructed rate command. |
| Handler.RateHandler.RenderGet | python/entrypoint.py:107-143 | Exactly the four keys stay stored. On success the settings become the loop's result, the full settings are applied once iff something changed, and the reply is the echo. On a parse error, earlier updates are kept, nothing is issued, and the reply is `<key> Value Error\n`. An accepted request keeps the shaping in force in step with the stored settings. |
| Handler.RateHandler.Update | python/entrypoint.py:125-135 | The loop ends with the outcome `Process` specifies: stop at the first unparsable key, keeping earlier writes, or finish with the "changed" flag. |
| Handler.RateHandler.Echo | python/entrypoint.py:139-143 | The built reply is `Received:\n`, then `key=value \n` per visited key in loop order, then `\n`. |
| Response.EchoTextAsWords | python/entrypoint.py:139-141 | The echo text is the header line followed by one `key=value ` line per entry, each ending in a newline. |
| Response.Line | python/entrypoint.py:141 | One echoed line, `key=value ` with the trailing space, then a newline (definition). |
| Response.EchoText | python/entrypoint.py:139-141 | `Received:\n` followed by one line per entry, in order (definition; `EchoTextAsWords` and `ParseEchoBody` state its content). |
| Response.EchoBody | python/entrypoint.py:139-142 | The echo text followed by the final `\n` (definition; `ParseEchoBody` states it reads back as its entries). |
| Response.ErrorBody | python/entrypoint.py:131 | `"{} Value Error\n".format(key)` (definition; `ParseErrorBody` states it reads back as its key). |
| Response.ParseEchoBody | python/entrypoint.py:139-143 | Every echo of keys without `=` or newline reads back as exactly its entries, in order. |
| Response.ParseErrorBody | python/entrypoint.py:131 | Every error reply reads back as exactly the key it names. |

## Left out

- `ContentServer`, `main` and the signal handling, the static content server and the network listeners: process lifecycle and I/O.
- `get_host_ip`: it calls into `netifaces`.
- Logging calls.
- Running the commands. `os.system` is modelled as appending to the handler's command log, and its exit status, which the code ignores, is not modelled.
- Twisted's parsing and decoding of `request.args`. The query is taken as already decoded (key, value) text pairs in sending order, and the reply as text.
- Concurrency. One request is handled at a time.
- `int()` corner cases. `ParseInt` accepts only an optional sign and ASCII digits; surrounding whitespace, `_` separators and non-ASCII digits, which Python's `int()` also accepts, are rejected.
- `shape_traffic`'s `delay=10` default. It is never used, because every call passes all four settings from the stored map.
- The iteration order of `common_endpoints` is not computed, because Python leaves it unspecified. Every order of the visited keys is covered.
