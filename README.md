# mini-redis in Dafny

A model of the core of mini-redis, a small Redis server and client written
in Rust on tokio, with proofs about it. The model covers:

- **The frame codec.** RESP2 frames (simple strings, errors, integers, bulk
  strings, the null bulk, arrays):
  - the cursor helpers of `src/frame.rs`;
  - the completeness check `Frame::check` and the parse that follows it;
  - the encoder of `src/connection.rs`: `write_frame`, `write_value` and
    `write_decimal`, as pure functions that return the bytes.
- **The connection's read buffer.** `parse_frame` drops the parsed prefix,
  or leaves the buffer alone when bytes are missing. `read_frame` has an
  end-of-stream rule. The socket becomes a sequence of byte chunks to read
  and a byte sequence written.
- **The command layer.**
  - The `Parser` cursor over an Array frame's elements.
  - The case-insensitive dispatch of `Command::try_from`.
  - Each command's parser, its client-side encoding and its reply.
  - `Command::apply`.
- **Subscribe mode.** The per-event step of `Subscribe::apply`:
  - channels queued by SUBSCRIBE;
  - an empty UNSUBSCRIBE expanded to every channel;
  - the counts reported after each change;
  - published messages forwarded.
- **The shared database.** Entries with optional deadlines, the ordered set
  of pending deadlines, the pub/sub registry (abstracted to a receiver
  count per channel) and the shutdown flag. The clock is a parameter
  `now`, in milliseconds.
- **The client.** Response classification, per-command answer checks, and
  the `Subscriber`'s channel-list bookkeeping, over an abstract sequence of
  replies.
- **The server.** The `accept` backoff loop and the `Handler::run` loop,
  over abstract outcomes and events.

Rust `String`s are byte sequences with a UTF-8 predicate. `u64` is the
subset type `U64` of `nat`. A cursor is a position index threaded through
the functions. Objects whose fields the Rust code updates are classes:
`Connection`, `Parser`, `Db`, `Session`, `Client`, `Subscriber` and
`Handler`.

Modules, one per file:

| module | file |
|---|---|
| `Wrappers` | `wrappers.dfy` |
| `Bytes` | `bytes.dfy` |
| `Decimal` | `decimal.dfy` |
| `Frames` | `frame.dfy` |
| `FrameTheory` | `frame_theory.dfy` |
| `Encoding` | `encoding.dfy` |
| `Connections` | `connection.dfy` |
| `Parsing` | `parser.dfy` |
| `CmdGet`, `CmdSet`, `CmdDel`, `CmdPublish`, `CmdPing`, `CmdUnknown`, `CmdSubscribe` | `cmd_*.dfy` |
| `Commands` | `commands.dfy` |
| `Database` | `db.dfy` |
| `SubscribeMode` | `subscribe_mode.dfy` |
| `Execution` | `execution.dfy` |
| `Server` | `server.dfy` |
| `Client` | `client.dfy` |

The connection does not use `Check` as written. It uses the corrected
check, `Check(buf, pos, true)`; see Findings.

## Model

| member | source | states |
|---|---|---|
| Frames.EmptyArray | src/frame.rs:31-33 | `Frame::array` is an Array with no elements |
| Frames.PushBulk | src/frame.rs:40-49 | appends exactly one Bulk at the end and leaves the earlier elements unchanged; only an Array may be pushed to |
| Frames.PushInt | src/frame.rs:54-62 | appends exactly one Integer at the end and leaves the earlier elements unchanged; only an Array may be pushed to |
| Frames.EqStr | src/frame.rs:153-161 | a frame equals a string exactly when it is a Simple with that text or a Bulk with those bytes; any other variant is unequal |
| Frames.PeekU8 | src/frame.rs:232-238 | gives the byte under the cursor when one remains, otherwise `Incomplete` |
| Frames.GetU8 | src/frame.rs:240-246 | gives the byte under the cursor and the next position when one remains, otherwise `Incomplete` |
| Frames.Skip | src/frame.rs:248-255 | advances by `n` exactly when `n` bytes remain, otherwise `Incomplete` |
| Frames.FindCrlfSpec | src/frame.rs:267-282 | the scan finds the first "\r\n" at or after the cursor, and finds none only when there is none |
| Frames.GetLineSpec | src/frame.rs:267-282 | the line is the bytes from the cursor up to the first "\r\n", and the next position is just past the "\n"; `Incomplete` exactly when there is no "\r\n" |
| Frames.ScanLine | src/frame.rs:267-282 | the loop of `get_line` computes `GetLine` |
| Frames.GetDecimal | src/frame.rs:258-264 | `Incomplete` exactly when no line is complete; a complete line that is not a number is another error; a number consumes the whole line |
| Frames.Check | src/frame.rs:64-97 | advances over one frame to a later position inside the buffer; an empty remainder is `Incomplete`; an unknown type byte is the fatal "invalid frame type byte" error |
| Frames.CheckN | src/frame.rs:90-93 | checks `count` frames in order and never moves backwards |
| Frames.Parse | src/frame.rs:102-149 | the parse ends inside the buffer, after its start; `None` is a panicking `unwrap` |
| Frames.ParseN | src/frame.rs:141-146 | an array parse gives exactly `count` frames, in stream order |
| FrameTheory.CheckExtend | src/frame.rs:64-97 | any verdict other than `Incomplete` stays the same when more bytes arrive |
| FrameTheory.CheckNExtend | src/frame.rs:90-93 | the same for a run of `count` frames |
| FrameTheory.CheckPrefix | src/frame.rs:64-97 | cutting an accepted frame short anywhere gives `Incomplete`, never a fatal error |
| FrameTheory.CheckNPrefix | src/frame.rs:90-93 | the same for a run of `count` frames |
| FrameTheory.StrictCheckIsCheck | src/frame.rs:64-97 | wherever the corrected check accepts, the check as written accepts and ends at the same position |
| FrameTheory.StrictCheckAgreesWithParse | src/frame.rs:64-149 | after the corrected check accepts, the parse does not panic, consumes exactly the bytes the check advanced over, and builds a frame whose strings are valid UTF-8 |
| FrameTheory.StrictCheckAgreesWithParseN | src/frame.rs:141-146 | the same for the `count` elements of an Array |
| FrameTheory.ParseExtend | src/frame.rs:102-149 | a checked frame parses the same when more bytes follow it |
| FrameTheory.CheckPassesNonUtf8Line | src/frame.rs:66-116 | "+\xFF\r\n" passes the check as written, but the parse panics; the corrected check rejects it |
| FrameTheory.CheckMisreadsNull | src/frame.rs:79-81 | on "$-12\r\n" the check as written ends at 5 and the parse at 6; the corrected check rejects it |
| Decimal.DigitsOf | src/connection.rs:180-193 | the decimal digits of a number, without a leading zero |
| Decimal.LeadingDigitsSpec | src/frame.rs:258-264 | `atoi` reads the longest run of digits at the front of the line |
| Decimal.ValueOfDigitsOf | src/connection.rs:180-193 | the digits written for `n` have the value `n` |
| Decimal.AtoiOfDigitsOf | src/frame.rs:258-264 | `atoi` gives `n` back from its digits followed by a non-digit |
| Decimal.Atoi | src/frame.rs:258-264 | no number unless the bytes start with a digit; otherwise the value of the leading digits, present whenever it fits in a `u64` |
| Bytes.ToLower | src/cmd/mod.rs:87 | `to_lowercase` maps each ASCII letter to lower case and keeps the length |
| Bytes.ToUpper | src/cmd/set.rs:89-98 | `to_uppercase` maps each ASCII letter to upper case and keeps the length |
| Bytes.ToLowerMatches | src/cmd/mod.rs:87-96 | a lower-cased name equals a lower-case verb exactly when the two are equal ignoring case |
| Encoding.WriteDecimal | src/connection.rs:180-193 | digits then "\r\n", from which `atoi` reads the number back |
| Encoding.WriteValue | src/connection.rs:143-178 | every value's encoding starts with its type byte |
| Encoding.WriteFrame | src/connection.rs:119-141 | the encoding starts with "*" exactly when the frame is an Array |
| Encoding.WriteFrameTo | src/connection.rs:119-141 | writing appends the frame's encoding to the output |
| Encoding.ArrayEncoding | src/connection.rs:122-134 | an Array is "*", its count and "\r\n", then each element with `write_value` |
| Encoding.DecimalAt | src/frame.rs:258-264 | `get_decimal` reads back what `write_decimal` wrote and ends after its "\r\n" |
| Encoding.LineValueRoundTrip | src/connection.rs:145-154 | "+text\r\n" and "-text\r\n" check and parse back to the same Simple or Error |
| Encoding.IntegerRoundTrip | src/connection.rs:155-158 | ":n\r\n" checks and parses back to `Integer(n)` |
| Encoding.NullRoundTrip | src/connection.rs:159-161 | "$-1\r\n" checks and parses back to `Null` |
| Encoding.BulkRoundTrip | src/connection.rs:162-169 | "$len\r\nbytes\r\n" checks and parses back to the same Bulk |
| Encoding.ValueRoundTrip | src/connection.rs:143-178 | every encodable value checks and parses back to itself, and the whole encoding is consumed |
| Encoding.ArrayRoundTrip | src/connection.rs:122-134 | an Array of encodable values checks and parses back to itself, and the whole encoding is consumed |
| Encoding.RoundTrip | src/connection.rs:119-141 | for any encodable frame followed by any bytes, check and parse give the frame back and stop exactly at the end of its encoding |
| Connections.ParseStep | src/connection.rs:70-111 | a frame is taken only when the parse gives it and its length, and the frame is well-formed; more bytes are awaited exactly when the check says `Incomplete`; any other check error is fatal |
| Connections.Connection.constructor | src/connection.rs:28-35 | a connection starts with an empty read buffer and nothing written |
| Connections.Connection.ParseFrame | src/connection.rs:70-111 | a parsed frame removes exactly its bytes from the front of the buffer; otherwise the buffer is unchanged |
| Connections.Connection.ReadFrame | src/connection.rs:46-66 | the outcome is determined by the buffer plus the bytes read; after a parsed frame the rest of those bytes is kept; at end of stream an empty buffer is `Ok(None)`, otherwise "connection reset by peer" |
| Connections.Rest | src/connection.rs:79-99 | after a frame is read the bytes left are those after it, a strict suffix of what was there |
| Connections.Connection.WriteFrame | src/connection.rs:119-141 | appends the frame's encoding to the output |
| Connections.ReadFromPrefix | src/connection.rs:79-99 | once a frame (or a fatal error) is decided, more bytes do not change it, and the bytes after the frame are kept |
| Connections.ReadEncoded | src/connection.rs:46-66 | a frame written by the encoder is read back as itself, whatever follows it |
| Connections.ReadTruncated | src/connection.rs:58-64 | a stream that ends part-way through a frame is "connection reset by peer" |
| Parsing.BytesOf | src/parser.rs:65-79 | a Simple's text or a Bulk's bytes; any other variant is an error |
| Parsing.StringOf | src/parser.rs:51-63 | a Simple, or a Bulk that is valid UTF-8; anything else is a protocol error |
| Parsing.IntOf | src/parser.rs:81-95 | an Integer is taken as it is; a Simple or Bulk succeeds exactly when `atoi` reads a `u64` from its bytes, and gives that number; every failure is a protocol error |
| Parsing.IntOfDigits | src/parser.rs:81-95 | the decimal digits of any `u64`, sent as a Bulk or as a Simple, are read back as that number |
| Parsing.TakeString | src/parser.rs:51-63 | takes exactly one element, even when it is rejected; `EndOfStream` exactly when none is left |
| Parsing.TakeBytes | src/parser.rs:65-79 | takes exactly one element, even when it is rejected; `EndOfStream` exactly when none is left |
| Parsing.TakeInt | src/parser.rs:81-95 | takes exactly one element, even when it is rejected; `EndOfStream` exactly when none is left |
| Parsing.Finished | src/parser.rs:97-101 | succeeds exactly when no element is left |
| Parsing.TakeStrings | src/cmd/del.rs:80-89 | the loop over `next_string` either takes every element as a string or fails with a protocol error |
| Parsing.TakeStringsOfBulks | src/cmd/subscribe.rs:115-128 | Bulk names that are valid UTF-8 are read back in order |
| Parsing.TakeStringsRejects | src/cmd/subscribe.rs:115-128 | the first name that is not UTF-8 fails the loop |
| Parsing.Parser.Over | src/parser.rs:38-40 | the cursor starts on the given elements |
| Parsing.Parser.New | src/parser.rs:32-41 | succeeds exactly on an Array frame, with the cursor over its elements; any other frame is a protocol error that names the frame |
| Parsing.Parser.Next | src/parser.rs:44-49 | takes the first element, or fails with `EndOfStream` and takes nothing |
| Parsing.Parser.NextString | src/parser.rs:51-63 | the cursor form of `TakeString` |
| Parsing.Parser.NextBytes | src/parser.rs:65-79 | the cursor form of `TakeBytes` |
| Parsing.Parser.NextInt | src/parser.rs:81-95 | the cursor form of `TakeInt` |
| Parsing.Parser.Finish | src/parser.rs:97-101 | the cursor form of `Finished` |
| CmdGet.ParseFrom | src/cmd/get.rs:64-69 | the cursor form of the GET parser: one string key |
| CmdGet.ArgsOfFrame | src/cmd/get.rs:75-82 | the frame a client sends is ["get", key], from which the parser reads the same key |
| CmdGet.FrameEncodable | src/cmd/get.rs:75-82 | the frame can be written and read back |
| CmdGet.Apply | src/cmd/get.rs:25-41 | replies `Bulk(value)` when the key is stored and `Null` otherwise; the database is only read |
| CmdSet.ParseFrom | src/cmd/set.rs:78-110 | the cursor form of the SET parser: key, value, optional EX/PX |
| CmdSet.ExpireArgPx | src/cmd/set.rs:89-98 | "px" followed by `n` is an expiration of `n` milliseconds |
| CmdSet.Sent | src/cmd/set.rs:116-134 | the sent SET keeps key and value, and keeps the expiration whenever it fits in a `u64` of milliseconds |
| CmdSet.ArgsOfFrame | src/cmd/set.rs:116-134 | the parser reads back from the sent frame the SET that `Sent` describes |
| CmdSet.FrameEncodable | src/cmd/set.rs:116-134 | the frame can be written and read back |
| CmdSet.Apply | src/cmd/set.rs:45-55 | stores exactly the parsed key, value and deadline, keeps the database invariant, and replies "OK" |
| CmdDel.ParseFrom | src/cmd/del.rs:69-92 | the cursor form of the DEL parser: one key, then strings until the end |
| CmdDel.ToFrame | src/cmd/del.rs:98-107 | the loop pushes "del" and then each key as a Bulk, in order |
| CmdDel.ArgsOfFrame | src/cmd/del.rs:69-107 | the parser reads back the key list a client sends, in order |
| CmdDel.NoKeys | src/cmd/del.rs:76 | a DEL without a key fails with `EndOfStream` |
| CmdDel.FrameEncodable | src/cmd/del.rs:98-107 | the frame can be written and read back |
| CmdDel.Apply | src/cmd/del.rs:36-46 | replies "OK" |
| CmdPublish.ParseFrom | src/cmd/publish.rs:71-81 | the cursor form of the PUBLISH parser: a channel string, then message bytes |
| CmdPublish.ArgsOfFrame | src/cmd/publish.rs:71-95 | the parser reads back the channel and message a client sends |
| CmdPublish.FrameEncodable | src/cmd/publish.rs:87-95 | the frame can be written and read back |
| CmdPublish.Apply | src/cmd/publish.rs:32-47 | replies with the number of receivers the database reports, as a `u64` |
| CmdPing.ParseFrom | src/cmd/ping.rs:58-66 | the cursor form of the PING parser: an optional message |
| CmdPing.ArgsOfFrame | src/cmd/ping.rs:58-81 | the parser reads back the PING a client sends, with or without its message |
| CmdPing.RejectsNonString | src/cmd/ping.rs:62-64 | an argument that is neither Simple nor Bulk is a protocol error |
| CmdPing.FrameEncodable | src/cmd/ping.rs:72-81 | the frame can be written and read back |
| CmdPing.Response | src/cmd/ping.rs:24-35 | "PONG" exactly when no message was given, otherwise a Bulk of the message |
| CmdPing.Apply | src/cmd/ping.rs:24-35 | writes that reply |
| CmdUnknown.Response | src/cmd/unknown.rs:28-35 | always an Error frame: "ERR unknown command '", the name, then "'" |
| CmdUnknown.ResponseReadsBack | src/cmd/unknown.rs:28-35 | the reply can be written and read back when the name is a string without "\r\n" |
| CmdUnknown.Apply | src/cmd/unknown.rs:28-35 | writes that reply |
| CmdSubscribe.ParseSubscribe | src/cmd/subscribe.rs:108-131 | the cursor form of the SUBSCRIBE parser: one channel at least |
| CmdSubscribe.ParseUnsubscribe | src/cmd/subscribe.rs:277-297 | the cursor form of the UNSUBSCRIBE parser: any number of channels, none included |
| CmdSubscribe.PushChannels | src/cmd/subscribe.rs:137-146 | the loop pushes the verb and then each channel as a Bulk, in order |
| CmdSubscribe.SubscribeToFrame | src/cmd/subscribe.rs:137-146 | ["subscribe", channels...] |
| CmdSubscribe.UnsubscribeToFrame | src/cmd/subscribe.rs:303-313 | ["unsubscribe", channels...] |
| CmdSubscribe.SubscribeArgsOfFrame | src/cmd/subscribe.rs:108-146 | the parser reads back the channels a client subscribes to |
| CmdSubscribe.UnsubscribeArgsOfFrame | src/cmd/subscribe.rs:277-313 | the parser reads back the channels a client unsubscribes from, none included |
| CmdSubscribe.CommandFrameEncodable | src/cmd/subscribe.rs:137-146 | the frame can be written and read back |
| CmdSubscribe.SubscribeFrame | src/cmd/subscribe.rs:222-228 | ["subscribe", channel, count] can be written |
| CmdSubscribe.UnsubscribeFrame | src/cmd/subscribe.rs:231-237 | ["unsubscribe", channel, count] can be written |
| CmdSubscribe.MessageFrame | src/cmd/subscribe.rs:240-246 | ["message", channel, payload] can be written |
| Commands.Dispatch | src/cmd/mod.rs:89-102 | an unrecognised verb is `Unknown(verb)` and takes none of the rest; a recognised verb never gives `Unknown` |
| Commands.Decode | src/cmd/mod.rs:79-110 | a frame that is not an Array, or an empty Array, is an error; a command comes only from an Array whose first element is a string |
| Commands.FromFrame | src/cmd/mod.rs:79-110 | the cursor form of `Decode` |
| Commands.DecodeClientFrame | src/cmd/mod.rs:79-110 | every command a client can send decodes back to itself, with SET's expiration as `Sent` keeps it |
| Commands.DecodeGet | src/cmd/get.rs:75-82 | GET round trip through `Command::try_from` |
| Commands.DecodeSet | src/cmd/set.rs:116-134 | SET round trip, with the expiration in whole milliseconds |
| Commands.DecodeDel | src/cmd/del.rs:98-107 | DEL round trip, key list preserved |
| Commands.DecodePublish | src/cmd/publish.rs:87-95 | PUBLISH round trip |
| Commands.DecodeSubscribe | src/cmd/subscribe.rs:137-146 | SUBSCRIBE round trip |
| Commands.DecodeUnsubscribe | src/cmd/subscribe.rs:303-313 | UNSUBSCRIBE round trip |
| Commands.DecodePing | src/cmd/ping.rs:72-81 | PING round trip, message preserved |
| Commands.VerbCaseInsensitive | src/cmd/mod.rs:87-96 | two verbs equal ignoring case decode alike |
| Commands.UnknownVerb | src/cmd/mod.rs:97-102 | an unrecognised verb decodes to `Unknown` of the lower-cased verb, whatever follows it |
| Commands.NameOfDecoded | src/cmd/mod.rs:58-69 | `get_name` is the lower-cased verb, except that PUBLISH is named "pub" |
| Commands.DecodeVerbLeftover | src/cmd/mod.rs:105 | a recognised command with elements left over fails in `finish` |
| Commands.TrailingArgument | src/cmd/mod.rs:105 | GET, PUBLISH, or PING with a message, fail when one more argument is sent |
| Commands.ClientFrameEncodable | src/cmd/mod.rs:79-110 | every command's frame can be written and read back |
| Commands.OverTheWire | src/connection.rs:46-111 | a command's frame written to the wire is read back in full and decodes to the same command |
| Database.FirstExists | src/db.rs:246-248 | a non-empty deadline set has a first element |
| Database.PurgeStep | src/db.rs:223-232 | removing a passed deadline and its entry keeps the mirror invariant and the purge's progress |
| Database.PurgeDone | src/db.rs:221-235 | when the first deadline is in the future, exactly the expired entries and their deadlines are gone |
| Database.DropDeadline | src/db.rs:137-144 | removing a key's old deadline is removing every pair for that key |
| Database.StoreMirrors | src/db.rs:137-149 | replacing an entry and its deadline keeps the mirror invariant |
| Database.Db.constructor | src/db.rs:91-105 | an empty database, not shut down |
| Database.Db.Get | src/db.rs:110-119 | the stored value exactly when the key is present, expired or not |
| Database.Lookup | src/db.rs:110-119 | a value exactly when the key is stored |
| Database.Db.NextExpiration | src/db.rs:246-248 | the earliest pending deadline, or `None` when there is none |
| Database.Db.Set | src/db.rs:121-157 | the key maps to the new value and deadline and nothing else changes; the deadline set mirrors the entries; the sweeper is notified exactly when a deadline is given and it is earlier than every pending one |
| Database.Db.Subscribe | src/db.rs:162-183 | a channel gets one more receiver and is created on first use; channels are never removed |
| Database.Db.DropReceiver | src/cmd/subscribe.rs:204 | dropping a stream drops one receiver of its channel |
| Database.Db.Publish | src/db.rs:186-196 | the receiver count of an existing channel, 0 for an unknown one |
| Database.PublishToUnknownChannel | src/db.rs:186-196 | for a channel never subscribed to, the code as written unwraps `None`; the corrected one gives 0 |
| Database.Db.ShutdownPurgeTask | src/db.rs:199-206 | sets the shutdown flag |
| Database.Db.PurgeExpiredKeys | src/db.rs:211-235 | after shutdown, `None` and nothing changes; otherwise exactly the entries due at or before `now` are removed, with their deadlines, and the result is the earliest remaining deadline |
| SubscribeMode.Remaining | src/cmd/subscribe.rs:203-208 | unsubscribing leaves a subset of the subscriptions |
| SubscribeMode.RemainingStep | src/cmd/subscribe.rs:203-206 | each UNSUBSCRIBE step removes exactly its channel |
| SubscribeMode.UnsubscribeAbsent | src/cmd/subscribe.rs:204 | removing a channel not subscribed to changes nothing |
| SubscribeMode.Drain | src/cmd/subscribe.rs:199-208 | while an empty UNSUBSCRIBE runs, the count after the i-th reply is the subscription count less i |
| SubscribeMode.UnsubscribeAll | src/cmd/subscribe.rs:199-208 | an empty UNSUBSCRIBE ends with no subscriptions, counting down to 0 |
| SubscribeMode.Enumerate | src/cmd/subscribe.rs:200 | lists every subscribed channel exactly once |
| SubscribeMode.Session.constructor | src/cmd/subscribe.rs:42-47 | the queued channels of SUBSCRIBE, and no stream yet |
| SubscribeMode.Session.SubscribeToChannel | src/cmd/subscribe.rs:149-177 | adds the channel, takes a receiver unless it replaces an earlier stream for the same channel, and replies with the number of channels afterwards |
| SubscribeMode.Session.Unsubscribe | src/cmd/subscribe.rs:203-208 | removes each channel in turn, drops the receivers of those removed, and replies with the remaining count after each |
| SubscribeMode.Session.SubscribePending | src/cmd/subscribe.rs:52-54 | every queued channel is subscribed to, in order, and the queue is emptied |
| SubscribeMode.Session.Close | src/cmd/subscribe.rs:42-85 | when `apply` returns, every receiver still held is dropped |
| SubscribeMode.Session.HandleCommand | src/cmd/subscribe.rs:182-216 | a frame that does not decode fails with the decode error and writes nothing; SUBSCRIBE only queues its channels; UNSUBSCRIBE removes the listed channels, or every channel when none is listed, replying for each; every other command, PING included, gets the unknown-command error |
| SubscribeMode.Session.Step | src/cmd/subscribe.rs:61-83 | one branch of the `select!`, as `Takes` says: a message on a subscribed channel is forwarded and one on another channel is not seen; shutdown ends with `Ok`; a read failure, end of stream or undecodable frame ends the session as the code does; a command is handled |
| SubscribeMode.Session.Run | src/cmd/subscribe.rs:42-85 | the session is related to the events by `SessionRuns`: each event it takes is a `Takes` turn from the drained state before it, the last one ends it, and then nothing stays subscribed; every receiver taken is given back once it returns, and while it waits each subscription holds one; the output only grows |
| SubscribeMode.Session.Listen | src/cmd/subscribe.rs:49-84 | the loop of `apply` over the events is related to them by `SessionRuns`, the channels still held being dropped when it returns |
| SubscribeMode.Session.Round | src/cmd/subscribe.rs:52-83 | one pass of the loop: the queued channels are subscribed to, then one `Takes` turn from that drained state; a published message never ends the session |
| SubscribeMode.RunStopsAtShutdown | src/cmd/subscribe.rs:61-83 | a session ends at the first shutdown signal it takes, with `Ok`, and never on a published message; one still waiting has taken no shutdown |
| SubscribeMode.PublishedForwarded | src/cmd/subscribe.rs:52-66 | a client subscribed to one channel on which a message is published is sent the confirmation with count 1, then the message, and the session keeps waiting |
| SubscribeMode.ShutdownFirst | src/cmd/subscribe.rs:52-81 | a shutdown as the first event ends the session with `Ok` after the initial channels are confirmed, and nothing stays subscribed |
| SubscribeMode.SubscribeAccounted | src/cmd/subscribe.rs:149-177 | each subscription holds exactly one receiver, after a SUBSCRIBE as before |
| SubscribeMode.ReleaseAccounted | src/cmd/subscribe.rs:203-208 | the same after an UNSUBSCRIBE |
| Execution.Reply | src/cmd/mod.rs:43-55 | SET and DEL reply "OK"; GET replies `Null` exactly when the key is absent; PUBLISH replies an Integer; an unknown command an Error |
| Execution.Apply | src/cmd/mod.rs:43-55 | the database and connection after the command are related to those before by `Applies`: UNSUBSCRIBE is an error and changes nothing; SUBSCRIBE runs subscribe mode over the events that follow and leaves the entries alone; SET stores its entry and replies "OK"; every other command writes its `Reply` and changes nothing else; the database invariant holds and the output only grows |
| Execution.ApplyStopsAtShutdown | src/cmd/mod.rs:43-55 | only SUBSCRIBE takes events, and is still waiting only when it took them all; no shutdown is passed over; a shutdown taken last gives `Ok`; once it returns the receiver counts are as before |
| Execution.EnterSubscribeMode | src/cmd/mod.rs:49 | SUBSCRIBE runs a new session over its channels, related to the events by `SessionRuns`, and leaves the entries alone |
| Server.BackoffsSum | src/server.rs:214-233 | the waits add up to one less than the next power of two |
| Server.BackoffsBounded | src/server.rs:215-231 | every wait is a power of two between 1 and 64 |
| Server.Threshold | src/server.rs:221-231 | the backoff passes 64 on the eighth attempt and not before |
| Server.Accept | src/server.rs:214-233 | returns the first attempt that succeeds, after waiting 1, 2, 4, ... seconds, and no earlier attempt succeeded; gives up only when all eight attempts failed, after waits of 1 to 64 seconds |
| Server.GiveUp | src/server.rs:210-233 | a listener that always fails is tried 8 times, with waits adding up to 127 seconds, the last 64 |
| Server.Outcome | src/server.rs:249-280 | `run` goes on after `apply` only when `apply` returned `Ok` without taking the shutdown; an error ends it with that error, and a subscribe mode still waiting leaves it waiting |
| Server.Handler.constructor | src/server.rs:186-194 | a handler has not seen the shutdown signal |
| Server.Handler.Run | src/server.rs:247-284 | after shutdown, `Ok` at once with nothing read; otherwise the run is related to the events by `HandlerRuns`: a chain of turns, each as `Serves` says, that either used up the events or ended with the turn that returned; no shutdown is passed over; a shutdown taken last ends it with `Ok` and sets the flag; once it returns every receiver it took is given back; the output only grows |
| Server.Handler.Turn | src/server.rs:249-280 | one turn is as `Serves` says for its event: shutdown sets the flag and ends the run with `Ok`; a published message changes nothing; an incoming frame is served; no shutdown inside the events it takes is passed over |
| Server.Handler.Serve | src/server.rs:251-280 | the first frame of the unread bytes is read and its bytes consumed; a failed read, the end of the stream or a frame that is not a command ends the run with that outcome; a command is applied |
| Server.Handler.Dispatch | src/server.rs:280 | the command is applied as `Applies` says and the run goes on or ends as `Outcome` says; the flag is set exactly when subscribe mode took the shutdown |
| Server.Handler.Advance | src/server.rs:249-280 | with no event left the run keeps waiting; otherwise one more turn either ends the run, as `HandlerRuns` says over every turn so far (with `Ok` and the flag set when the event it stopped at is a shutdown), or extends the chain of turns by one at a later event |
| Server.ReadsClientCommand | src/connection.rs:46-66 | the bytes a client writes for a command, whatever follows them, are read as its frame, which decodes to what the server receives, and what follows stays unread |
| Server.ClientCommandServed | src/server.rs:251-280 | a client command answered with one frame is read, decoded and applied in one turn that does not end the run: its `Reply` is written, the bytes after it stay unread, and only SET changes the entries |
| Server.HandlerAnswersOne | src/server.rs:247-284 | a run whose one event brings a client command answered with one frame writes that command's `Reply`, takes the event, and keeps waiting |
| Client.Response | src/clients/client.rs:355-372 | an Error frame becomes a server error with its text, a closed connection `ConnectionReset`, a failed read stays a read failure, and any other frame passes through |
| Client.PingValue | src/clients/client.rs:102-112 | accepts exactly a Simple or Bulk |
| Client.GetValue | src/clients/client.rs:134-152 | Simple or Bulk give the value, `Null` gives `None`, anything else is unexpected |
| Client.OkValue | src/clients/client.rs:248-262 | succeeds exactly on `Simple("OK")` |
| Client.IntegerValue | src/clients/client.rs:284-298 | succeeds exactly on an Integer, giving its value |
| Client.Confirmations | src/clients/client.rs:319-350 | succeeds exactly when the i-th reply is an Array naming "subscribe" and the i-th channel, for every i; a failure stops at the first bad reply |
| Client.Retain | src/clients/client.rs:465-470 | `retain` keeps exactly the names that differ from the confirmed channel |
| Client.UnsubscribeStep | src/clients/client.rs:451-476 | a confirmation succeeds only when the list shrinks by exactly one; an empty list is an error |
| Client.Unsubscriptions | src/clients/client.rs:451-476 | success reads every expected confirmation and shortens the list by their number; an error stops early |
| Client.MessageOf | src/clients/client.rs:384-402 | ["message", channel, content] is a message, a closed connection `Ok(None)`, anything else an error |
| Client.Client.constructor | src/clients/client.rs:70-94 | nothing is sent yet |
| Client.Client.ReadResponse | src/clients/client.rs:355-372 | takes one reply and classifies it with `Response` |
| Client.Client.Ping | src/clients/client.rs:102-112 | sends ["ping", msg?] and checks the one reply with `PingValue` |
| Client.Client.Get | src/clients/client.rs:134-152 | sends ["get", key] and checks the one reply with `GetValue` |
| Client.Client.Set | src/clients/client.rs:179-183 | sends the SET frame and checks the one reply with `OkValue` |
| Client.Client.SetCmd | src/clients/client.rs:248-262 | the same for a SET with any expiration (`set_expires`) |
| Client.Client.Del | src/clients/client.rs:186-202 | sends ["del", keys...] and checks the one reply with `OkValue` |
| Client.Client.Publish | src/clients/client.rs:284-298 | sends ["publish", channel, message] and checks the one reply with `IntegerValue` |
| Client.Client.SubscribeCmd | src/clients/client.rs:319-350 | sends ["subscribe", channels...] and reads one confirmation per channel, in order, stopping at the first bad one |
| Client.Client.Subscribe | src/clients/client.rs:306-316 | a confirmed SUBSCRIBE gives a new subscriber listing exactly those channels |
| Client.Subscriber.constructor | src/clients/client.rs:306-316 | the subscriber's list is the channels confirmed |
| Client.Subscriber.NextMessage | src/clients/client.rs:384-402 | takes one reply and classifies it with `MessageOf` |
| Client.Subscriber.Subscribe | src/clients/client.rs:422-430 | appends the channels to the list exactly when every confirmation arrives |
| Client.Subscriber.Unsubscribe | src/clients/client.rs:434-479 | expects one confirmation per listed channel, or per subscribed channel when none is listed, and keeps the list as `Unsubscriptions` says |
| Client.Subscriber.Confirm | src/clients/client.rs:452-475 | one turn of the loop: one reply read, the named channel retained out |
| Client.ConfirmationHeads | src/cmd/subscribe.rs:222-246 | the server's confirmations and messages start with their verb and channel |
| Client.GetAnswer | src/clients/client.rs:134-152 | the reply the server writes for GET reads back on the client as the stored value |
| Client.PingAnswer | src/clients/client.rs:102-112 | the reply to PING reads back as the message, or "PONG" |
| Client.OkAnswer | src/clients/client.rs:248-262 | the server's "OK" is accepted |
| Client.PublishAnswer | src/clients/client.rs:284-298 | the server's count reads back as that number |
| Client.ServerErrorAnswer | src/clients/client.rs:355-372 | an Error frame fails every command with its text |
| Client.ConfirmsOwnChannel | src/clients/client.rs:328-347 | a SUBSCRIBE confirmation confirms only its own channel, and an UNSUBSCRIBE reply never confirms a SUBSCRIBE |
| Client.SubscribeConfirmed | src/clients/client.rs:319-350 | the server's confirmations, in order, are all accepted |
| Client.RetainOne | src/clients/client.rs:465-470 | in a list without duplicates, `retain` removes exactly one name |
| Client.RetainNone | src/clients/client.rs:465-470 | a name not in the list leaves it unchanged |
| Client.RetainTwice | src/clients/client.rs:465-470 | a name listed twice is removed twice |
| Client.RetainDrops | src/clients/client.rs:465-470 | a listed name always shrinks the list |
| Client.UnsubscribeConfirmed | src/clients/client.rs:451-476 | confirmations of distinct subscribed channels all succeed and remove exactly those channels |
| Client.UnsubscribeEverything | tests/client.rs:88-97 | an empty UNSUBSCRIBE, confirmed for every channel, empties the list |
| Client.DuplicateRejected | src/clients/client.rs:457-470 | a channel listed twice fails its first confirmation and is removed |
| Client.MessageDelivered | src/clients/client.rs:384-402 | the server's message frame reads back as a message with that channel and content |

## Left out

- Socket I/O, flushing and write errors are left out. Input is a sequence of
  byte chunks, each at least one byte, and output is a byte sequence.
- The racing of `select!` is left out: in `Handler::run`, in subscribe mode,
  and in the sweeper. Each is an explicit event (`Incoming`, `Published`,
  `ShutdownSignal`).
- The order of `StreamMap` keys is not modelled, because it is not
  specified. An empty UNSUBSCRIBE lists the channels in some order.
- Broadcast lag is left out.
- Outside subscribe mode a `Published` event does nothing, because no
  receiver is held there.
- Wall-clock time, sleeping and `Duration` are not modelled. `now` is a
  parameter in whole milliseconds, EX n is n·1000 ms, and `accept` returns
  its waits instead of sleeping.
- Tasks, `Mutex`, `Notify`, the connection semaphore and shutdown
  completion are left out. Each database operation is one atomic step.
- The sweeper task is left out; `Db.Set` returns the notify decision.
- `src/shutdown.rs` is not part of this model. The handler keeps its flag
  as a field.
- The blocking and buffered clients, `Subscriber::into_stream`, and
  `src/bin/` are not part of this model.
- Bytes.ToLower: only ASCII letters change case. No verb, EX or PX
  matches a non-ASCII letter.
- Decimal.Atoi: a leading run of decimal digits. The sign handling of the
  `atoi` crate is not modelled.
- Frames.Check: lengths are unbounded integers, so the `usize` overflow
  of `len + 2` for a huge bulk length is not modelled.
- The code has no length limit, and neither does the model.
- CmdDel.Apply: it only replies "OK". `Db::del`, which it calls, is not
  defined in `src/db.rs`, so nothing is removed.
- Server.Handler.Serve decodes with `Command::try_from`, the only decoder
  defined. It calls `Command::from_frame`, which `src/cmd/mod.rs` does
  not define.
- Client.Response: `frame.to_error()` is not defined. An unexpected frame
  becomes `Unexpected(frame)`, and the text of `From<&Frame> for Error`
  is left out.
- Client.Confirmations compares a channel by `PartialEq<&str>`. The code
  compares a `Frame` with a `String` (`*schannel == channel`).
- `Display` formatting is left out, as is every error text other than
  the unknown-command reply and "connection reset by peer".
- Client.MessageOf keeps the channel and content frames. The code renders
  them with `to_string`.
- Client.Client.ReadResponse: it requires a reply to be present, because
  a read with nothing to read waits forever. The `requires` on the reply
  count of the client's methods means the same.
- Server.Handler.Run: a run over a finite list of events may end
  `StillWaiting`.
- Server.Accept: the doc comment of `accept` says it gives up after the
  sixth attempt; the code makes eight, and the model follows the code.
- SubscribeMode.Session.HandleCommand: PING gets the unknown-command
  error. The doc comment says PING is allowed in subscribe mode; the
  model follows the code.
- Connections.Connection.ReadFrame: `read_buf` returning 0 is the end of
  the chunk sequence.
- Connections.ParseStep follows the corrected check, not the code as
  written. As written, "+\xFF\r\n" passes `check` and the parse then panics;
  "$-12\r\n" parses as `Null` after `check` advanced only 5 bytes. The model
  reports an error on both (see Findings).
- Connections.Connection.ParseFrame follows the corrected check. As
  written, it panics on "+\xFF\r\n", and on "$-12\r\n" it returns `Null`,
  drops 5 bytes and leaves "\n" in the buffer. The model returns an error
  on both and leaves the buffer as it was.
- Connections.Connection.ReadFrame follows the corrected check. As written,
  a read of "+\xFF\r\n" panics, and a read of "$-12\r\n" returns `Null`,
  after which the next read fails on the invalid type byte "\n". The model
  fails the first read on both with the error of the corrected check.

## Findings

| source | as written | input that shows it | evidently intended | confidence | as-written member | corrected member |
|---|---|---|---|---|---|---|
| src/frame.rs:66-116 | `check` accepts any Simple or Error line, but the parse `unwrap`s `String::from_utf8` of it | "+\xFF\r\n": check ends at 4, the parse panics | a line that is not UTF-8 is a protocol error (`From<FromUtf8Error> for FrameError` exists for it) | not executed | FrameTheory.CheckPassesNonUtf8Line | FrameTheory.StrictCheckAgreesWithParse |
| src/frame.rs:79-81 | after "$-" the check skips a fixed 4 bytes, while the parse reads up to the next "\r\n" | "$-12\r\n": check ends at 5, the parse at 6, so the buffer loses track of the frame boundary | only "$-1\r\n" is a null bulk; anything else after "$-" is an invalid frame | not executed | FrameTheory.CheckMisreadsNull | FrameTheory.StrictCheckAgreesWithParse |
| src/db.rs:186-196 | `publish` `unwrap`s the lookup of the channel | PUBLISH on a channel nobody ever subscribed to: `None.unwrap()` panics | 0 receivers, as the comment beside the `unwrap` says | not executed | Database.PublishToUnknownChannel | Database.Db.Publish |
