# SMPPSender decision rules, in Dafny

A model of the decision logic of `SMPPSender`, the command-line demonstration
client of the opensmpp toolkit. It covers the rules the client itself implements:

- how `main` parses its command-line options and when it prints its usage line and exits;
- how a comma-separated `-dest` argument is split into destination numbers;
- how `submit` chooses the source and destination addresses;
- how `loadProperties` normalises `bind-mode` and converts `receive-timeout`;
- how the `bound` flag guards `bind()` and `unbind()`.

The toolkit (`Session`, `TCPIPConnection`, the PDU classes) is not part of the
model. Its answers are inputs: the command status of a BIND response, or an
exception from bind or unbind. The same goes for the configuration file's parsed
values and the library's `Byte.parseByte`.

Files, one module each:

- `wrappers.dfy` (`Wrappers`): Option and Result.
- `javalang.dfy` (`JavaLang`): Java `int` wrap-around, truncating division, and ASCII
  versions of `startsWith`, `equalsIgnoreCase` and `matches("\\d+")`.
- `args.dfy` (`Args`): the argument loop.
- `tokenizer.dfy` (`Tokenizer`): the `StringTokenizer` loop.
- `addressing.dfy` (`Addressing`): sender and destination addresses.
- `settings.dfy` (`Settings`): the `bind-mode` and `receive-timeout` rules.
- `binding.dfy` (`Binding`): the `bound` flag's transitions and their history.
- `sender.dfy` (`SmppSender`): the `Sender` class with its fields, and `main` as `RunMain`.

Constants follow the SMPP v3.4 specification:

- `ESME_ROK` is 0 (section 5.1.3).
- TON 1 is International and TON 5 is Alphanumeric (section 5.2.5).
- NPI 1 is ISDN (E.164) and NPI 0 is Unknown (section 5.2.6).

`Data.RECEIVE_BLOCKING` is the toolkit's own constant and its value is not shown.
It is therefore a parameter (`blocking`), and every property is proved for any
value of it.

The comment on the field `bindOption` (SMPPSender.java lines 83-89) lists the
modes as transmitter (t), receiver (r) and transciever (tr). `loadProperties`
accepts both the long names, with that spelling, and the codes. Behaviour of the code that a reader might not expect, all proved as lemmas:

- A recognised option in last position throws an index exception; it does not lead to the usage message.
- The usual spelling "transceiver" is reported as a wrong `bind-mode` value and becomes "t".
- A configured timeout from 2147484 to 4294967 seconds overflows `int` and turns negative; larger values wrap modulo 2^32 again.
- With `receive-timeout` absent, a current timeout from -1999 to -1000 ms would become blocking. The program never meets this case: `loadProperties` runs only from the constructor (line 138), while the timeout still holds its initial blocking value (line 131).
- A sender written `++1` is alphanumeric "+1", which a second normalisation would turn into International "1". Only `submit` normalises senders, and `main` never calls it.

## Model

| member | source | states |
|---|---|---|
| `JavaLang.StartsWith` | client/src/main/java/org/smpp/client/SMPPSender.java:157 | `startsWith`: the prefix fits and agrees character by character |
| `JavaLang.EqualsIgnoreCase` | client/src/main/java/org/smpp/client/SMPPSender.java:159-173 | `compareToIgnoreCase(..) == 0` / `equalsIgnoreCase` on ASCII: equal strings match, and a match has the same length and the same non-letters |
| `JavaLang.AllDigits` | client/src/main/java/org/smpp/client/SMPPSender.java:335 | `matches("\\d+")`: a match is non-empty and starts with a digit |
| `JavaLang.Wrap32` | client/src/main/java/org/smpp/client/SMPPSender.java:516-522 | Java `int` arithmetic: values in range are unchanged, others differ by a multiple of 2^32 |
| `JavaLang.JavaDiv` | client/src/main/java/org/smpp/client/SMPPSender.java:516 | Java division by a positive divisor truncates toward zero (bounds of the quotient for both signs) |
| `Args.KeyOf` | client/src/main/java/org/smpp/client/SMPPSender.java:158-173 | each option is selected exactly when its name matches case-insensitively; `dest` and `destination` both select the destination |
| `Args.OptionOf` | client/src/main/java/org/smpp/client/SMPPSender.java:157-158 | only an argument starting with `-` can be an option, and then its name is the rest of the argument |
| `Args.Assign` | client/src/main/java/org/smpp/client/SMPPSender.java:160-172 | an option's assignment fails exactly for a TON/NPI value `Byte.parseByte` rejects; otherwise that option gets the value and all others stay |
| `Args.ParseFrom` | client/src/main/java/org/smpp/client/SMPPSender.java:156-175 | the scan fails with an index error only at a recognised option that is the last argument, and with a number error only on an argument's text |
| `Args.ParseArgs` | client/src/main/java/org/smpp/client/SMPPSender.java:156-175 | the loop (index advanced twice for an option and its value) computes the scan's outcome: the parsed values, or the exception that ends it |
| `Args.ParseAppend` | client/src/main/java/org/smpp/client/SMPPSender.java:156-175 | a cleanly scanned prefix followed by more arguments is scanned by continuing from the prefix's result |
| `Args.OptionTakesNextArgument` | client/src/main/java/org/smpp/client/SMPPSender.java:159-173 | a recognised option takes the argument after it as its value, even one starting with `-` |
| `Args.SkipsUnrecognised` | client/src/main/java/org/smpp/client/SMPPSender.java:156-175 | an unknown option or a non-option argument is skipped: removing it changes nothing |
| `Args.TrailingOptionFails` | client/src/main/java/org/smpp/client/SMPPSender.java:160-172 | a recognised option in last position ends the loop with an index-out-of-bounds error |
| `Args.UnnamedKeepsValue` | client/src/main/java/org/smpp/client/SMPPSender.java:156-175 | arguments that never name an option leave that option's value alone |
| `Args.LastOccurrenceWins` | client/src/main/java/org/smpp/client/SMPPSender.java:159-173 | the last occurrence of an option decides its value; earlier occurrences are overridden |
| `Tokenizer.RunLength` | client/src/main/java/org/smpp/client/SMPPSender.java:184-186 | the length of the leading run of non-comma characters: all before it are non-commas, and a comma ends it |
| `Tokenizer.Tokens` | client/src/main/java/org/smpp/client/SMPPSender.java:184-187 | every destination is non-empty and contains no comma |
| `Tokenizer.SplitDestinations` | client/src/main/java/org/smpp/client/SMPPSender.java:183-188 | the tokenizer loop (skip delimiters, take the run up to the next comma, append) collects exactly the tokens of the string |
| `Tokenizer.RunLengthAt` | client/src/main/java/org/smpp/client/SMPPSender.java:184-186 | the run length is the unique position satisfying its three properties |
| `Tokenizer.TokensAreNonEmptySegments` | client/src/main/java/org/smpp/client/SMPPSender.java:184-187 | the destinations are the comma-separated segments in order, with the empty ones (leading, trailing, repeated commas) dropped |
| `Tokenizer.JoinSegments` | client/src/main/java/org/smpp/client/SMPPSender.java:184-187 | the reference segments joined with commas give back the argument |
| `Tokenizer.TokensOfJoin` | client/src/main/java/org/smpp/client/SMPPSender.java:184-187 | splitting a comma-joined list of non-empty comma-free numbers gives that list back |
| `Addressing.StripPlus` | client/src/main/java/org/smpp/client/SMPPSender.java:330-331 | exactly one leading `+` is removed, and nothing else changes |
| `Addressing.SenderAddress` | client/src/main/java/org/smpp/client/SMPPSender.java:329-347 | no sender gives the configured source address unchanged; otherwise the limit 11 is chosen exactly when TON is 5 |
| `Addressing.DestAddress` | client/src/main/java/org/smpp/client/SMPPSender.java:349-352 | the destination is always TON 1, NPI 1, with the default constructor |
| `Addressing.SubmitAddressing` | client/src/main/java/org/smpp/client/SMPPSender.java:321-352 | the destination is 1/1 with one leading `+` removed; no sender gives the configured source address; a sender's address is the sender without one leading `+`, and 5/0 when that is not all digits |
| `Addressing.SenderRule` | client/src/main/java/org/smpp/client/SMPPSender.java:329-344 | a `+` is dropped and gives 1/1; a non-digit (or empty) remainder gives 5/0 with limit 11, overriding both; an all-digit sender without `+` keeps the caller's TON/NPI |
| `Addressing.NumericSenderIsDigits` | client/src/main/java/org/smpp/client/SMPPSender.java:335-338 | a sender whose TON is not 5 is one or more digits, so carries no `+` |
| `Addressing.SenderNormalFormStable` | client/src/main/java/org/smpp/client/SMPPSender.java:329-344 | normalising the result again with its own TON/NPI changes nothing, unless it still starts with `+` |
| `Addressing.DoublePlusSenderNotStable` | client/src/main/java/org/smpp/client/SMPPSender.java:330-338 | `++1` becomes alphanumeric `+1`, and `+1` with 5/0 becomes International `1` |
| `Addressing.DestStripsOnePlus` | client/src/main/java/org/smpp/client/SMPPSender.java:349-351 | the destination loses at most one leading `+`; a `+` in front of a number without one makes no difference |
| `Settings.NormaliseBindMode` | client/src/main/java/org/smpp/client/SMPPSender.java:490-505 | the result is t, r or tr ignoring case, and a code given is kept as written |
| `Settings.BindOptionSetting` | client/src/main/java/org/smpp/client/SMPPSender.java:489-506 | `bindOption` becomes a code: the normalised property when present; with the property absent a current code stays |
| `Settings.BindModeIdempotent` | client/src/main/java/org/smpp/client/SMPPSender.java:490-505 | normalising twice is normalising once |
| `Settings.BindModeCodes` | client/src/main/java/org/smpp/client/SMPPSender.java:490-505 | tr exactly for "transciever" in any case or "tr"; r exactly for "receiver" or "r"; t for "transmitter", "t" or anything unrecognised |
| `Settings.TransceiverSpellingFallsBack` | client/src/main/java/org/smpp/client/SMPPSender.java:494-505 | "transceiver" falls back to t, while "TransCiever" gives tr |
| `Settings.ReceiveTimeoutSetting` | client/src/main/java/org/smpp/client/SMPPSender.java:513-523 | a configured -1 gives blocking; a configured n gives n*1000 ms when that fits; with the property absent a blocking timeout stays blocking |
| `Settings.SecondsFromTimeout` | client/src/main/java/org/smpp/client/SMPPSender.java:513-517 | a whole-second, non-blocking timeout converts to exactly its number of seconds |
| `Settings.TimeoutFromSeconds` | client/src/main/java/org/smpp/client/SMPPSender.java:519-523 | -1 gives the blocking value; otherwise an `int` congruent to seconds times 1000 modulo 2^32, and equal to it when that fits |
| `Settings.ConfiguredBlocking` | client/src/main/java/org/smpp/client/SMPPSender.java:518-520 | a configured -1 gives `RECEIVE_BLOCKING` |
| `Settings.ConfiguredSeconds` | client/src/main/java/org/smpp/client/SMPPSender.java:518-522 | a configured n other than -1 gives n*1000 ms when that fits in an `int` |
| `Settings.ConfiguredSecondsOverflow` | client/src/main/java/org/smpp/client/SMPPSender.java:522 | 2147484 to 4294967 seconds wrap to the negative timeout n*1000 - 2^32 |
| `Settings.AbsentKeepsTimeout` | client/src/main/java/org/smpp/client/SMPPSender.java:513-523 | with the property absent, a blocking or whole-second timeout is left unchanged (except -1000) |
| `Settings.AbsentMinusOneSecondBlocks` | client/src/main/java/org/smpp/client/SMPPSender.java:513-523 | with the property absent, a timeout of -1999 to -1000 ms becomes blocking |
| `Settings.SecondsRoundTrip` | client/src/main/java/org/smpp/client/SMPPSender.java:513-523 | seconds to milliseconds and back is the identity where the product fits and is not the blocking value |
| `Binding.AfterBind` | client/src/main/java/org/smpp/client/SMPPSender.java:247-276 | bind while bound changes nothing; otherwise bound exactly when the response status is ESME_ROK |
| `Binding.AfterUnbind` | client/src/main/java/org/smpp/client/SMPPSender.java:293-305 | unbind while not bound changes nothing; otherwise cleared exactly when the session's unbind returns a response (a null response throws at line 304 and leaves `bound` set) |
| `Binding.BindReportOf` | client/src/main/java/org/smpp/client/SMPPSender.java:247-278 | "already bound" exactly while bound; accepted exactly for an ESME_ROK response; rejected with the response's status for any other status; otherwise the failure message |
| `Binding.UnbindReportOf` | client/src/main/java/org/smpp/client/SMPPSender.java:293-307 | "not bound" exactly while not bound; unbound exactly when bound and the session's unbind returns a response; otherwise the failure message |
| `Binding.BoundIffBindStands` | client/src/main/java/org/smpp/client/SMPPSender.java:245-309 | after any sequence of calls, bound exactly when some bind got ESME_ROK and no unbind returned after it |
| `SmppSender.Sender.constructor` | client/src/main/java/org/smpp/client/SMPPSender.java:137-139 | a new sender is not bound and has the `bind-mode` and `receive-timeout` settings loaded over the defaults t and blocking, and records whether the `bind-mode` warning was printed |
| `SmppSender.Sender.LoadProperties` | client/src/main/java/org/smpp/client/SMPPSender.java:489-523 | `bindOption` and `receiveTimeout` are set by the two rules from their old values; the warning about `bind-mode` is printed exactly for an unrecognised value; `bound` is untouched |
| `SmppSender.Sender.Bind` | client/src/main/java/org/smpp/client/SMPPSender.java:245-280 | the new `bound` and the message printed follow the bind rule |
| `SmppSender.Sender.Unbind` | client/src/main/java/org/smpp/client/SMPPSender.java:290-309 | the new `bound` and the message printed follow the unbind rule |
| `SmppSender.RunMain` | client/src/main/java/org/smpp/client/SMPPSender.java:147-213 | an argument error exactly when the loop throws; usage and exit 0 exactly when it ends without `dest` or `message`, before any session work; otherwise the split destinations, the settings (and `bind-mode` warning) from the file `-file` names, an unbind report exactly after a successful bind, and the final `bound` |

## Left out

- The org.smpp toolkit is not modelled: `Session`, `TCPIPConnection`, the PDU classes, `Data`, and the length checks of `Address` and `AddressRange`. Bind and unbind results are inputs, and `Data.RECEIVE_BLOCKING` is the parameter `blocking`.
- The SMPP protocol engine is not modelled: PDU encoding, sequence numbers, response matching and session states all live in the toolkit, which is not part of this model.
- I/O is replaced by inputs and returned values. Reading the properties file becomes the input `loadFile`. The messages of `bind()`, `unbind()` and the `bind-mode` warning become returned reports; the other console logging is not modelled. `Thread.sleep(3000L)` and the `System.exit(0)` call are not modelled; the exit is the `UsageExit` outcome.
- `Byte.parseByte` is the parameter `parseByte`. The configuration's `Integer.parseInt` values arrive already parsed. A `NumberFormatException` from a malformed configuration value is therefore not modelled; it would escape the constructor.
- The remaining configuration keys are plain copies into toolkit objects and are not modelled: `ip-address`, `port`, `system-id`, `password`, `addr-ton`, `addr-npi`, `address-range`, `source-*`, `destination-*`, `service-type`, `system-type`.
- `getValidityPeriod` is not modelled: it is date formatting by the Java library.
- The hard-coded test message bytes of `submit` and their GSM 7-bit encoding are not modelled. The other SUBMIT_SM fields, the submit response and the `enquireLink` call are toolkit calls and are not modelled either. `main` never calls `submit`, because the submitting loop is commented out (lines 214-225), so `submit` appears only as `SubmitAddressing`.
- The bind request's fields (system id, password, interface version 0x34) and the replacement of the static `session` on each bind attempt are not modelled. `bind()` always sends a BindTransmitter whatever `bindOption` says, so the option is only recorded.
- Case folding is ASCII-only. `equalsIgnoreCase` and `compareToIgnoreCase` on non-ASCII letters are not modelled.
- Args.ParseArgs: the index error records the option text rather than the index; the index is always the number of arguments.
