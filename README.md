# smtp-client in Dafny

A model of the command/reply layer of the `smtp-client` package for Node.js: the class
`SMTPClient`, which drives an SMTP session over a line channel, and the errors it raises,
`GeneralError` and `SMTPResponseError`.

The model is split into modules.

- `Js` (js.dfy) states the JavaScript built-ins the client is written with, over Dafny strings:
  - `split` on one character, `join`, `substr`, `trim`, `toUpperCase`;
  - `parseInt` and number-to-string;
  - the `\s` class and `replace(/\s\s+/g, ' ')`.
- `Errors` (errors.dfy) holds the error records, built by constructors with default arguments.
- `Capabilities` (capabilities.dfy) holds the queries over the advertised capability list:
  - `hasExtension`;
  - `getDataSizeLimit`, for the SIZE extension of RFC 1870;
  - `getAuthMechanisms`, for the AUTH extension of RFC 4954.
- `Replies` (replies.dfy) decodes reply lines:
  - the reply format of section 4.2 of RFC 5321;
  - the enhanced status codes of RFC 2034 and RFC 1893;
  - the folding of a refused reply into an `SMTPResponseError`.
- `Commands` (commands.dfy) gives the exact text the client writes:
  - every command, CRLF-terminated;
  - the message body, where only the FIRST line that starts with `.` gets a second `.`;
  - the PLAIN credentials of section 2 of RFC 4616;
  - the host name rule of section 4.1.3 of RFC 2821.
- `Client` (client.dfy) is the class `SMTPClient`:
  - It has one method per verb: `connect`, `helo`, `ehlo`, `greet`, `mail`, `rcpt`, `noop`, `rset`, `quit`, `data`, `secure`, `authPlain` and `authLogin`.
  - The capability list is a field. Only `ehlo` and `secure` reassign it.
  - The channel is a scripted oracle held in two fields. `replies` holds the reply lines the next connects and writes receive. `handshakes` holds the outcomes of the next TLS negotiations.
  - A log, `calls`, records every connect, write and negotiation, each with its timeout.
  - An exhausted script stands for a channel that rejects.
- `Scenarios` (scenarios.dfy) holds concrete exchanges. Most come from the sessions the repository's tests run:
  - the greeting and EHLO with capabilities;
  - the two-line refusal "foo bar fin";
  - the SIZE limit;
  - the DATA exchange;
  - a refused LOGIN.

Every verb returns an `Outcome`, one of four kinds:

- `Ok(code)`.
- `Fail(Protocol(error))`: the server refused.
- `Fail(Local(message))`: a check failed before anything was written.
- `Fail(Channel)`: the channel rejected.

The contracts of the verbs state exactly what was written, what was consumed from the script, what the capability list became, and what came back. The functions they are stated with have their own properties proved as lemmas. Those lemmas cover round trips, such as decoding an enhanced line, unstuffing a stuffed body, and `parseInt` of a printed number. They also cover the order of the LOGIN challenges and the shape of error messages.

## Model

| member | source | states |
|---|---|---|
| Errors.GeneralError | src/errors.js:5-25 | the error's name is the empty string that `this.constructor.name` gives for the anonymous class assigned to `exports.GeneralError`; it keeps the message verbatim and carries the number 500 as its code |
| Errors.SMTPResponseError | src/errors.js:32-53 | the error's name is again the empty string, since this class is anonymous too; it stores the given message, code and enhanced code exactly; the code defaults to "500", the enhanced code to null |
| Errors.NamesAgree | src/errors.js:14-17 | both errors carry the same name, so only the kind of code (a string, not the number 500) tells a response error from a general one |
| Errors.ResponseErrorDefaults | src/errors.js:38-53 | with both defaults, a response error carries the string "500" and no enhanced code; it keeps the message a GeneralError would, but its code differs from the number 500 the superclass set |
| Capabilities.FirstToken | src/index.js:102 | `split(' ')[0]` is the text of the capability up to its first space, or all of it: a space-free prefix followed by a space or the end |
| Capabilities.FirstTokenOf | src/index.js:102 | the name of "name rest" is name, and a space-free capability is its own name |
| Capabilities.FindCapability | src/index.js:102 | `find` returns the first capability whose first token equals the name; no earlier one matches, and None means none does |
| Capabilities.HasExtension | src/index.js:101-103 | for a non-empty name, true exactly when some capability's first token equals it (case-sensitive); always false on an empty list |
| Capabilities.GetDataSizeLimit | src/index.js:109-117 | without a SIZE capability the limit is 0 |
| Capabilities.DataSizeLimitAdvertised | src/index.js:109-117 | when the first SIZE capability is "SIZE n", the limit is the integer n |
| Capabilities.NonEmpty | src/index.js:126 | `filter(e => !!e)` keeps a token exactly when it is one of the input's tokens and is not empty; it never lengthens the list, and a list with no empty token comes back unchanged |
| Capabilities.NonEmptyAppend | src/index.js:126 | the filter keeps the order: filtering a concatenation is filtering each part and concatenating |
| Capabilities.NormalizedToken | src/index.js:126 | `trim().toUpperCase()` leaves no lower-case ASCII letter and no whitespace at either end |
| Capabilities.NormalizedTokenChars | src/index.js:126 | the normalised name is exactly the upper-cased characters between the token's leading and trailing whitespace runs, and everything dropped is whitespace |
| Capabilities.WordNormalized | src/index.js:126 | a token without whitespace is only upper-cased |
| Capabilities.Normalized | src/index.js:126 | `map` gives one name per token, the name at each position being the normalised token at that position |
| Capabilities.GetAuthMechanisms | src/index.js:123-131 | no AUTH capability gives no mechanism; every mechanism is upper-cased and trimmed |
| Capabilities.AuthMechanismsAfterAuth | src/index.js:123-131 | the mechanisms are the non-empty tokens after AUTH, normalised, in their order |
| Capabilities.AuthMechanismsAdvertised | src/index.js:123-131 | a server whose first AUTH capability is "AUTH m1 m2 ..." (single-spaced words) gets back exactly m1, m2, ... upper-cased and in order; "AUTH " alone gives none |
| Capabilities.SplitNameWords | src/index.js:126 | splitting "name w1 w2 ..." at spaces gives the name and the words; with no words the trailing space leaves one empty token |
| Capabilities.NormalizedWords | src/index.js:126 | words without whitespace survive the filter and are only upper-cased, in order |
| Js.Split | src/index.js:102 | `split` gives at least one piece, and no piece holds the separator |
| Js.SplitHead | src/index.js:102 | the first piece is the prefix before the first separator, or the whole string when there is none |
| Js.JoinAppend | src/index.js:419 | `join` puts the separator between each piece and the next and nowhere else: a piece added at the end follows the join of the others and one separator |
| Js.JoinSplit | src/index.js:102 | joining the pieces of a split with the separator gives the string back |
| Js.SplitJoin | src/index.js:102 | splitting a join of separator-free pieces gives the pieces back |
| Js.TrimStart | src/index.js:126 | drops exactly the leading whitespace: what is dropped is all whitespace, and what is left does not start with whitespace |
| Js.TrimEnd | src/index.js:126 | drops exactly the trailing whitespace |
| Js.Trim | src/index.js:126 | the result neither starts nor ends with whitespace |
| Js.TrimSlice | src/index.js:126 | `trim` keeps one contiguous slice of the text, and everything before and after that slice is whitespace |
| Js.ToUpper | src/index.js:126 | same length; every lower-case ASCII letter becomes the letter 32 code points below, every other character is kept, so no lower-case letter remains and whitespace stays where it was |
| Js.DigitPrefix | src/index.js:112 | `parseInt` reads the longest prefix of digits of its radix |
| Js.ParseInt | src/index.js:112 | `parseInt` skips leading whitespace; with no digit or sign after it the result is NaN; a leading non-zero digit gives a non-negative integer, and `-` followed by one a non-positive integer |
| Js.Substr | src/index.js:144 | `substr(start)` is the suffix that follows the first `start` characters, and "" from the end on |
| Js.IntToDecimal | src/index.js:282 | number-to-string writes a non-empty string of decimal digits, after a `-` exactly when the number is negative |
| Js.NatToDecimal | src/index.js:282 | a number is written as a non-empty string of decimal digits with no leading zero |
| Js.ParseIntOfDecimal | src/index.js:112 | `parseInt` reads back every integer that number-to-string writes |
| Js.CollapseSpaceRuns | src/index.js:419 | `replace(/\s\s+/g, ' ')` never lengthens the text |
| Js.CollapseSpaceRunsSpec | src/index.js:419 | `replace(/\s\s+/g, ' ')` leaves no two whitespace characters in a row, keeps every other character in order, never lengthens the text, and starts with whitespace exactly when the text does |
| Js.CollapseSingleSpaced | src/index.js:419 | text with no two whitespace characters in a row is left as it is; with the row above, collapsing an already collapsed message changes nothing |
| Js.CollapseRun | src/index.js:419 | a run of two or more whitespace characters after a word becomes one space, and the rest is kept |
| Js.CollapseAppend | src/index.js:419 | a text that ends in a word collapses independently of what follows it |
| Js.CollapseAroundRun | src/index.js:419 | a whitespace run between two words survives as exactly one character (itself when alone, one space when longer), and each side collapses as if the other were absent |
| Js.CollapseJoin | src/index.js:419 | texts that begin and end in a word, joined by single spaces and collapsed, give each text collapsed on its own, joined by single spaces |
| Js.CollapseEachSingleSpaced | src/index.js:419 | texts already without two whitespace characters in a row are unchanged when collapsed one by one |
| Replies.ReplyCode | src/index.js:417 | the code is the first three characters of the line, or the whole line when it is shorter |
| Replies.ReplyClass | src/index.js:29 | `code.charAt(0) === '2'` (IsPositive) holds exactly when the reply line starts with '2', `charAt(0) === '3'` (IsIntermediate, src/index.js:290) exactly when it starts with '3', and never both |
| Replies.FirstSpace | src/index.js:154 | the position the regular expression's `[\s]` first matches: a whitespace character with none before it |
| Replies.LineRest | src/index.js:154 | what the greedy `(.+)` captures: the longest prefix with no line terminator |
| Replies.ParseReplyText | src/index.js:151-159 | without ENHANCEDSTATUSCODES the text is `line.substr(4)`. With it, a text is the non-empty single-line slice right after the first whitespace of `substr(4)`, ending at a line terminator or the end; there is no text exactly when there is no whitespace or nothing on the line follows it |
| Replies.ParseEnhancedReplyCode | src/index.js:142-145 | without ENHANCEDSTATUSCODES there is no enhanced code. With it, the enhanced code is the space-free prefix of `line.substr(4)` that ends at a space or the end of the line |
| Replies.EnhancedLineDecodes | src/index.js:142-159 | a line written as code, separator, enhanced code, space and text decodes back. With ENHANCEDSTATUSCODES it gives the enhanced code and the text. Without it, there is no enhanced code and the text still starts with the enhanced code. The reply code is the first three characters |
| Replies.ReplyTexts | src/index.js:419 | one text per reply line |
| Replies.ReplyTextsDecoded | src/index.js:419 | the text at each position is the decoded text of the line at that position, and "" where the line has none |
| Replies.NonSpacesJoin | src/index.js:419 | joining texts with spaces adds only whitespace |
| Replies.ReplyMessage | src/index.js:419 | the message of an error has no two whitespace characters in a row and keeps every other character of the lines' texts in order |
| Replies.ReplyMessageSeparated | src/index.js:419 | when every text begins and ends in a word, the message is the texts, each collapsed on its own, joined by single spaces, so no two texts are ever fused; texts already single-spaced come through unchanged |
| Replies.ResponseError | src/index.js:415-422 | the error is an SMTPResponseError, with its empty name and a string code. It takes its code and enhanced code from the LAST line and its message from all lines |
| Commands.HeloCommand | src/index.js:49 | the line is `HELO `, the name, CRLF; the name reads back from between the verb and CRLF |
| Commands.EhloCommand | src/index.js:73 | the line is `EHLO `, the name, CRLF; the name reads back from between the verb and CRLF |
| Commands.MailCommand | src/index.js:170-175 | the line is `MAIL FROM:<`, the sender, then `>` CRLF, or `> SMTPUTF8` CRLF when utf8 is asked; the sender reads back from between the brackets |
| Commands.RcptCommand | src/index.js:197 | the line is `RCPT TO:<`, the recipient, `>` CRLF; the recipient reads back from between the brackets |
| Commands.PlainCredentials | src/index.js:351 | the PLAIN message is NUL, user name, NUL, password: when neither holds a NUL, splitting it at NUL gives the empty identity, the user name and the password back |
| Commands.AuthPlainCommand | src/index.js:352 | the line is `AUTH PLAIN `, the token, CRLF; the token reads back from it |
| Commands.TokenLine | src/index.js:389 | a LOGIN step is the base64 token followed by CRLF, and the token reads back from it |
| Commands.FirstDotLineFrom | src/index.js:295 | the first position at or after `from` where a line begins with `.` |
| Commands.FirstDotLine | src/index.js:295 | where `/^\./m` first matches: a `.` at the start of the text or after a line terminator, with none before it |
| Commands.DotStuff | src/index.js:295 | without the `g` flag only the first line that begins with `.` gets a second one, and a source with no such line is sent unchanged |
| Commands.DotStuffFirstLine | src/index.js:295 | the stuffed body's first dot line is where the source's was, and it now starts with `..` |
| Commands.UnstuffDotStuff | src/index.js:295 | stuffing loses nothing: removing the added dot gives the source back |
| Commands.SizeExceededMessage | src/index.js:282 | the local error of `data` is "Message size exceeds the allowable limit (", the limit, then " bytes)" |
| Commands.SizeExceededLimit | src/index.js:282 | `parseInt` of the text between the message's fixed parts gives the limit back |
| Commands.DataBody | src/index.js:295 | the body ends with CRLF `.` CRLF, and what precedes that ending unstuffs to the source |
| Commands.GetHostname | src/index.js:433-444 | a name without a dot becomes `[127.0.0.1]`, a dotted quad is bracketed, any other dotted name is kept; the result is always an address literal or a dotted name that is not a bare IPv4 address |
| Commands.DottedQuadOf | src/index.js:439 | four groups of one to three digits joined by dots match the dotted-quad pattern |
| Commands.DottedQuadParts | src/index.js:439 | every name the dotted-quad pattern (IsDottedQuad) matches is four groups of one to three digits joined by dots; with DottedQuadOf, the pattern matches exactly those names |
| Commands.Bracketed | src/index.js:440 | a dotted quad in brackets is an address literal |
| Commands.LoopbackIsAddressLiteral | src/index.js:437 | the loopback substitute `[127.0.0.1]` is an address literal |
| Commands.ClientName | src/index.js:45 | the name sent is never empty: the given host name when there is one, otherwise exactly GetHostname of the machine's name, which is an address literal or a dotted name that is not a bare address |
| Client.Conclude | src/index.js:28-35 | the verb succeeds exactly when the code of the last reply line starts with '2' and then returns that code. Otherwise it raises exactly the SMTPResponseError that `_createSMTPResponseError` builds from the reply's lines (src/index.js:415-422): code and enhanced code of the last line, message of all lines. A channel rejection is passed on |
| Client.Challenge | src/index.js:382-394 | a LOGIN step goes on exactly when the reply's FIRST line is the expected challenge; otherwise it stops with the error of that reply alone, and a rejected channel stops it |
| Client.LoginWrites | src/index.js:382-399 | the LOGIN exchange makes one to three writes |
| Client.LoginSteps | src/index.js:382-407 | the LOGIN outcome, step by step. Each step takes one reply, and a step that does not see its challenge ends the exchange with that step's result |
| Client.LoginChallengesInOrder | src/index.js:382-407 | the password is written exactly when both challenges came first and in order. Success needs that and a 2xx reply to the password. A mismatch raises the error of that step's reply alone |
| Client.SizeCheckWithoutSize | src/index.js:280-283 | without a SIZE capability the limit is 0, so every positive size is refused locally |
| Client.SizeCheckAdvertised | src/index.js:280-281 | `sourceSize > sizeLimit` (Exceeds) against an advertised "SIZE n": exactly the sizes above n are refused |
| Client.SizeCheckWithoutNumber | src/index.js:280-281 | a SIZE capability with no number gives the limit NaN, and `sourceSize > NaN` is false, so no size is refused |
| Client.SMTPClient.constructor | src/index.js:12-16 | a new client knows no capability and has made no call |
| Client.SMTPClient.Exchange | src/index.js:47-51 | one connect or write takes the next scripted reply with all its lines, logs the call, and changes nothing else |
| Client.SMTPClient.Negotiate | src/index.js:328 | a TLS negotiation takes the next scripted outcome and logs the call |
| Client.SMTPClient.Command | src/index.js:47-58 | writes one command and concludes on its reply |
| Client.SMTPClient.Expect | src/index.js:382-390 | writes one LOGIN step and compares the reply's FIRST line with the expected challenge |
| Client.SMTPClient.Connect | src/index.js:24-36 | connects and concludes on the greeting; the capabilities are untouched |
| Client.SMTPClient.Helo | src/index.js:44-59 | writes `HELO <name>`, using the machine's name when none is given; the capabilities are untouched |
| Client.SMTPClient.Ehlo | src/index.js:68-84 | writes `EHLO <name>`. After a 2xx reply the capabilities become the texts of every reply line but the first, decoded with the capabilities held BEFORE the reply. On any other outcome they are kept |
| Client.SMTPClient.Greet | src/index.js:92-94 | EHLO, and HELO with the same name after any EHLO failure, both with timeout 0 whatever the caller passed. After the fallback the capabilities are the earlier ones |
| Client.SMTPClient.Mail | src/index.js:167-186 | with utf8 and no SMTPUTF8 it fails locally and writes nothing; otherwise it writes the MAIL command, with ` SMTPUTF8` when asked |
| Client.SMTPClient.Rcpt | src/index.js:194-207 | writes `RCPT TO:<to>` and concludes on the reply |
| Client.SMTPClient.Noop | src/index.js:215-228 | writes `NOOP` and concludes on the reply |
| Client.SMTPClient.Rset | src/index.js:236-249 | writes `RSET` and concludes on the reply |
| Client.SMTPClient.Quit | src/index.js:257-270 | writes `QUIT` and concludes on the reply |
| Client.SMTPClient.Data | src/index.js:279-305 | a size over the limit fails locally, names the limit and writes nothing. Otherwise `DATA` must get a 3xx reply, or its reply's error is raised. Then the stuffed body and its final `.` line are written, and the verb succeeds only on a 2xx reply, with an error built from that reply's lines alone |
| Client.SMTPClient.DataExchange | src/index.js:285-305 | the DATA exchange once the size is accepted, with the same steps and errors |
| Client.SMTPClient.Secure | src/index.js:313-333 | without STARTTLS it fails locally and writes nothing. After a 2xx reply it negotiates TLS and empties the capability list only when the negotiation completes. A refused STARTTLS keeps the list |
| Client.SMTPClient.AuthPlain | src/index.js:343-362 | without PLAIN among the mechanisms it fails locally and writes nothing; otherwise it writes `AUTH PLAIN` with the base64 of NUL, user name, NUL, password |
| Client.SMTPClient.AuthLogin | src/index.js:372-408 | without LOGIN among the mechanisms it fails locally and writes nothing; otherwise it makes exactly the LOGIN writes the challenges allow and returns the LOGIN outcome |
| Client.SMTPClient.LoginExchange | src/index.js:378-408 | `AUTH LOGIN`, then the user name only after `334 VXNlcm5hbWU6`, then the password only after `334 UGFzc3dvcmQ6`; the writes made and the replies consumed follow the challenges |
| Client.SMTPClient.PasswordExchange | src/index.js:386-407 | the user name is written, and the password only when the next reply's first line is the password challenge |
| Scenarios.EnhancedReplyExample | tests/index.js:22-35 | with ENHANCEDSTATUSCODES, "555 5.5.5 Error" has the enhanced code "5.5.5" and the text "Error" |
| Scenarios.PlainReplyExample | tests/index.js:29-32 | without ENHANCEDSTATUSCODES the same line has no enhanced code and the text "5.5.5 Error" |
| Scenarios.TwoLineRefusal | src/index.js:415-422 | a two-line refusal whose first text has a run of spaces between two words gives a message of the three words, one space apart, and the code of the last line |
| Scenarios.RefusalMessageExample | tests/index.js:456-479 | "500-foo    bar" and "500 fin" give the message "foo bar fin" |
| Scenarios.EhloCapabilitiesExample | tests/index.js:110-139 | the EHLO lines after the first give the capabilities 8BITMIME and STARTTLS, and neither is known before |
| Scenarios.EhloSession | tests/index.js:110-139 | connecting gives 220 and EHLO gives 250. 8BITMIME and STARTTLS are unknown before the EHLO and known after it |
| Scenarios.CaseSensitiveExample | src/index.js:102 | "starttls" does not advertise STARTTLS |
| Scenarios.EmptyNameExample | src/index.js:102 | the empty name finds an empty capability, yet `!!` reports it absent |
| Scenarios.ReEhloExample | src/index.js:77 | a second EHLO after ENHANCEDSTATUSCODES was learned reads "250-SIZE 1000" as the capability "1000" |
| Scenarios.SizeLimitExample | tests/index.js:536-546 | "SIZE 10" sets the limit 10, 100 bytes exceed it, and the message is "Message size exceeds the allowable limit (10 bytes)" |
| Scenarios.AuthMechanismsExample | src/index.js:126 | "AUTH login  PLAIN" gives the mechanisms LOGIN and PLAIN, the empty token dropped |
| Scenarios.LoginAdvertised | src/index.js:123-131 | "AUTH LOGIN" offers exactly the mechanism LOGIN |
| Scenarios.DataBodyExample | src/index.js:295 | the body of "bar" is "bar\r\n.\r\n"; in ".a\n.b" only the first dot line is doubled |
| Scenarios.DataSession | tests/index.js:481-510 | DATA answered with 354 and the body with 250 gives 250; the writes are exactly DATA and "bar\r\n.\r\n" |
| Scenarios.HostnameExample | src/index.js:433-444 | "localhost" becomes "[127.0.0.1]", "10.0.0.1" becomes "[10.0.0.1]" and "mx.example.com" is kept |
| Scenarios.LoginRefused | src/index.js:391-394 | a refusal in place of the password challenge ends the exchange after two writes, with the error of that reply |
| Scenarios.LoginSession | src/index.js:372-398 | after a greeting and an EHLO advertising AUTH LOGIN, a refusal in place of the password challenge writes the command and the user name but never the password, and the error carries code 535 |

## Left out

- The `smtp-channel` package (the superclass) is not part of this model. Its socket, line framing, `connect`, `write`, `negotiateTLS` and `close` are replaced by the scripted oracle: the `replies` and `handshakes` fields and the `calls` log. `close` is not modelled.
- The reply code that `parseReplyCode` reports is taken to be the first three characters of the reply's last line. That function is part of the unseen channel package.
- Timeouts and promises: the model is sequential. A timeout is only recorded with the call it is passed to. A timed-out or closed channel is an exhausted script, which gives `Fail(Channel)`. A synchronous throw and a rejected promise both become a failure with nothing written.
- `os.hostname()` is a foreign call. It is the parameter `systemHostname`, and its `|| ''` fallback is the empty string.
- Base64 encoding through `Buffer` is a foreign utility. It is the function parameter `base64`, and the UTF-8 encoding of its input is not modelled.
- Js.Trim: its own contract states only that the result has no whitespace at either end. That the result is the slice between the leading and trailing whitespace is stated by Js.TrimSlice, so that the many callers needing only the shape do not carry it.
- Capabilities.NormalizedToken: its own contract states only that the name is upper-cased and trimmed. That it is exactly the token's inner slice upper-cased is stated by Capabilities.NormalizedTokenChars, for the same reason.
- Replies.ReplyTexts: its own contract states only the length. Which text sits at each position is stated by Replies.ReplyTextsDecoded, for the same reason.
- Js.CollapseSpaceRuns: its own contract states only that the text never grows. What the collapse keeps and drops is stated by Js.CollapseSpaceRunsSpec, Js.CollapseAroundRun and Js.CollapseJoin.
- Js.ToUpper: upper-cases the ASCII letters only. JavaScript's full Unicode case mapping is not modelled.
- Js.IntToDecimal: writes integers in plain decimal. The exponent form JavaScript uses from 1e21 upward is not modelled.
- Js.ParseInt: returns an exact integer. JavaScript numbers are doubles, so `parseInt` of a SIZE value above 2^53 rounds to the nearest representable double, and the size comparison at src/index.js:281 compares those rounded values; the model compares exact integers.
- Js.Substr and Js.Split: count Unicode scalar values, as Dafny strings do. JavaScript strings count UTF-16 code units, so `substr(4)` and the split positions differ on lines holding characters outside the Basic Multilingual Plane.
- `null` or omitted `from`, `to`, `username` and `password`, which the templates write as "null", are not modelled. These parameters are strings, and a hostname of "" stands for an omitted one.
- Client.SMTPClient.Ehlo: requires that every capability line of a 2xx reply decodes. With ENHANCEDSTATUSCODES, a line with no text after its enhanced code would store `undefined` in the list, and the model has no such value. The same precondition is on Client.SMTPClient.Greet.
- Client.SMTPClient.Data: takes a string source. `data(null)`, which makes `source.replace` throw a TypeError after the DATA reply, is not modelled.
- Replies.ResponseError: requires at least one line. The channel always delivers at least one line per reply, which `Valid()` keeps.
- Errors.GeneralError: has no `enhancedCode` property in the source. In the model its record holds None.
- Errors.GeneralError and Errors.SMTPResponseError: the name is the empty string, which is what current engines give an anonymous class. An older engine that gives an anonymous class no own `name` would show "Error", inherited along the constructors' prototype chain; the model does not cover that variant.
- Property descriptors (`enumerable`), the stack and the `Error` prototype chain of the errors are not modelled.
- The repository's tests start real TCP servers. Only their reply scripts and expected results appear here, as the examples in `Scenarios`.
