# Dashboard authentication and cookie helpers, in Dafny

This project models two parts of the Dashboard web application.

**The user service** (`src/auth/service/userService.js`). Registration, activation, login, logout, refresh and checkAuth form a sequential transition system over two tables:
- the user collection, mapping an id to a record (login, email, password hash, activation link, activation flag, avatar);
- the refresh-token collection kept by the token service, mapping a user id to a token.

`Users.UserService` is a class with these two tables as `map` fields. Each operation is a method returning a `Result` whose errors mirror the code: `BadRequest(message)`, `Unauthorized`, or the exception of a collaborator rethrown unchanged (`Thrown(step)`). The Yup schemas become functions that list the failing messages in the order Yup reports them with `abortEarly: false`.

Collaborators are reduced to what the service observes of them:
- bcrypt `hash` and `compare` and Yup's `.email()` test are uninterpreted functions, fixed when the service is built;
- the uuid activation link, the token pair `generateTokens` returns and the claims `validateRefreshToken` recovers are parameters;
- which awaited call throws, if any, is the parameter `fault`.

**The cookie helpers** (`middleware/cookies.js`):
- `processValue`, `stringify`, `decode` and `getCookie`, over a model of JavaScript values with `JSON.stringify` and `String()`;
- the percent-escape rewrite `decode` applies, including `decodeURIComponent`'s UTF-8 decoding;
- the client-side loop of `getCookies` over `document.cookie`;
- `setCookies` and `removeCookies` on the server, as methods of module `CookieExchange` that update a `Request` (its `req.cookies` map and its `Cookie` header) and a `Response` (its `Set-Cookie` header);
- `checkCookies`.

The `cookie` package's `serialize` and `parse` are parameters.

Modules: `Wrappers`, `Strings` (JavaScript `split`/`join`), `Validation`, `Users`, `JsValues`, `PercentDecoding`, `Cookies`, `CookieExchange`.

## Model

| member | source | states |
|---|---|---|
| Strings.JoinSplit | middleware/cookies.js:44-46 | joining the pieces of `split(sep)` with `sep` gives the string back; the partner of `Split` and `Join` |
| Strings.Split | middleware/cookies.js:41-44 | `split` always yields at least one piece; JoinSplit, SplitJoin, SplitAtFirst and SplitWithoutSecond state what the pieces are |
| Strings.Join | middleware/cookies.js:46 | joining no pieces gives ""; JoinKeepsFirst and JoinSplit state the rest |
| Strings.JoinKeepsFirst | middleware/cookies.js:46 | the joined text begins with the first piece |
| Strings.FirstIndexOf | middleware/cookies.js:44 | the position of a character is an occurrence with none before it |
| Strings.SplitJoin | middleware/cookies.js:41 | splitting a join gives the pieces back when no piece holds the separator's first character |
| Strings.SplitAtFirst | middleware/cookies.js:44 | the pieces of `split(c)` are the text before the first `c`, then the pieces of the rest |
| Strings.SplitWithoutSecond | middleware/cookies.js:41 | a string without the separator's second character is one piece |
| Validation.LoginErrors | src/auth/service/userService.js:29-33 | no message exactly when the login meets the PASSWORD length bounds and the pattern; the required message appears exactly for "", the length message exactly when the length is outside the password bounds, the pattern message exactly when the pattern fails; no other message appears |
| Validation.EmailErrors | src/auth/service/userService.js:34-38 | no message exactly when the email is non-empty, within the email bounds and accepted by `.email()`; the required message appears exactly for "", the length message exactly when the length is outside the email bounds, the format message exactly for a non-empty email `.email()` rejects; no other message appears |
| Validation.PasswordErrors | src/auth/service/userService.js:39-43 | no message exactly when the password is within its bounds and matches the pattern; the required message appears exactly for "", the length message exactly when the length is outside the bounds, the pattern message exactly when the pattern fails; no other message appears |
| Validation.RegistrationErrors | src/auth/service/userService.js:28-46 | all three fields are checked, none short-circuits another; empty exactly when every field is accepted; each of the nine required, length, pattern and format messages appears exactly when its own test fails |
| Validation.LoginFormErrors | src/auth/service/userService.js:126-139 | the login schema checks only email and password; empty exactly when both are accepted; each of the six messages appears exactly when its own test fails |
| Validation.RangeMessageHead | src/auth/service/userService.js:30 | a length message begins with its field's prefix |
| Validation.MessageKeys | src/auth/service/userService.js:30-43 | the nine messages differ at a fixed position, so no two of them are equal |
| Validation.MessagesDistinct | src/auth/service/userService.js:30-43 | the messages of the three fields form pairwise disjoint sets |
| Validation.LoginMatches | src/auth/service/userService.js:32 | a login the pattern accepts holds a lower-case letter; LoginMatchesSingleLine and LoginPatternUnanchored state the rest |
| Validation.PasswordMatches | src/auth/service/userService.js:42 | a password the pattern accepts holds a lower-case letter, an upper-case letter and a digit; PasswordMatchesSingleLine and PasswordSplitAcrossLines state the converse and where it fails |
| Validation.LoginBoundsUnused | src/auth/service/userService.js:30-31 | changing the login bounds never changes whether a registration validates |
| Validation.ShortLoginRefusedByPasswordBound | src/auth/service/userService.js:30-31 | with login bounds 2..32 and password bounds 8..32, "alice" is refused with only the length message, which quotes 2 and 32 |
| Validation.LoginPatternUnanchored | src/auth/service/userService.js:32 | the login pattern is not anchored at the end: "a b!" passes |
| Validation.LookaheadSingleLine | src/auth/service/userService.js:32 | on one line, a lookahead `(?=.*[k])` at 0 holds exactly when some character is of class k |
| Validation.LoginMatchesSingleLine | src/auth/service/userService.js:32 | on one line the login pattern asks for a leading letter or digit and some lower-case letter |
| Validation.PasswordMatchesSingleLine | src/auth/service/userService.js:42 | on one line the password pattern asks for a lower-case letter, an upper-case letter and a digit, anywhere |
| Validation.PasswordSplitAcrossLines | src/auth/service/userService.js:42 | a line break before the only lower-case letter defeats the pattern: "A1\na" fails |
| Users.WithoutToken | src/auth/service/userService.js:173 | after `removeToken(t)` no record holds `t`, every other record stays, and nothing is added or changed: each remaining id keeps its old token |
| Users.WithoutEmail | src/auth/service/userService.js:91-93 | after `deleteOne({ email })` no record has the email, every other record stays, and nothing is added or changed: each remaining id keeps its old record |
| Users.CreatePreservesValid | src/auth/service/userService.js:54-73 | creating a record with an unused email and a fresh link under a fresh id keeps ids, emails and links unique |
| Users.CompensationRestores | src/auth/service/userService.js:89-96 | deleting by email the record just created gives back the table it was created in |
| Users.UserService.Registration | src/auth/service/userService.js:22-98 | validation first, with all failing messages joined by ", "; a failure to connect or to look up is rethrown before the email is checked; a taken email is a BadRequest naming it; a failure of hashing, create, token generation or token save is rethrown unchanged; success exactly when the input validates, the email is free and no step before the return throws; on success a fresh id holds `hash(password)`, the fresh link, not activated, and the refresh token is saved under it; when the compensating `deleteOne` itself rejects, the new record stays and the delete's error is thrown; every other error leaves both tables as they were; a mail failure is swallowed |
| Users.UserService.Activate | src/auth/service/userService.js:100-122 | an unknown link is a BadRequest that changes nothing; a known link sets `isActivated` even when already set, then saves the new refresh token; a failure of the token steps leaves the record activated and the tokens unchanged |
| Users.UserService.Login | src/auth/service/userService.js:124-167 | validation first; a failure to connect or to look up is rethrown; an unknown email and a wrong password are BadRequests with different messages; a failure of `compare` on a known email is rethrown; success exactly when the input validates, some record with the email accepts the password and none of connect, lookup, compare, token generation or token save throws; only success saves the refresh token, under the user's id; users never change |
| Users.UserService.Logout | src/auth/service/userService.js:169-175 | every stored record holding the token is removed and their number returned; users never change |
| Users.UserService.CheckAuth | src/auth/service/userService.js:189-213 | an empty token is Unauthorized; a failure to connect or to look the token up is rethrown; a failed signature check or a token missing from the store is Unauthorized; a failure of the user lookup is rethrown; a missing user is a BadRequest; success exactly when all hold, with the user's current DTO |
| Users.UserService.Refresh | src/auth/service/userService.js:177-187 | every error of checkAuth comes back unchanged: Unauthorized for an empty, unsigned or unstored token, the rethrown failure of connect, token lookup or user lookup, and the BadRequest for a missing user; after checkAuth succeeds, a failure of token generation or save is rethrown; new tokens are saved only on success, under that user's id; any error leaves the tokens unchanged |
| Users.LogoutThenCheckAuth | src/auth/service/userService.js:169-203 | after `logout(t)`, `checkAuth(t)` is Unauthorized whatever the signature says |
| Users.RegisterTwice | src/auth/service/userService.js:54-58 | a second registration with the same email is refused with the email-taken message and the email still has one record |
| Users.RegisterThenLogin | src/auth/service/userService.js:22-167 | after registering, logging in with the same credentials reaches the same user and replaces its refresh token, provided `compare` accepts a password against its own hash |
| Users.ActivateTwice | src/auth/service/userService.js:100-120 | the link is never cleared, so a second activation succeeds and yields the same activated user |
| JsValues.Quote | middleware/cookies.js:17 | the JSON text of a string starts with a quote |
| JsValues.JsonTextStart | middleware/cookies.js:17-18 | JSON text starts with `[` exactly for arrays and with `{` exactly for objects |
| JsValues.JsonText | middleware/cookies.js:17 | `JSON.stringify` answers undefined exactly for undefined, and otherwise non-empty text; JsonTextStart states which values open with `[` or `{` |
| JsValues.ToJsString | middleware/cookies.js:95 | `String()` of a string is the string, of a boolean, null or undefined one of the four keywords, of a number a signed decimal; ProcessValueInvertsString is its partner |
| PercentDecoding.EscapeRun | middleware/cookies.js:26 | the greedy `(%[0-9A-Z]{2})+` takes a run exactly when one starts: every one of its n escapes matches, the text after them does not start another, and it never takes more than the string holds |
| PercentDecoding.Octets | middleware/cookies.js:26 | a run of n escapes spells n octets, each a byte |
| PercentDecoding.CodePoint | middleware/cookies.js:26 | a UTF-8 sequence of n octets encodes a code point within the range n octets can hold |
| PercentDecoding.Utf8Decode | middleware/cookies.js:26 | UTF-8 decoding never yields more characters than octets, and no octets decode to ""; AsciiOctetsDecode and TwoOctetEscape are its partners |
| PercentDecoding.DecodeRun | middleware/cookies.js:26 | `decodeURIComponent` of a run yields at most one character per escape and fails only with URIError |
| PercentDecoding.DecodeEscapes | middleware/cookies.js:26 | the global replacement never lengthens the string and fails only with URIError; NoEscapeUnchanged, PlainPrefixKept and AsciiRoundTrip are its partners |
| PercentDecoding.PlainPrefixKept | middleware/cookies.js:26 | text in which no escape starts is copied through ahead of the decoding of what follows, and an error further on is passed through unchanged |
| PercentDecoding.NoEscapeUnchanged | middleware/cookies.js:24-26 | a string where no upper-case escape starts is returned as it is |
| PercentDecoding.NoPercentUnchanged | middleware/cookies.js:24-26 | a string without `%` is returned as it is |
| PercentDecoding.HexDigitUpper | middleware/cookies.js:26 | an upper-case hexadecimal digit is an escape character and reads back as its value |
| PercentDecoding.PercentEncode | middleware/cookies.js:26 | encoding writes three characters per character |
| PercentDecoding.EncodedIsOneRun | middleware/cookies.js:26 | an encoded string is a single run of escapes |
| PercentDecoding.EncodedOctets | middleware/cookies.js:26 | the run spells the character codes |
| PercentDecoding.AsciiOctetsDecode | middleware/cookies.js:26 | ASCII codes decode as UTF-8 to the same characters |
| PercentDecoding.AsciiRoundTrip | middleware/cookies.js:24-26 | decoding the upper-case percent-encoding of an ASCII string gives the string back |
| PercentDecoding.LowerCaseEscapeKept | middleware/cookies.js:26 | an escape written in lower case, "%2f", is not touched |
| PercentDecoding.NonHexEscapeThrows | middleware/cookies.js:26 | "%ZZ" matches the pattern but is not hexadecimal, so `decodeURIComponent` throws URIError |
| PercentDecoding.TwoOctetEscape | middleware/cookies.js:26 | a run is decoded as one UTF-8 sequence: "%C3%A9" is "é" |
| Cookies.ProcessValue | middleware/cookies.js:7-13 | only the four keyword strings change, each into a non-string value that `String()` writes as the keyword |
| Cookies.ProcessValueInvertsString | middleware/cookies.js:7-13 | a boolean, null or undefined written with `String()` reads back as itself |
| Cookies.Stringify | middleware/cookies.js:15-22 | arrays and objects become their JSON text, every other value passes through unchanged, and undefined becomes '' |
| Cookies.Decode | middleware/cookies.js:24-27 | falsy values are returned unchanged; any other non-string throws TypeError, having no `replace`; a truthy string is the result of the escape replacement on it, failing exactly when that fails, with URIError; a string without `%` is unchanged |
| Cookies.GetCookie | middleware/cookies.js:55-58 | a missing key reads as undefined, unless it names a property every object inherits (`constructor`, `toString`, `__proto__`, ...), which is truthy and not a string, so `decode` throws TypeError; a stored value is decoded, any error of `decode` escaping unchanged, and the decoded value goes through `processValue`; so a stored truthy non-string throws TypeError and a stored string without `%` reads back through `processValue` |
| Cookies.PieceAtFirstEquals | middleware/cookies.js:44-47 | a cookie's name is the text before its first `=` and its value everything after, later `=` included |
| Cookies.CookiePieces | middleware/cookies.js:41 | no pieces for an empty `document.cookie`, otherwise at least one, and joining them with "; " gives the text back |
| Cookies.NameOf | middleware/cookies.js:44-47 | the name is the longest prefix without `=`: it holds no `=` and is followed by `=` or the end of the piece |
| Cookies.ValueOf | middleware/cookies.js:44-46 | the value is everything after the name and its `=`, or "" when the piece holds no `=` |
| Cookies.CookieMapOf | middleware/cookies.js:43-50 | the object the loop fills never has an own `__proto__`, because that assignment goes to the prototype setter; LastPieceWins states the rest |
| Cookies.SinglePieceMap | middleware/cookies.js:43-50 | one piece gives one cookie, or none when it is named `__proto__` |
| Cookies.ClientCookies | middleware/cookies.js:40-52 | the loop builds the map of the pieces of `document.cookie` split on "; ", a later piece overwriting an earlier one and a piece named `__proto__` adding nothing; "" gives the empty map |
| Cookies.LastPieceWins | middleware/cookies.js:43-50 | a name is present exactly when some piece carries it and it is not `__proto__`, and its value is that of the last such piece |
| Cookies.PiecesOf | middleware/cookies.js:41 | one `name=value` piece per cookie |
| Cookies.PiecesMap | middleware/cookies.js:43-50 | parsing the pieces of `name=value` pairs gives the pairs back, later names winning, except a pair named `__proto__` |
| Cookies.ClientParseRoundTrip | middleware/cookies.js:40-52 | a header of `name=value` pairs joined by "; " parses back to those pairs, less any named `__proto__`, when names hold no `=` or `;` and values no `;` |
| Cookies.UpdateCookieMap | middleware/cookies.js:84-87 | setting '' deletes the key, anything else stores `stringify(data)`; every other key is unchanged |
| Cookies.ToEntries | middleware/cookies.js:90 | the parsed header as string-valued entries, in order |
| Cookies.ReplaceEntry | middleware/cookies.js:92 | assigning an existing property keeps every entry in place and changes only that name's value |
| Cookies.DeleteEntry | middleware/cookies.js:92 | deleting an absent property leaves the entries as they are; deleting a present one from an object removes exactly its entry and keeps the others in order |
| Cookies.SetEntry | middleware/cookies.js:92 | after assigning a property, the name reads the new value; an existing name keeps its place and the count, a new one is added last; LookupReplace and LookupAppend state that other names are unchanged |
| Cookies.UpdateEntries | middleware/cookies.js:92 | after the header update the key reads `stringify(data)`, or nothing when data is ''; UpdateEntriesAgrees, UpdateEntriesMap and UpdateKeepsNamesDistinct state the rest |
| Cookies.Lookup | middleware/cookies.js:92 | a name is found exactly when an entry carries it |
| Cookies.LookupReplace | middleware/cookies.js:92 | after assigning an existing name, that name reads the new value and others are unchanged |
| Cookies.LookupAppend | middleware/cookies.js:92 | assigning a new name adds it and leaves the others unchanged |
| Cookies.LookupDelete | middleware/cookies.js:92 | after `delete`, the name is absent and the others are unchanged |
| Cookies.UpdateEntriesAgrees | middleware/cookies.js:84-92 | on every name, the header update does what the `req.cookies` update does |
| Cookies.LookupEntriesMap | middleware/cookies.js:90 | the parsed object as a map answers every name as the entries do |
| Cookies.UpdateEntriesMap | middleware/cookies.js:84-92 | the cookies of the updated header are the updated cookie map |
| Cookies.HasNameReplace | middleware/cookies.js:92 | assigning an existing name changes no name |
| Cookies.HasNameDelete | middleware/cookies.js:92 | deleting removes exactly that name |
| Cookies.UpdateKeepsNamesDistinct | middleware/cookies.js:90-92 | the update never gives two properties the same name |
| Cookies.RebuiltHeaderText | middleware/cookies.js:94-96 | the rebuilt header of two entries is `name=value;` per entry, in order, with no space |
| Cookies.HeaderFromEntries | middleware/cookies.js:94-96 | the rebuilt header is "" exactly when there are no entries, otherwise ends with `;`, and holds no space when no name or written value does |
| Cookies.HeaderOpensWithName | middleware/cookies.js:94-96 | the rebuilt header opens with the first name and `=` |
| Cookies.RebuiltHeaderIsOnePiece | middleware/cookies.js:94-96 | for every non-empty list of entries whose names and written values hold no space and whose first name holds no `=`, the client parser, splitting on "; ", reads the rebuilt header as one piece: one cookie with the first name, whose value is the rest of the header (none if the name is `__proto__`) |
| Cookies.RebuiltHeaderExample | middleware/cookies.js:94-96 | "a=1;b=2;" reads back as the single cookie `a` with value "1;b=2;" |
| Cookies.CheckCookies | middleware/cookies.js:111-116 | true exactly for a non-empty key in the map when no cookie is named `hasOwnProperty`; with such a cookie every non-empty key throws TypeError, since the own property shadows the method; "" is false |
| Cookies.CheckAfterUpdate | middleware/cookies.js:111-116 | after the server update, a non-empty key is present exactly when the value set was not '', unless the key set is `hasOwnProperty` itself, which then throws |
| Cookies.HasOwnPropertyCookieBreaksCheck | middleware/cookies.js:111-116 | once a cookie named `hasOwnProperty` is set on the server, `checkCookies` throws TypeError for every non-empty key |
| Cookies.CheckClientCookie | middleware/cookies.js:111-116 | on the client, a piece named `hasOwnProperty` makes every check throw; otherwise a non-empty key is present exactly when some piece of `document.cookie` carries it and it is not `__proto__` |
| Cookies.StringReadBack | middleware/cookies.js:55-58 | a plain string set on the server reads back unchanged |
| Cookies.StoredBooleanReadBackThrows | middleware/cookies.js:86 | `true` set on the server is stored raw, and reading it back calls `replace` on a boolean: TypeError |
| Cookies.StoredFalseReadsBack | middleware/cookies.js:86 | `false` set on the server is falsy, so it reads back as `false` |
| CookieExchange.AppendSetCookie | middleware/cookies.js:76-82 | an absent header becomes a one-line list; a list gets the new line at its end with earlier lines kept; a string gets the line glued on |
| CookieExchange.AppendAllLines | middleware/cookies.js:81 | lines appended one by one end up after the earlier lines, in order |
| CookieExchange.FreshResponseCollectsAll | middleware/cookies.js:76-82 | cookies set on a fresh response each become their own line, in order |
| CookieExchange.TextHeaderIsGlued | middleware/cookies.js:81 | a header set as a single string absorbs the next cookie into one line |
| CookieExchange.Request.constructor | middleware/cookies.js:35-36 | a request carrying the given `req.cookies` and `Cookie` header |
| CookieExchange.Response.constructor | middleware/cookies.js:76 | a response with no `Set-Cookie` header yet |
| CookieExchange.ServerCookies | middleware/cookies.js:32-37 | the server reads `req.cookies` when a parser set it; otherwise the parsed `Cookie` header when it is non-empty, and no cookies when it is empty or there is no request |
| CookieExchange.SetCookies | middleware/cookies.js:60-105 | nothing changes when `serialize` throws or the request or response is missing; otherwise the serialized cookie is appended to `Set-Cookie`, `req.cookies` (if any) gets the map update and a non-empty `Cookie` header is rebuilt from the updated parse; the updated parse keeps its names distinct and carries exactly the cookies of the updated map |
| CookieExchange.RemoveCookies | middleware/cookies.js:107-109 | `setCookies` of '' with `maxAge` -1: the key leaves `req.cookies` and the rebuilt header, and the expiring cookie is appended |
| CookieExchange.RemoveThenCheck | middleware/cookies.js:107-116 | after `removeCookies`, `checkCookies` on the same request is never true, and is false unless another cookie is named `hasOwnProperty` |
| CookieExchange.SetThenGet | middleware/cookies.js:55-105 | after `setCookies` of a plain string on a request with a parsed map, `getCookie` on the same request reads it back |

## Left out

- MongoDB, bcrypt, uuid, JWT signing and verification, the mailer and the unseen `tokenService`: their results are parameters or uninterpreted functions. Their failures are the `fault` parameter, which names at most one failing call; the compensating `deleteOne` of registration, which runs only after another call failed, has its own flag `deleteFails`.
- `mongoConnect`'s connection handling and `getAllUsers`: a connection failure is the `Connect` fault; `getAllUsers` only returns the collection.
- The `process.env` bounds and `parseInt` of the salt rounds: the bounds are the `Bounds` parameter; a missing or non-numeric environment value is not modelled.
- Concurrency: each operation is one atomic step, so two simultaneous registrations with the same email are not modelled.
- Users.UserService.Registration: requires a link no record holds, because uuid v4 is taken as fresh; a colliding link is not modelled.
- The token table holds at most one token per user, as `saveToken` is taken to replace a user's token; `removeToken` removes every record holding the token.
- `deleteOne({ email })` is modelled as removing every record with that email; emails are unique, so this is the one record.
- Yup is modelled for string inputs only; a missing (undefined) field, where `min` and `matches` are skipped, is not modelled. The `.email()` regular expression is the uninterpreted `isEmail`.
- String lengths count Unicode scalar values, not UTF-16 code units, so `min`/`max` differ from JavaScript for characters outside the Basic Multilingual Plane; likewise a four-octet escape decodes to one character, not a surrogate pair.
- JavaScript numbers are integers here: floating point, NaN and Infinity in cookie values are not modelled; nor are `toJSON`, cyclic objects (the `catch` of `stringify`) or BigInt.
- The order of `Object.entries` is insertion order; JavaScript lists integer-like keys first, which is not modelled.
- The client branch of `setCookies` (`document.cookie = cookieStr`) and `isClientSide`: how the browser's cookie jar absorbs an assignment is outside the code.
- The `cookie` package's `serialize` and `parse` are parameters; `serialize` answers None where it throws.
- CookieExchange.SetThenGet: proved only for a request carrying a parsed `req.cookies` map; with only a `Cookie` header the read goes through `parse`, which is a parameter.
- CookieExchange.RemoveThenCheck: proved only for a request carrying a parsed `req.cookies` map, for the same reason.
- The objects are plain objects inheriting from `Object.prototype`; a cookie parser that hands over an object without a prototype (where `hasOwnProperty` is missing altogether) is not modelled.
- Cookies.UpdateCookieMap: a key `__proto__` is treated as an ordinary name; in JavaScript assigning a string to it is ignored and assigning `null` or an object changes the prototype.
- Cookies.SetEntry: a key `__proto__` on the parsed header object is treated as an ordinary name, for the same reason.
- Cookies.UpdateEntries: a key `__proto__` on the parsed header object is treated as an ordinary name, for the same reason.
- `parse` is taken to return an object, so its properties have distinct names; a `Cookie` header naming a cookie twice yields one property, whichever `parse` keeps.
