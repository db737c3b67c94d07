# Labomidia authentication service — a Dafny model

This project models the authentication service of the Labomidia dashboard
(`src/services/authService.js`). The service logs students in against an
Apps Script backend, requests access for new students, changes passwords,
probes the connection, and keeps the logged-in student in the browser tab's
`sessionStorage` for at most 24 hours. It also reports which deployment
settings are usable.

The model has eight modules:

- `Common`: the `Option` and `Result` wrappers. A thrown `Error` is `Failure(message)`.
- `JsText`: the JavaScript primitives the service relies on.
  - the `\s` class and `trim()`;
  - the UTF-16 `length` of a string;
  - the global `parseInt`;
  - `toString()` of an integer.
- `IsoDate`: `toISOString()`. It holds the UTC calendar fields of an instant, the text written for them, and a reader that recovers the fields from that text.
- `Json`: `JSON.stringify` and `JSON.parse` for a flat object whose members are strings. The stored user record is such an object.
- `Validation`: the checks that run before any backend call.
  - The e-mail regular expression is given two readings: its meaning (`MatchesEmailPattern`) and a scan (`IsEmail`). A lemma proves they accept the same strings.
- `Config`: `checkApiConfig`, over the four build-time variables passed as an `Env` value.
- `Session`: the user record and its JSON form, and the `SessionStorage` class (a `map<string, string>` changed in place).
  - It also holds the specification of what `getLoggedUser` reads and when it purges.
- `AuthService`: the operations themselves.
  - The reply of the one backend call is an input (`Exchange`). The call the operation makes is an output (`Option<Call>`).
  - For each credential operation a pure `...Flow` function decides the call, the result and the storage effect.
  - `LoginUser`, `ChangePassword`, `GetLoggedUser` and `Logout` are module-level methods that take the `SessionStorage` as a parameter and change it in place.
  - `LoginUser` and `ChangePassword` are proved equal to `LoginFlow` and `ChangePasswordFlow`. `GetLoggedUser` is proved equal to `LoggedUser` and `PurgedOnRead`, and `Logout` to `WithoutSession`.

Inputs in place of ambient state:

- The clock is a parameter `now`, in milliseconds since the epoch.
- The environment is a parameter `env`. An unset variable is the empty string.
- The backend's answer is a parameter `ex`.

The model follows the code:

- Login failures are not classified as not-found, not-activated or wrong-password. The backend's `mensagem` is passed through, or `'Credenciais inválidas'` when it is absent.
- The password minimum is 6 UTF-16 code units.
- `loginTime` holds epoch milliseconds as text. The user record carries an ISO-8601 time.
- There is no duplicate pre-check, no mail-link fallback and no pending-registration record.

## Model

| member | source | states |
|---|---|---|
| `JsText.IsWhiteSpace` | src/services/authService.js:90 | The `\s` class that `trim()`, the e-mail pattern and `parseInt` share. Among ASCII characters it is exactly tab, line feed, vertical tab, form feed, carriage return and space. No white-space character is a digit, a sign, `@` or `.`. |
| `JsText.Trim` | src/services/authService.js:90 | `trim()` gives the slice of the input from its first non-space character, with only white space after it. The result has no white space at either end. It is empty iff the input is all white space. |
| `JsText.Utf16Length` | src/services/authService.js:173 | `novaSenha.length` counts UTF-16 code units. One character counts 2 when it is outside the Basic Multilingual Plane and 1 otherwise. The count is between the number of characters and twice that number. It equals the number of characters when all of them are in the Basic Multilingual Plane. |
| `JsText.Utf16Append` | src/services/authService.js:173 | The UTF-16 length of a concatenation is the sum of the lengths. With the one-character case this fixes the length of every string. |
| `JsText.ParseInt` | src/services/authService.js:255 | `parseInt(loginTime)` with no radix: skip leading white space, read an optional sign, then a `0x`/`0X` hexadecimal or a decimal digit run. The function carries no contract of its own. Its behaviour is stated by the lemmas `ParseIntNaN` (when it is NaN), `SpacesIgnored`, `SignRead`, `ParseIntOfDecimal` and `ParseIntOfHex` (its value for each input form). `Signed` negates after a minus sign and keeps NaN. |
| `JsText.ParseMagnitude` | src/services/authService.js:255 | After the sign, `parseInt` reads NaN (`None`) exactly when the text is empty, does not start with a digit, or is `0x`/`0X` with no hexadecimal digit after it. |
| `JsText.ParseSigned` | src/services/authService.js:255 | After the leading white space, the text reads as NaN exactly when, after an optional `+` or `-`, the magnitude reads as NaN. A bare sign or a doubled sign is NaN. |
| `JsText.ParseIntNaN` | src/services/authService.js:255 | `parseInt` is NaN iff, after the leading white space and an optional sign, no digit can be read. This covers all-white-space text, a sign followed by nothing or a non-digit (`"-"`, `"+-1"`), any other non-digit start, and `0x`/`0X` with no hexadecimal digit. |
| `JsText.SpacesIgnored` | src/services/authService.js:255 | `parseInt` skips any leading white space: white space in front does not change the result. |
| `JsText.SignRead` | src/services/authService.js:255 | An optional `+` or `-` in front of text starting with a digit: `parseInt` reads the magnitude of that text, negated after `-`. |
| `JsText.DecimalMagnitude` | src/services/authService.js:255 | A decimal digit run reads as its decimal value when the next character does not continue it. The one exception is a lone `0` followed by `x`/`X`, which is the `0x` prefix. |
| `JsText.HexMagnitude` | src/services/authService.js:255 | `0x` or `0X` followed by a hexadecimal digit run reads as the run's hexadecimal value. Reading stops at the first non-hexadecimal character. |
| `JsText.ParseIntOfDecimal` | src/services/authService.js:255 | For every input of the form white space, optional sign, non-empty decimal run and a rest that does not continue the run: `parseInt` gives the run's decimal value, negated after `-`. The rest may start with `x`/`X` unless the run is a lone `0`. The trailing text is ignored. |
| `JsText.ParseIntOfHex` | src/services/authService.js:255 | For every input of the form white space, optional sign, `0x`/`0X`, non-empty hexadecimal run, and a rest that does not continue it: `parseInt` gives the run's hexadecimal value, negated after `-`. |
| `JsText.ParseIntStopsAtX` | src/services/authService.js:255 | `parseInt(" 12x")` is 12. |
| `JsText.ParseIntNaNSamples` | src/services/authService.js:255 | `parseInt` of `"0x"`, `"-"` and `"+-1"` is NaN. |
| `JsText.ParseIntOfDigits` | src/services/authService.js:255 | `parseInt` of a run of decimal digits is its decimal value. |
| `JsText.NatToString` | src/services/authService.js:106 | `getTime().toString()` gives non-empty decimal digits with no leading zero. |
| `JsText.DecimalValueOfNatToString` | src/services/authService.js:106 | Reading the decimal digits of `n` gives back `n`. |
| `JsText.ParseIntOfNatToString` | src/services/authService.js:253-255 | `parseInt` of the stored login time gives back the instant that was stored. |
| `IsoDate.PadDigits` | src/services/authService.js:102 | A field of `toISOString()` is zero-padded to its width. It reads back as the number, and it is exactly the width when the number fits. |
| `IsoDate.UtcFields` | src/services/authService.js:102 | The UTC year, month, day, hour, minute, second and millisecond of an instant form a valid date and time. Counted back from the epoch, they name exactly that instant. |
| `IsoDate.IsoTimestamp` | src/services/authService.js:102 | `toISOString()` ends in `Z`. It is 24 characters up to year 9999. After year 9999 it starts with `+` and is at least 27 characters long. Its text reads back as the UTC fields of the instant. |
| `IsoDate.IsoTimestampNamesInstant` | src/services/authService.js:102 | The ISO text names the instant it was made from, so distinct instants give distinct texts. |
| `Json.EscapeChar` | src/services/authService.js:105 | `JSON.stringify` writes a character as itself iff it is not a control character, a quote or a backslash. Otherwise it writes an escape starting with a backslash. No written character is a control character, and none starts with a quote. |
| `Json.EncodeObject` | src/services/authService.js:105 | `JSON.stringify` of an object is text between `{` and `}`. It is exactly `{}` (two characters) iff the object has no members. |
| `Json.ReadString` | src/services/authService.js:251 | Reading a string literal consumes input: what is left is strictly shorter. |
| `Json.ReadStringSuffix` | src/services/authService.js:251 | A string literal that reads ends at a closing quote. What is left is exactly the input after that quote. |
| `Json.ParseObject` | src/services/authService.js:251 | Text `JSON.parse` accepts as an object starts with `{` and ends with `}`. It reads as no members iff it is exactly `{}`. |
| `Json.ParseMembersShape` | src/services/authService.js:251 | A member list that reads is non-empty and ends at the closing brace. |
| `Json.Lookup` | src/services/authService.js:251 | A key is absent iff no member has it. A value found belongs to a member with that key. |
| `Json.LookupAppend` | src/services/authService.js:251 | The last member with a key decides its value, as with duplicate keys in `JSON.parse`. Appending a member changes only the lookups of its own key. |
| `Json.ReadEscapedString` | src/services/authService.js:251 | `JSON.parse` reads back a string literal written by `JSON.stringify`, and leaves the rest of the input untouched. |
| `Json.ParseEncodedObject` | src/services/authService.js:105 | `JSON.parse(JSON.stringify(o))` gives back the members of `o`, in order. |
| `Session.UserMembers` | src/services/authService.js:98-105 | The members of `userData` come in insertion order (`nome`, `matricula`, `email`, `loginTime`). An absent `nome` or `email` is dropped, as `JSON.stringify` drops `undefined`. The last member is `loginTime`. |
| `Session.SerializeUser` | src/services/authService.js:105 | `JSON.stringify(userData)` is an object text. `JSON.parse` reads it back as the record's members, in insertion order. |
| `Session.ParseUser` | src/services/authService.js:251 | Text `JSON.parse` refuses gives no user. A parsed object gives the record whose fields are its last members with those keys. It gives no user when `matricula` or `loginTime` is missing. |
| `Session.ParseSerializedUser` | src/services/authService.js:98-105 | The stored user record, with `nome`/`email` possibly absent, parses back to the same record. |
| `Session.SessionStorage.constructor` | src/services/authService.js:105 | The tab's storage starts empty. |
| `Session.SessionStorage.GetItem` | src/services/authService.js:248 | `getItem` is `null` exactly when the key is absent; otherwise it is the stored value. |
| `Session.SessionStorage.SetItem` | src/services/authService.js:105-106 | `setItem` binds the key and leaves every other key alone. |
| `Session.SessionStorage.RemoveItem` | src/services/authService.js:274-275 | `removeItem` drops the key and leaves every other key alone. An absent key is a no-op. |
| `Session.WithSession` | src/services/authService.js:105-106 | After a login, `user` holds the JSON record and `loginTime` the decimal instant. Every other key is kept. |
| `Session.WithoutSession` | src/services/authService.js:272-280 | After a logout, exactly `user` and `loginTime` are gone. Every other key is kept. |
| `Session.WithoutSessionIdempotent` | src/services/authService.js:272-280 | Logging out twice leaves the same storage as logging out once. |
| `Session.StoredUser` | src/services/authService.js:248-251 | The `user` key parsed as a user record. There is none when the key is absent. A record found means `JSON.parse` accepted the text. |
| `Session.IsExpired` | src/services/authService.js:253-256 | When `loginTime` parses to `t`, the session is expired iff `now - t` is strictly more than 24 h. An absent or unparseable `loginTime` (NaN) never expires. |
| `Session.PurgedOnRead` | src/services/authService.js:249-257 | `getLoggedUser` purges iff the `user` text is present, non-empty and accepted by `JSON.parse`, and `loginTime` parses to an instant more than 24 h before `now`. |
| `Session.LoggedUser` | src/services/authService.js:246-262 | While the session is not expired, `getLoggedUser` returns the stored record. Once it is expired, it returns nothing. |
| `Session.ExpiredObjectPurged` | src/services/authService.js:251-258 | A `user` text `JSON.parse` accepts but that is not a user record (`{}`) is still purged once the session has expired. |
| `Session.SaveThenLoad` | src/services/authService.js:246-267 | A record saved at `t` is returned by a read at any `now` with `now - t <= 24h`, including exactly 24 h. Nothing is purged. |
| `Session.LoadAfterExpiry` | src/services/authService.js:254-259 | A read more than 24 h after the save returns nothing and purges both keys. Afterwards nobody is logged in at any time. |
| `Session.NoLoginTimeNeverExpires` | src/services/authService.js:253-262 | Without a `loginTime` key the stored user is returned unchanged, and nothing is purged. |
| `Validation.MatchesEmailPattern` | src/services/authService.js:126 | A string matching `^[^\s@]+@[^\s@]+\.[^\s@]+$` is at least five characters long and contains `@` and `.`. |
| `Validation.EmailTestImpliesPattern` | src/services/authService.js:126-127 | Every string the scan accepts matches `^[^\s@]+@[^\s@]+\.[^\s@]+$`. |
| `Validation.PatternImpliesEmailTest` | src/services/authService.js:126-127 | Every string matching the pattern at some `@`/`.` split is accepted by the scan. |
| `Validation.EmailTestMatchesPattern` | src/services/authService.js:126-129 | The scan accepts a string iff the regular expression matches it. |
| `Validation.IsEmail` | src/services/authService.js:126-127 | An e-mail that passes the scan is at least five characters long and has no white space at either end. |
| `Validation.AllDigits` | src/services/authService.js:131 | A matrícula that passes `/^\d+$/` is non-empty and has no white space at either end. |
| `Validation.ValidateLogin` | src/services/authService.js:81-83 | Login input passes iff both fields are non-empty. Otherwise the error is 'Matrícula e senha são obrigatórios'. |
| `Validation.ValidateRegistration` | src/services/authService.js:122-133 | Registration input passes iff all fields are non-empty, the e-mail matches the pattern and the untrimmed matrícula is all digits. An empty field wins over a bad e-mail, which wins over a bad matrícula, each with its own message. The matrícula and e-mail that pass are unchanged by trimming; the name may still change, which is why it is trimmed before the call. |
| `Validation.UntrimmedMatriculaRejected` | src/services/authService.js:131-133 | `" 123"` is refused with 'Matrícula deve conter apenas números'. |
| `Validation.AstralPasswordLength` | src/services/authService.js:173-175 | Three characters outside the Basic Multilingual Plane are six UTF-16 units and pass the length check. Two are refused as too short. |
| `Validation.NotAnEmailRejected` | src/services/authService.js:126-129 | `"not-an-email"` is refused with 'Email inválido'. |
| `Validation.ValidatePasswordChange` | src/services/authService.js:169-179 | A password change passes iff all fields are non-empty, the new password has at least 6 UTF-16 units and it differs from the current one. An empty field wins over a short password, which wins over an unchanged one. |
| `Config.LabEmail` | src/services/authService.js:6 | The lab e-mail is never empty. It is 'labomidia@unifor.br' when the variable is unset. |
| `Config.CheckApiConfig` | src/services/authService.js:285-295 | `apiKeyConfigured` iff the key is set and not the placeholder. `labEmailConfigured` iff the variable is not the placeholder (unset counts as configured). `allConfigured` iff key, spreadsheet and URL are set: the lab e-mail and the placeholders never matter. The lab e-mail reported is `LAB_EMAIL`. The URL is passed through. |
| `Config.PlaceholderKeyStillAllConfigured` | src/services/authService.js:287-291 | With the placeholder API key, `apiKeyConfigured` is false while `allConfigured` is true. |
| `AuthService.TransportMessage` | src/services/authService.js:52-60 | Each transport failure rejects with a non-empty message. 'Falha ao conectar com o servidor' belongs exactly to a script that fails to load, and 'Tempo esgotado. Tente novamente.' exactly to a timeout. |
| `AuthService.MessageOr` | src/services/authService.js:95 | `mensagem \|\| fallback`: a non-empty backend message wins. Otherwise the fallback is used. |
| `AuthService.LoginFlow` | src/services/authService.js:79-115 | An empty field fails first. A missing URL fails second. Neither calls the backend or touches storage. A call is made iff both checks pass, with the trimmed matrícula. A transport failure gives its message. `sucesso = false` gives `mensagem` or 'Credenciais inválidas'. Every failure keeps the storage. Success happens iff the backend said `sucesso`. It returns the trimmed matrícula, the reply's `nome`/`email` and `now`'s ISO time, and saves that same record at `now`. |
| `AuthService.LoginUser` | src/services/authService.js:79-115 | The method makes the call `LoginFlow` decides and returns its result. The new storage is the old one with `LoginFlow`'s effect applied. |
| `AuthService.RegisterNewAluno` | src/services/authService.js:120-162 | Input is validated before any call. A missing URL is the next failure. The call carries the trimmed name and the matrícula and e-mail exactly as validated. Failures give the transport message, or `mensagem`, or 'Erro ao processar solicitação'. Success acknowledges with `mensagem` or the default text. Storage is never touched. |
| `AuthService.ChangePasswordFlow` | src/services/authService.js:167-211 | Input is validated before any call. A missing URL is the next failure. A call implies the new password differs from the current one. Failures give the transport message, or `mensagem`, or 'Erro ao alterar senha', and keep the storage. Success returns the fixed message and clears the session. |
| `AuthService.ChangePassword` | src/services/authService.js:167-211 | The method makes the call `ChangePasswordFlow` decides and returns its result. The new storage is the old one with its effect applied, through `Logout` on success. |
| `AuthService.TestarConexao` | src/services/authService.js:216-241 | Never fails. A call is made iff the URL is set. `sucesso` is reported only when the backend said so. A backend reply is passed through as it came. A missing URL or a transport failure becomes `sucesso: false` with the error's message. |
| `AuthService.Logout` | src/services/authService.js:272-280 | Removes exactly `user` and `loginTime`. Other keys are kept. |
| `AuthService.GetLoggedUser` | src/services/authService.js:246-267 | Returns what `LoggedUser` specifies: nothing when `user` is absent, empty, unparseable or not a user record, or when the session is past 24 h; otherwise the stored record. The storage is purged iff `JSON.parse` accepted the `user` text and the session has expired. Otherwise it is unchanged. |
| `AuthService.LoginThenLoad` | src/services/authService.js:98-109 | After a successful login, a read within 24 h returns exactly the record `loginUser` returned, and purges nothing. |
| `AuthService.LoginThenExpire` | src/services/authService.js:254-259 | After a successful login, a read more than 24 h later returns nothing and purges the session. |
| `AuthService.PasswordChangeEndsSession` | src/services/authService.js:199-200 | After a successful password change, no user is logged in at any time. |
| `AuthService.LoginExample` | src/services/authService.js:98-109 | Logging in as "2021001" with a reply naming Ana returns `{nome: "Ana", matricula: "2021001", email: "ana@x.com"}`, and the same session reads it back. |

## Left out

- The script-tag (JSONP) transport `chamarGoogleScriptJSONP` (src/services/authService.js:13-74) is not modelled. It is asynchronous browser I/O: DOM script injection, global callback bindings, a 30-second timer and a promise. Its outcome is the `Exchange` input, with its two rejection messages. Its cleanup is not modelled, and `onerror` leaves the script element and the timer in place. `onload` clears the timer, so a script that loads without calling the callback leaves the promise pending forever and the callback binding in place. The model describes only operations that settle.
- The callback name built from `Date.now()` and `Math.random()` is not modelled. It only matters to the transport.
- `console.log` / `console.error` calls are not modelled. They only log.
- The React components are not modelled. They are presentation.
- Floating-point hours are not modelled. Elapsed time is integer milliseconds compared with 86,400,000, which is the same test as hours `> 24`. A login time that `parseInt` cannot read (NaN) never expires.
- `import.meta.env` is not read. The four variables are the `Env` parameter, and an unset variable (`undefined`) is the empty string.
- The clock is a natural number (milliseconds at or after the epoch). `loginUser` reads the clock twice (ISO time and stored instant); the model uses one instant for both. Instants past the JavaScript `Date` range (8.64e15 ms) are not rejected.
- Arguments that are `null`/`undefined` rather than strings are modelled as the empty string, which JavaScript treats the same way in every `!x` check.
- Strings are sequences of Unicode scalar values, so a lone UTF-16 surrogate cannot occur. JavaScript lengths are still counted in UTF-16 units.
- `Session.ParseUser`: reads the record from the `user` text as follows.
  - **Accepted text.** Only `JSON.parse` output that is a flat object of string members, with no white space between tokens, is accepted.
  - **Other JSON.** Other JSON the source accepts under the `user` key is treated as text `JSON.parse` refuses. This covers `null`, numbers, arrays, objects with other member types, white space and escaped surrogate pairs. For such text the model returns nothing and never purges. The source returns that value, or purges both keys when the session has expired.
  - **Objects that are not a user record.** An accepted object without a string `matricula` or `loginTime` (such as `{}`) is refused as a record. For it the model returns nothing, where the source returns the object. The purge is the same in both: both keys go once the session has expired.
  - **Extra members.** Extra string members of an accepted object are dropped from the record, where the source keeps them.
- `JsText.ParseInt`: digit runs are read as exact integers, not as IEEE doubles. The optional radix argument is not modelled, because the service never passes one.
- Exceptions thrown by `sessionStorage` itself (storage disabled, quota exceeded) are not modelled, and neither is the `catch` that turns them into `null`.
- A backend reply whose `sucesso` is not a boolean, or whose `mensagem`, `nome` or `email` is not a string, is not modelled.
- Interleaving of concurrent asynchronous operations is not modelled. Each operation runs as one step.
