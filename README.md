# MCPal notification core in Dafny

MCPal is an MCP server whose `send_notification` tool shows a native desktop
notification and returns what the user did with it. This project models the
pure and algorithmic core of that tool and proves properties of the model.
It covers these parts:

- **Sanitizer** (`sanitizer.dfy`, `sanitize_input.dfy`). Each input field has
  its line breaks normalised to `\n`. Unsafe control characters are stripped.
  The text is then truncated to a per-field code-point limit. The request
  sanitiser applies this to the title, the message, at most three action
  labels and the dropdown label. It raises one `sanitized` flag when anything
  was altered. The action cleaning is a method with a loop, and the request
  sanitiser is a method that calls it. Each is proved against specification
  functions.
- **Limits and field order** (`tool_result_config.dfy`). These are the
  sanitisation limits and the fixed order of the legacy-text fields.
- **Timeout policy and icon aliases** (`notify_config.dfy`). This is the
  policy table with tiers 10/20/30. Reply beats actions, actions beat simple,
  and an explicit timeout always wins. It also holds the nine-entry client
  icon table.
- **Notifier front end** (`notify.dfy`). It covers these pieces:
  - the client-icon resolver: normalise the name, try an exact key, then the
    first key contained in the name, then check that the file exists;
  - the module's own timeout rule, with tiers 20/30/60;
  - the options handed to the notifier library;
  - the mapping of the library's callback to a result.
- **Payload builder** (`payload.dfy`, `json.dfy`, `legacy_text.dfy`,
  `output_schema.dfy`). It covers these pieces:
  - the success and error payloads;
  - the sanitised error text;
  - the structured object and its schema;
  - the line-based legacy text, one `key: <JSON value>` line per defined
    field.

  The JSON encoder follows section 7 of RFC 8259, with lower-case `\u00xx`
  escapes as `JSON.stringify` writes them. It is proved lossless by a
  decoder. The legacy text is proved to read back, line by line, as exactly
  the payload's defined fields.
- **Native helper argument scanner** (`notifier.dfy`). This is the
  `--title`/`--message` scanner of the macOS helper, written as a `while`
  method. It is proved against a right-to-left specification in which the
  last occurrence of a flag wins.

Strings are `seq<char>`. Dafny characters are Unicode scalar values, so a
string's length is its code-point count. That is the count the truncation
uses. Timeouts are unbounded integers.

Where the documentation and the code disagree, the model follows the code:

- The timeout defaults are written down as "10/30/60" in one place. The
  policy table actually holds 10/20/30, and `src/notify.ts` uses 20/30/60.
  Both tables are modelled. `Notify.GetTimeoutMatchesPolicyMode` proves that
  the two rules pick the same mode but agree only on explicit timeouts.
- The icon resolver is described as never failing. The code can throw; see
  Findings.

## Model

| member | source | states |
|---|---|---|
| ToolResultConfig.SanitizeLimitsValues | src/tool-result.config.ts:4-10 | The limits are title 256, message 4000, three actions, action label 64 and dropdown label 64. |
| ToolResultConfig.FieldName | src/tool-result.config.ts:13-22 | Every legacy field name is non-empty and contains neither `:` nor a line feed. |
| ToolResultConfig.LegacyPosition | src/tool-result.config.ts:13-22 | Every output field has a position in the legacy order. |
| ToolResultConfig.FieldNameInjective | src/tool-result.config.ts:13-22 | Distinct fields have distinct names. |
| ToolResultConfig.LegacyTextFieldsArePermutation | test/config-wiring.test.ts:25-36 | The legacy order lists each of the eight fields exactly once, from `status` to `sanitized`. |
| ToolResultConfig.LegacyTextFieldNames | test/config-wiring.test.ts:25-36 | The legacy order's names are exactly status, title, message, response, activationType, reply, error, sanitized. |
| Sanitizer.NormalizeNewlines | src/tool-result.ts:15-17 | No carriage return survives normalisation. Text without one is unchanged. |
| Sanitizer.NormalizeNewlinesAppend | src/tool-result.ts:15-17 | Normalising text cut anywhere except inside a CR LF pair gives the two normalised pieces, concatenated. With `NormalizeNewlinesPieces`, each break is replaced where it stands and all other characters keep their order. |
| Sanitizer.NormalizeNewlinesPieces | src/tool-result.ts:16 | A CR LF pair and a lone CR each become one line feed. Every other character is kept as it is. |
| Sanitizer.NormalizeNewlinesKeepsOthers | src/tool-result.ts:15-17 | Every character other than CR and LF keeps its count. |
| Sanitizer.NormalizeNewlinesCountsBreaks | src/tool-result.ts:15-17 | The number of line feeds afterwards is LF + CR − (CR LF pairs). |
| Sanitizer.StripUnsafeControls | src/tool-result.ts:13 | No character of the unsafe class U+0000–U+0008, U+000B, U+000C, U+000E–U+001F, U+007F remains. Text without one is unchanged. |
| Sanitizer.UnsafeControlsAreControls | src/tool-result.ts:13 | The unsafe class (`IsUnsafeControl`) holds only C0 controls and DEL. Tab, line feed and carriage return are outside it; NUL, BEL and ESC are inside it. |
| Sanitizer.StripUnsafeControlsKeepsOthers | src/tool-result.ts:29 | Every character outside the unsafe class keeps its count. Tab and line feed are never stripped. |
| Sanitizer.StripUnsafeControlsKeepsOrder | src/tool-result.ts:29 | The result is a subsequence of the input. |
| Sanitizer.Truncate | src/tool-result.ts:19-25 | The result is a prefix of the input no longer than the limit. It is the whole input when that fits, and exactly the limit long otherwise. |
| Sanitizer.SanitizeText | src/tool-result.ts:27-36 | The value is within the limit and clean. `changed` holds exactly when the value differs from the input. That happens exactly when the input was unclean or too long. |
| Sanitizer.SanitizeTextIdempotent | src/tool-result.ts:27-36 | Sanitising a sanitised value returns it unchanged, with `changed` false. |
| Sanitizer.SanitizeTextTruncatesToLimit | test/tool-result.test.ts:62-91 | Text whose cleaned form is over the limit comes out as the first `limit` code points of that cleaned form, and is flagged as changed. |
| Sanitizer.SanitizeTextKeepsContent | src/tool-result.ts:27-36 | For input that fits, every character other than CR, LF and the unsafe class keeps its count. |
| SanitizeInput.LimitActions | src/tool-result.ts:58 | The kept actions are the first `min(n, 3)` entries. |
| SanitizeInput.CleanAction | src/tool-result.ts:65 | A cleaned action label is clean and at most 64 code points. |
| SanitizeInput.CleanActions | src/tool-result.ts:63-74 | The survivors are no more than the inputs. Each is non-empty and is the cleaning of some input label. |
| SanitizeInput.SurvivorsAreCleanedEntries | src/tool-result.ts:63-74 | Every surviving label is the cleaning of some input entry and is non-empty. |
| SanitizeInput.CleanActionsAreLabels | src/tool-result.ts:63-74 | Every surviving action label is clean, non-empty and within 64 code points. |
| SanitizeInput.SurvivorsAppend | src/tool-result.ts:63-74 | Survivors of a concatenation are the survivors of each part, in order. Input order is kept. |
| SanitizeInput.AnyFlaggedExists | src/tool-result.ts:64-72 | The per-entry flag is raised exactly when some kept entry changed or cleaned to "". |
| SanitizeInput.EmptyCleaningIsFlagged | src/tool-result.ts:69-80 | If no entry survives, the first entry already raised the flag. |
| SanitizeInput.SanitizeActions | src/tool-result.ts:56-81 | The loop returns the cleaned survivors, or no list when none survive. It raises the flag exactly when the list was capped, an entry changed or was dropped, or a non-empty list was emptied. |
| SanitizeInput.SanitizeSendNotificationInput | src/tool-result.ts:41-106 | Title (default "MCPal"), message, actions and dropdown label are each the sanitised input. Reply and timeout pass through. `sanitized` is the OR of the per-field changes. A defaulted title never counts. |
| SanitizeInput.DefaultTitleIsClean | src/tool-result.ts:44-51 | The default title "MCPal" sanitises to itself, unchanged. |
| SanitizeInput.ActionsFlagCases | src/tool-result.ts:56-81 | More than three actions always flag. A non-empty list cleaned to nothing is omitted and flagged. An empty list is omitted silently. |
| NotifyConfig.DefaultTimeout | src/notify.config.ts:7-11 | Every default tier is a positive number of seconds. |
| NotifyConfig.DefaultTimeoutsIncreasing | src/notify.config.ts:7-11 | simple < actions < reply. |
| NotifyConfig.ClientIconAliases | src/notify.config.ts:14-29 | The table has exactly nine aliases. The Anthropic names map to claude.png and the OpenAI names to openai.png. cursor and vscode map to their own icons. |
| NotifyConfig.GetTimeoutKind | src/notify.config.ts:37-45 | The mode is reply exactly when reply is set. It is actions exactly when reply is not set and the action list is non-empty. |
| NotifyConfig.ResolveNotificationTimeout | src/notify.config.ts:50-57 | An explicit timeout is returned unchanged. Otherwise the result is the default of the mode `GetTimeoutKind` picks: 30 with reply set, 20 without reply and with a non-empty action list, and 10 in every other case. |
| NotifyConfig.ResolveNotificationTimeoutTable | test/config-wiring.test.ts:11-23 | `{}` gives 10. One action gives 20, also with `reply: false`. Reply, with or without actions, gives 30. An empty action list, or `reply: false` without actions, gives 10. An explicit value wins over everything. |
| Json.EscapeChar | src/tool-result.ts:166-168 | Each escape uses only characters ≥ U+0020. A character is written as itself exactly when it is neither below U+0020, `"` nor `\`. DEL and U+0080–U+009F are written as themselves. |
| Json.EscapeString | src/tool-result.ts:166-168 | The escaped body contains no character below U+0020, so in particular no line feed. |
| Json.Quote | src/tool-result.ts:166-168 | A JSON string literal starts and ends with `"` and contains no character below U+0020. |
| Json.Stringify | src/tool-result.ts:166-168 | Every encoded value is non-empty and free of characters below U+0020. |
| Json.UnescapeEscape | src/tool-result.ts:166-168 | Decoding an escaped body gives back the original string. |
| Json.ParseStringify | src/tool-result.ts:166-168 | Parsing the JSON text of a string or boolean gives back the value. |
| Json.EscapeStringAppend | src/tool-result.ts:166-168 | Escaping distributes over concatenation. |
| Json.EscapeStringPlain | src/tool-result.ts:166-168 | A string free of quotes, backslashes and characters below U+0020 is written unchanged. |
| Payload.StatusText | src/tool-result.schema.ts:7 | `StatusSent` renders as "sent" and `StatusError` as "error". |
| Payload.FieldValue | src/tool-result.types.ts:3-13 | `payload[key]`: `status` is always its text. Each string field's value is present exactly when the field is, and is that field's string. `sanitized` is present exactly when set, as that boolean. |
| Payload.ToErrorMessage | src/tool-result.ts:108-111 | The error text is the thrown message (an `Error`'s message, or the value's string form), sanitised to the message limit. It is therefore clean and at most 4000 code points, and equal to the raw message exactly when that was already clean and short. |
| Payload.AddSanitizedFlag | src/tool-result.ts:113-124 | Only `sanitized` may change, and it becomes true exactly when the flag is set. |
| Payload.BuildSuccessPayload | src/tool-result.ts:129-146 | The payload is well shaped: status "sent", no error. Title, message, response, activation type and reply come from the inputs. `sanitized` is present exactly when set. |
| Payload.BuildErrorPayload | src/tool-result.ts:151-164 | The payload is well shaped: status "error" and no response, activation type or reply. Title and message come from the context. `error` is the sanitised thrown message. `sanitized` is present exactly when set. |
| Payload.ErrorTextKeepsThrownMessage | src/tool-result.ts:108-111 | When the thrown message fits once cleaned, the error text keeps the count of every character other than CR, LF and the unsafe class. Its line-feed count is the message's LF + CR − (CR LF pairs). |
| Payload.ErrorMessageKeptVerbatim | test/tool-result.test.ts:93-105 | A clean, short error message is reported verbatim, line feeds and quotes included. |
| LegacyText.SplitLines | test/tool-result.test.ts:26 | Splitting on line feeds always yields at least one piece. |
| LegacyText.Line | src/tool-result.ts:176-179 | A line is the key, then `: `, then the JSON text of the value. |
| LegacyText.Entries | src/tool-result.ts:174-175 | There are never more entries than fields. |
| LegacyText.JoinLines | src/tool-result.ts:180 | Joining nothing gives the empty text. Otherwise the text starts with the first line. |
| LegacyText.FormatLegacyText | src/tool-result.ts:173-181 | The legacy text always starts with the status line. Its full meaning is `LegacyTextRoundTrip`. |
| LegacyText.ColonIndex | src/tool-result.ts:171 | The index returned is the first colon, or the length when there is none. |
| LegacyText.EntriesAreDefinedFields | src/tool-result.ts:174-175 | The entries are exactly the defined fields, each under its own name with its own value. Absent fields are skipped. |
| LegacyText.DefinedFieldHasEntry | src/tool-result.ts:174-175 | Every defined field of the list has its entry. |
| LegacyText.StatusEntryFirst | src/tool-result.ts:173-175 | The status entry is always present and comes first. |
| LegacyText.SixFieldEntries | src/tool-result.ts:173-175 | A delivered payload with response, activation type and reply, but no error and no flag, has exactly those six entries in legacy order. |
| LegacyText.EntriesAppend | src/tool-result.ts:174-175 | Entries follow the order of the field list. |
| LegacyText.EntryKeysAreFieldNames | src/tool-result.config.ts:13-22 | No entry key contains a colon or a line feed. |
| LegacyText.LineShape | src/tool-result.ts:176-179 | A rendered line contains no line feed, and its first colon ends the key. |
| LegacyText.ParseLineOfLine | test/tool-result.test.ts:37-49 | Every line reads back as its key and value, even when the value holds colons, quotes or backslashes. |
| LegacyText.SplitJoin | src/tool-result.ts:180 | Splitting undoes joining for lines without line feeds. |
| LegacyText.ParseLinesOfLines | src/tool-result.ts:171-181 | A sequence of lines reads back as its entries. |
| LegacyText.LegacyTextRoundTrip | src/tool-result.ts:173-181 | The legacy text splits into exactly one line per defined field, in legacy order. It parses back to exactly those fields and values. |
| LegacyText.LegacyTextLineCount | src/tool-result.ts:173-181 | The first line is always the status. There are between one and eight lines, one per defined field. |
| LegacyText.SuccessEntries | test/tool-result.test.ts:13-35 | An unflagged success payload with activation type and reply has six entries: status, title, message, response, activationType, reply. |
| LegacyText.SuccessLegacyLines | test/tool-result.test.ts:13-35 | Such a payload renders as exactly six lines, in that order. |
| LegacyText.PlainLine | test/tool-result.test.ts:28-32 | A plain value renders as `key: "value"`. |
| LegacyText.TwoPieceLine | test/tool-result.test.ts:30-33 | A value with an embedded line feed renders on one line, with the line feed written as `\n`. |
| LegacyText.EscapedWithLineFeed | test/tool-result.test.ts:30-33 | The JSON body of `a LF b` is `a\nb` when `a` and `b` are plain. |
| LegacyText.EscapedQuoteAndBackslash | test/tool-result.test.ts:37-49 | Between plain pieces, `"` is written as `\"` and `\` as `\\`. |
| OutputSchema.ObjectOfFields | src/tool-result.types.ts:3-13 | The object holds a key exactly for each defined field of the list, with the field's value, and no other key. |
| OutputSchema.ToJsObject | src/tool-result.types.ts:3-13 | The object always has `status`, holding the status text. |
| OutputSchema.SchemaValidCases | src/tool-result.schema.ts:6-15 | The schema (`SchemaValid`) accepts a lone valid status and ignores unknown keys. It rejects a missing or unknown status, a non-string in any optional string field, and a non-boolean `sanitized`. |
| OutputSchema.ToJsObjectFields | src/tool-result.types.ts:3-13 | The payload object holds exactly the defined fields under their names and nothing else. |
| OutputSchema.PayloadConforms | src/tool-result.schema.ts:6-15 | Every payload object satisfies the schema: status "sent"/"error", optional strings, optional boolean `sanitized`. |
| OutputSchema.BuildersConform | test/tool-result.test.ts:107-122 | Both builders' objects pass the schema. Their status is correct, the error payload carries `error`, and `sanitized` is present exactly when set. |
| OutputSchema.EntriesInObject | src/tool-result.ts:173-181 | Every legacy entry is a key of the object with the same value. |
| OutputSchema.ObjectKeysInEntries | src/tool-result.ts:173-181 | Every key of the object appears in the legacy text. |
| OutputSchema.LegacyTextMatchesObject | src/tool-result.ts:170-181 | The legacy text parses back to exactly the keys and values of the structured object. |
| Notify.LowerAscii | src/notify.ts:97 | An upper-case letter A–Z becomes the same letter in lower case (same offset from `a` as from `A`). The result is never upper case, and other characters are kept. |
| Notify.ToLowerAscii | src/notify.ts:97 | Lower-casing works character by character, each letter going to its own lower case. The result has no upper-case letter, and text without one is unchanged. |
| Notify.DropWhitespace | src/notify.ts:97 | The result is the suffix after the leading white-space run. |
| Notify.CollapseWhitespace | src/notify.ts:97 | No white space remains. |
| Notify.CollapseRun | src/notify.ts:97 | A whole white-space run, followed by the end or by a non-space, becomes one `-`, and the rest is collapsed in turn. |
| Notify.CollapseAfterWord | src/notify.ts:97 | A prefix without white space is copied as it is. Together with `CollapseRun` this fixes the output for any number of runs. |
| Notify.CollapseKeepsLowerCase | src/notify.ts:97 | Collapsing brings in no upper-case letter. |
| Notify.CollapseWithoutWhitespace | src/notify.ts:97 | Text without white space is unchanged. |
| Notify.NormalizeClientName | src/notify.ts:96-97 | A normalised name has no white space and no upper-case letter. The empty name stays empty. |
| Notify.NormalizedNamesAreFixed | src/notify.ts:97 | A lower-case name without white space is its own normal form. |
| Notify.NormalizeIgnoresCase | src/notify.ts:96-97 | Upper-casing a name first (by an independent `ToUpperAscii`) does not change its normal form, so names match regardless of ASCII case. |
| Notify.MixedCaseNameExample | src/notify.ts:96-104 | "Claude Desktop" normalises to "claude-desktop" and resolves to the icon "claude.png". |
| Notify.NormalizeClientNameIdempotent | src/notify.ts:97 | Normalising twice is normalising once. |
| Notify.NormalizeJoinsWords | src/notify.ts:97 | A white-space run of any length between two words becomes a single `-`. |
| Notify.ContainsAt | src/notify.ts:102 | `includes` holds exactly when the key occurs at some offset of the name. |
| Notify.Contains | src/notify.ts:102 | `includes` of the empty key always holds. Its meaning is `ContainsAt`. |
| Notify.ExactLookup | src/notify.ts:101 | A result exists exactly when a table key equals the name, and it is that key's file. |
| Notify.FirstSubstringMatch | src/notify.ts:102 | A result exists exactly when some key is contained in the name. It is the file of the first such key in declaration order. |
| Notify.ResolveIconFile | src/notify.ts:99-102 | When a table key equals the name, the result is that key's file. Otherwise it is the file of the first key, in declaration order, that the name contains. There is a result exactly when some key is contained in the name. |
| Notify.IconChoiceRule | src/notify.ts:99-102 | Stated on the table itself, a result is the file of entry `i`. Either `i`'s key is the name, or no key is the name, `i`'s key is contained in it and no earlier key is. |
| Notify.JoinPath | src/notify.ts:108 | The path is the directory, then `/`, then the file name. |
| Notify.GetContentImageForClient | src/notify.ts:88-110 | The result is absent off macOS and for a missing or empty name. When present it is `clientsDir/<file>`, where `<file>` is the icon `ResolveIconFile` chose for the normalised name, and that file exists. It is present exactly when an icon resolves and its file exists. |
| Notify.ExactIconExamples | src/notify.ts:74-82 | "cursor" resolves to cursor.png and "chatgpt" to openai.png. |
| Notify.SubstringIconExample | src/notify.ts:99-102 | "vscode-claude" resolves to claude.png, because `claude` comes first in the table. |
| Notify.PropertyLookup | src/notify.ts:101 | Bracket lookup yields an own string exactly for the table's keys. |
| Notify.GetContentImageForClientAsWritten | src/notify.ts:88-110 | The resolver as written fails only on macOS, and only for names that normalise to an inherited `Object.prototype` member. |
| Notify.ReachableInheritedMembers | src/notify.ts:97-101 | Of the inherited members, only "constructor" and "__proto__" have all-lower-case names. |
| Notify.AsWrittenThrowsOnInheritedNames | src/notify.ts:100-108 | On macOS, names normalising to "constructor" or "__proto__" make the resolver as written throw. |
| Notify.AsWrittenCounterexample | src/notify.ts:100-108 | The client name "constructor" makes the resolver as written throw. |
| Notify.AsWrittenAgreesElsewhere | src/notify.ts:88-110 | For every other input, the resolver as written returns the corrected resolver's result. |
| Notify.NotifierTimeout | src/notify.ts:113-115 | Every tier of this module is positive. |
| Notify.GetTimeout | src/notify.ts:150-161 | An explicit timeout is returned unchanged. Otherwise the result is 20, 30 or 60. |
| Notify.GetTimeoutMatchesPolicyMode | src/notify.ts:150-161 | The mode is chosen as in the policy module, with tiers 20/30/60. The result equals the policy module's exactly when a timeout was given. |
| Notify.AssembleNotifierOptions | src/notify.ts:165-174 | `wait` is always true, and the timeout is the resolved one. Title, message, actions, dropdown label and reply pass through. A content image is present exactly when a non-empty one was given. |
| Notify.NormalizeCallback | src/notify.ts:176-185 | An error rejects, with that error. Otherwise the response is `String(response)`, the reply is the activation value and the activation type is passed on. Absent metadata gives neither. |
| Notify.ResponseText | src/notify.ts:181 | `String(response)`: the response itself, or "undefined" when absent. |
| Notifier.BothOptions | swift/notifier.swift:71-74 | A result exists exactly when both title and message were found. |
| Notifier.ParseArgs | swift/notifier.swift:52-75 | The loop returns the title and message of the last-wins scan from index 1, or nothing unless both were found. |
| Notifier.ScanFromSound | swift/notifier.swift:57-69 | Every value found is the argument right after an occurrence of its flag. |
| Notifier.ScanAcross | swift/notifier.swift:57-69 | Scanning a longer command line finds the prefix's values, overridden by later ones. |
| Notifier.LastTitleWins | swift/notifier.swift:57-69 | An appended `--title v` wins over earlier titles and leaves the message alone. |
| Notifier.TrailingFlagIgnored | swift/notifier.swift:60-67 | A flag in the final position, with no value, changes nothing. |
| Notifier.ScanReadsSuffix | swift/notifier.swift:57 | The scan from `i` depends only on the arguments from `i` on. |
| Notifier.ProgramNameIgnored | swift/notifier.swift:57 | `args[0]` never affects the result. |
| Notifier.FlagLikeValueConsumed | swift/notifier.swift:60-65 | The argument after `--title` is its value even when it is `--message`, and it is not read as a flag. |

## Left out

- Calls into the node-notifier library are not modelled: the choice of notifier instance (`getNotifier`) and the `.notify` call itself. Only the options handed over and the callback-to-result mapping are modelled.
- `findPnpmPaths`, `getNotifierPath` and `getClientsDir` are not modelled, nor the notifier-path helpers in `src/notifier-paths.ts`. They are file-system discovery. The clients directory is a parameter.
- The platform test is a parameter (`isMacOS`), and so is `fs.existsSync`, as a file-existence oracle.
- `path.join` is modelled as `dir + "/" + file` for a plain file name. Path normalisation (`..`, repeated separators) is not modelled.
- `toLowerCase` is modelled for ASCII letters only. Full Unicode case mapping is not modelled.
- The `\s` class is modelled as the full ECMAScript white-space and line-terminator set.
- Strings are sequences of Unicode scalar values. Lone UTF-16 surrogates cannot be represented, so `Array.from` splitting and the JSON escaping of lone surrogates are not modelled. The JSON decoder rejects `\u` escapes of surrogate halves.
- A key holding `undefined` is treated the same as an absent key. Every consumer in the source (the legacy-text filter, the schema's `optional`, JSON) treats them alike.
- Timeouts are integers. Fractional, negative, `NaN` or infinite JavaScript numbers are not modelled.
- A thrown value other than an `Error` is modelled by its `String(...)` rendering, supplied with it. How that rendering is computed is not modelled.
- Payload.ToErrorMessage: always yields a string, so it does not capture the two ways `toErrorMessage` (src/tool-result.ts:108-111) can itself throw. First, `String(error)` throws a `TypeError` for a value with no usable primitive conversion, such as `Object.create(null)` or an object whose `toString` throws. Second, an `Error` whose `message` was replaced by a non-string reaches `value.replace` and throws there. On either path `buildErrorPayload` throws instead of returning a payload. The model covers only thrown values whose message or rendering is a string.
- The schema is modelled as a predicate over the payload object. Zod's parsing, its stripping of unknown keys and its error reporting are not modelled.
- The MCP server wiring in `src/index.ts` is not part of this model, nor the JXA fallback script `src/notify.jxa.js` or the setup and test scripts under `src/scripts/`.
- Of `swift/notifier.swift`, only the argument scanner is modelled. The notification-centre and application-lifecycle callbacks are asynchronous OS interaction.
- Notifier.LastTitleWins: stated for `--title` only. The `--message` case is symmetric.
- LegacyText.SuccessLegacyLines: the test's literal strings are stated for arbitrary plain pieces, through LegacyText.PlainLine and LegacyText.TwoPieceLine, rather than for the literal test values.

## Findings

| source | as written | input that shows it | evidently intended | confidence | as-written member | corrected member |
|---|---|---|---|---|---|---|
| src/notify.ts:100-108 | `CLIENT_ICONS[normalized]` also reads members inherited from `Object.prototype`. For "constructor" and "__proto__" the value is a function or an object, which is not nullish. So `??` does not fall back, `!iconFile` is false, and `path.join` throws a `TypeError` on the non-string argument. | on macOS, `getContentImageForClient("constructor")` (or "Constructor", or "__proto__") | a name that is not a table key falls through to the substring match and otherwise yields no image; the resolver never throws | medium (not executed) | Notify.AsWrittenCounterexample | Notify.GetContentImageForClient |
