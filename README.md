# Radio station site: schedule server and page helpers, modelled in Dafny

This project models the server core of a student radio station's website, plus the pure helpers of its browser script.

The server (`app.js`) does four things:
- It reads `KEY=value` settings from a `.env` file into the process environment.
- It fetches the weekly show schedule, a spreadsheet exported as CSV, and parses it with a hand-written CSV state machine.
- It reshapes the parsed rows into one entry list per weekday, stored in the module-level `scheduleData` object.
- It renders that object into the schedule page by replacing a placeholder in an HTML template.

The browser script (`public/script.js`) contributes a few pure helpers:
- the English ordinal of a day of the month
- the 12-hour clock and the zero-padded minutes of the gig guide
- the venue and tickets-link choices of a gig
- the Sunday-first weekday table that picks today's schedule card

Modules:
- `Wrappers` holds `Option`.
- `JsStrings` holds the JavaScript string operations the code relies on: `split`, `join`, `trim` (with the ECMAScript white-space set), `indexOf`, `toUpperCase`, number-to-text, `padStart` and truthiness.
- `Csv` models `parseCSV`. `Scan`/`Parse` are the state machine as functions. `ParseCsv` is the source's loop, proved to compute `Parse`. It also has round trips with a CSV writer.
- `Schedule` models the reshaping loop as functions: `ShowsFor` is one day's entries and `WriteDays` is the map after the loop.
- `ScheduleHtml` models the markup of `generateScheduleHTML` and the template `replace`.
- `Server` holds `ScheduleData`, a class standing for the `scheduleData` object. Its fields are the keys in insertion order and the entries. Its methods are `Refresh` (the fetch callback), `GenerateScheduleHtml` and `ShowSchedule` (the page handler).
- `Env` holds the `.env` line parser and `Environment`, a class standing for `process.env`, with `LoadEnv`.
- `GigGuide` holds the browser helpers.

Inputs from outside become parameters:
- The fetched CSV text is `Option<string>`. `None` means the request failed, so the callback never runs.
- The `.env` file text is `Option<string>`. `None` means the read threw, and the error is swallowed.
- The page template is `Option<string>`. `None` means the read failed, which gives a 500 response.
- The locale's weekday and month names, and the hour, minute and day of the month that `Date` would supply, are parameters.

Behaviours of the code that are easy to misread, which the model follows as written:
- **Missing columns.** A column missing from a short row is `undefined`, not empty text. It is kept as `None`, and the page prints it as the word `undefined`.
- **Failed responses.** The code parses the body of any response that arrives, including a non-success status. Only a rejected request leaves the schedule as it was.
- **Empty variable names.** A `.env` line such as `=x` has the empty key. The assignment to `process.env` is refused by the operating system and nothing is set.
- **Schedule update.** The schedule object is not replaced wholesale. Each of the seven day keys is assigned in place, in day order. Other keys are untouched, and the key order is JavaScript insertion order.

## Model

| member | source | states |
|---|---|---|
| Csv.Step | app.js:61-95 | One turn of the loop always consumes at least one character, so the loop terminates with its index strictly increasing. |
| Csv.StepAdvance | app.js:61-95 | A turn consumes one character, or two exactly for `""` inside quotes or `\r\n` outside them. |
| Csv.ScanGrowth | app.js:61-95 | While scanning, rows are only appended, never changed. Every emitted row has at least one cell. Each character adds at most one row. |
| Csv.Parse | app.js:55-104 | Parsing never fails. It gives at most one row per input character, and every row has at least one cell. |
| Csv.ParseCsv | app.js:55-104 | The loop, with its skip-ahead index, computes exactly `Parse` of its input. |
| Csv.PlainCharStep | app.js:91-92 | Outside quotes, an ordinary character is appended to the current cell. |
| Csv.CommaStep | app.js:77-79 | Outside quotes, a comma ends the cell and starts an empty one. |
| Csv.QuotedCharStep | app.js:65-73 | Inside quotes, every character except `"`, including a comma, `\n` or `\r`, is appended verbatim and ends neither cell nor row. |
| Csv.EscapedPairStep | app.js:66-68 | Inside quotes, `""` appends exactly one `"` and consumes both characters. |
| Csv.QuoteToggleStep | app.js:69-70 | An unescaped `"` (entering, or leaving when no `"` follows) only flips the in-quotes flag. |
| Csv.TerminatorStep | app.js:80-90 | Outside quotes, `\r\n`, a bare `\n` and a bare `\r` (not followed by `\n`) each end exactly one record. |
| Csv.RoundTrip | app.js:55-104 | Records written with any one of the three terminators parse back to exactly their cell values, with no trailing empty row. A cell is written verbatim when plain, or quoted with its quotes doubled. |
| Csv.FinalRecordFlush | app.js:97-101 | A final record without a terminator is emitted exactly when something is pending. It is dropped only when it reads as a single empty cell. |
| Csv.LinesRoundTrip | app.js:61-101 | For text without `"` or `\r`, joining each parsed row's cells with `,` and ending it with `\n` gives back the text, with a `\n` added after a last line that had none. No parsed cell holds `"`, `,`, `\n` or `\r`. |
| Csv.TerminatedLines | app.js:77-92 | For text without `"` or `\r` whose lines all end in `\n`, the re-joined rows are exactly the text. |
| Csv.ScanPlain | app.js:61-95 | Reading text without `"` or `\r` never enters quotes and leaves every cell plain. |
| Csv.FlushPlain | app.js:97-101 | Flushing a state of plain cells gives rows of plain cells. |
| Csv.ScanSplit | app.js:61-95 | Text without `"` or `\r` read in two pieces gives what reading it at once gives. |
| Csv.UnterminatedPending | app.js:97-101 | In text without `"` or `\r`, a last line without `\n` leaves a cell or a row pending, so the flush emits it. |
| Csv.NewlineAppended | app.js:80-101 | Adding the missing final `\n` to text without `"` or `\r` changes nothing in the parse. |
| Csv.LineCommas | app.js:77-92 | In text without `"` or `\r` every parsed row has one cell more than its re-joined line has commas. |
| Csv.UnterminatedQuote | app.js:61-101 | An unterminated quote consumes the rest of the input into one cell. |
| Csv.OpenQuoteScan | app.js:65-73 | Inside quotes, text without `"` is added to the cell verbatim, separators included. |
| Csv.QuotesOnlyFromPairs | app.js:66-70 | If the input has no `""` pair, no parsed cell contains `"`: a lone quote only toggles the mode. |
| Csv.CrLfExample | app.js:80-85 | `a,b\r\nc,d\r\n` gives exactly two rows of two cells each. |
| Csv.QuotedCommaExample | app.js:65-79 | A quoted comma stays inside its cell. |
| Csv.EscapedQuoteExample | app.js:66-68 | `"b""c"` reads as the cell `b"c`. |
| Csv.EmptyInput | app.js:97-103 | Empty input gives no rows. |
| Schedule.DaysDistinct | app.js:52 | The seven day names are distinct. |
| Schedule.Slice | app.js:115 | `slice` keeps the elements from `start` up to `end`, cut at the row's end, and is empty when `start` is at or past either. |
| Schedule.ShowOf | app.js:115-117 | Day `i` reads columns `3i`, `3i+1` and `3i+2` of a row. Each of them is absent past the row's end. |
| Schedule.HasContent | app.js:116 | An entry is skipped exactly when each of its three fields is absent or empty. |
| Schedule.ShowsUpTo | app.js:113-120 | Every kept entry has a non-empty field, and there are at most `rows - 2` entries. |
| Schedule.ShowsComeFromDataRows | app.js:113-120 | Every entry of a day is the entry of some row at index 2 or later. |
| Schedule.ContentRowsIncluded | app.js:116-118 | Every data row whose three columns for the day hold some non-empty text gives an entry. |
| Schedule.HeaderRowsIgnored | app.js:113 | Changing rows 0 and 1 changes no day's entries. |
| Schedule.AppendRow | app.js:114-120 | A row added at the end adds its entry, if it keeps one, at the end: entries follow row order. |
| Schedule.NoDataRows | app.js:113-114 | A sheet with two rows or fewer gives every day an empty list. |
| Schedule.ReshapeExample | app.js:111-125 | Columns 0-2 of a data row go to Monday and columns 3-5 to Tuesday. |
| Schedule.WriteDays | app.js:111-125 | The loop adds exactly the day names to the map's keys. |
| Schedule.WritesEveryDay | app.js:121-124 | After the loop every weekday is present, with emoji `""` and that day's own entries. |
| Schedule.KeepsOtherKeys | app.js:121 | Keys other than day names, present before or not, are left unchanged. |
| Server.AddKeys | app.js:121 | Object key order after assignments: old keys keep their places, new keys go to the end, nothing else is added, and distinct keys stay distinct. |
| Server.AddNewKeys | app.js:121 | New, distinct keys are laid out in assignment order. |
| Server.AddPresentKeys | app.js:121 | Reassigning keys that are already present keeps the order. |
| Server.DaysAfterFirstRefresh | app.js:51-52 | Starting from the empty object, the keys after a refresh are the days, Monday first. |
| Server.RefreshKeepsOrder | app.js:121 | A second refresh does not change the key order. |
| Server.CollectShows | app.js:112-120 | The inner `while` over `lineIndex` computes exactly that day's entries. |
| Server.ScheduleData.constructor | app.js:51 | The store starts empty. |
| Server.ScheduleData.Put | app.js:121 | Assigning one key updates its entry and appends the key only if it is new. |
| Server.ScheduleData.Refresh | app.js:108-128 | No response leaves the store unchanged (the callback does not run). A response body is parsed and every day is written as `WriteDays` says, with keys in insertion order. |
| Server.RenderCards | app.js:137-163 | The `html +=` loop over the keys computes exactly the cards of all keys, in key order. |
| Server.ScheduleData.GenerateScheduleHtml | app.js:134-166 | Every stored key has an entry, and the markup is the cards of all keys, in key order. |
| Server.ScheduleData.ShowSchedule | app.js:169-185 | A missing template gives status 500 and `Error loading page`. Otherwise the page is the template with its first placeholder replaced by the rendered schedule, read as a `replace` pattern; for markup without `$` that is the markup character for character. |
| ScheduleHtml.ShowItem | app.js:141-147 | Each show item opens with its markup and the show's time, printed as `FieldText(s.time)`. The title tags and `FieldText(s.title)` follow directly. The item ends with the description tags, `FieldText(s.description)` and the closing tags. `FieldText` prints an absent field as `undefined`. |
| ScheduleHtml.ShowsHtml | app.js:141-147 | The show items are empty exactly when there are no shows. |
| ScheduleHtml.ShowsHtmlAppend | app.js:141-147 | Show items appear in the order of the shows. |
| ScheduleHtml.DayNamesCapitalised | app.js:139 | `monday` shows as `Monday` and `sunday` as `Sunday`. |
| ScheduleHtml.DayCard | app.js:149-162 | A card is longer than its opening markup plus its key. It ends with the name tags, the capitalised key, the content-block opening, the markup of the day's entries and the closing tags. |
| ScheduleHtml.DayCardKey | app.js:150 | Each card starts with its opening markup, and its `data-day` attribute holds its key. |
| ScheduleHtml.Render | app.js:134-166 | An empty schedule renders as `""`, and only an empty one does. |
| ScheduleHtml.RenderAppend | app.js:137-163 | Cards follow the key order: rendering `a + b` gives the cards of `a`, then those of `b`. |
| ScheduleHtml.ConcatAppend | app.js:137-163 | Markup appended piece by piece: writing the pieces of `a + b` is writing those of `a`, then those of `b`. |
| ScheduleHtml.RenderOne | app.js:149-162 | A single key renders as exactly its card. |
| ScheduleHtml.RenderPrefix | app.js:137-163 | Each turn of the loop appends the next key's card. |
| ScheduleHtml.Expand | app.js:181 | A replacement without `$` is inserted unchanged. |
| ScheduleHtml.ReplaceFirst | app.js:181 | `replace` as evaluated changes nothing when the pattern is absent. Otherwise the text before and after the first occurrence is kept. |
| ScheduleHtml.ReplaceFirstLiteral | app.js:181 | Only the first occurrence is replaced, by the text character for character. The rest is kept, and a template without the placeholder is unchanged. |
| ScheduleHtml.FillsFirstPlaceholder | app.js:181 | Under the intended verbatim replacement: if the first placeholder follows `before`, the page is `before + html + after`. |
| ScheduleHtml.ReplaceAgreesWithoutDollar | app.js:181 | For content without `$`, the evaluated and the intended replacement agree. |
| ScheduleHtml.DollarPairCollapses | app.js:181 | Content `$$` becomes `$` on the page as the code builds it, but stays `$$` under the intended replacement. |
| ScheduleHtml.MatchedTextReinserted | app.js:181 | Content `$&` puts the placeholder itself back into the page. |
| ScheduleHtml.SchedulePage | app.js:181 | The page as the code builds it: the template when there is no placeholder; otherwise the text before and after the first placeholder is kept. Markup without `$` is inserted character for character. |
| ScheduleHtml.PageFillsPlaceholder | app.js:181 | Markup without `$` lands exactly where the first placeholder stood: the page is `before + html + after`. |
| Env.ParseLine | app.js:12-16 | A line binds nothing exactly when, once trimmed, it is empty or starts with `#`. A bound key never contains `=`. |
| Env.BindingTrimmed | app.js:14-15 | The key and the value come out trimmed. |
| Env.LineBinding | app.js:14-16 | For `k=v` (with `k` free of `=`) surrounded by any white space, the key is trimmed `k` and the value is trimmed `v`, later `=` signs included. |
| Env.NoEqualsLine | app.js:14-16 | A line without `=` binds its trimmed text to `""`. |
| Env.CommentLine | app.js:12-13 | Blank lines and comment lines bind nothing. |
| Env.ApplyLinesStep | app.js:9-17 | Lines are applied one by one, in file order: one more line is one more assignment. |
| Env.SetEnv | app.js:16 | Setting a variable stores the value under a non-empty name and changes nothing else. An empty name changes nothing. |
| Env.Assign | app.js:13-16 | A blank or comment line, or one with an empty key, changes nothing. Otherwise its key gets its value and every other key is untouched. |
| Env.ApplyBindings | app.js:17 | Writing bindings never removes a key. |
| Env.ApplyLines | app.js:11-18 | Loading lines never removes a key that was already in the environment. |
| Env.UnboundKept | app.js:17 | A key that no binding names keeps its value, or stays absent. |
| Env.EmptyNameUnset | app.js:11-18 | The empty name is never set. |
| Env.LastWins | app.js:11-18 | The last binding of a non-empty key decides its value. |
| Env.UnboundKeyKept | app.js:11-18 | Keys set by no line of the file keep their earlier value. |
| Env.LastBindingWins | app.js:11-18 | A later line with the same non-empty key overrides an earlier one. A line with the empty key sets nothing. |
| Env.Environment.constructor | app.js:16 | The environment starts with the given variables. |
| Env.Environment.LoadEnv | app.js:6-22 | An unreadable file leaves the environment unchanged. Otherwise each `\n`-separated line is applied in order. |
| JsStrings.Join | app.js:15 | A join begins with its first part. |
| JsStrings.JoinSeparators | app.js:15 | Parts free of the separator, joined, hold one separator fewer than there are parts. |
| JsStrings.StartsWith | app.js:13 | `startsWith` holds exactly when every character of the prefix matches the text at the same place. |
| JsStrings.Split | app.js:9 | `split` gives at least one part, and no part contains the separator. |
| JsStrings.SplitJoin | app.js:14-15 | Joining the parts of a split with the same separator gives back the text. |
| JsStrings.SplitAtFirst | app.js:14 | The first part of a split is the text before the first separator. |
| JsStrings.Trim | app.js:12 | Trimmed text is empty, or begins and ends with a non-white-space character. |
| JsStrings.TrimSurrounded | app.js:12 | Trimming removes exactly the surrounding white space. |
| JsStrings.TrimKeepsOut | app.js:14-16 | Trimming adds no character, so a key cut before the first `=` stays free of `=`. |
| JsStrings.TrimIdempotent | app.js:16 | Trimming twice is the same as trimming once. |
| JsStrings.IndexOf | app.js:181 | `indexOf` gives the first occurrence, or none when there is no occurrence. |
| JsStrings.Capitalize | app.js:139 | Only the first character is upper-cased; the length is kept. |
| JsStrings.UpperCase | public/script.js:368 | Upper-casing works character by character and keeps the length. |
| JsStrings.UpperCaseHasNoLower | public/script.js:368 | An upper-cased text holds no lower-case ASCII letter. |
| JsStrings.DecimalText | public/script.js:349 | A number's text is all digits, non-empty, and has no leading zero unless the number is 0. |
| JsStrings.DecimalTextValue | public/script.js:349 | Reading a number's decimal text back gives the number. |
| JsStrings.PadStart | public/script.js:361 | `padStart` keeps the text at the end and fills up to the width. |
| GigGuide.OrdinalSuffix | public/script.js:348 | `st`, `nd` or `rd` exactly for last digit 1, 2 or 3, except when `n % 100` is 11, 12 or 13. Otherwise `th`. Always two letters. |
| GigGuide.Ordinal | public/script.js:347-350 | The ordinal is the decimal text of `n`, which reads back as `n`, followed by its two-letter suffix. |
| GigGuide.OrdinalExamples | public/script.js:348 | 1st, 2nd, 3rd, 11th, 12th, 13th, 21st, 22nd, 23rd, 31st, 111th. |
| GigGuide.TwelveHour | public/script.js:363 | For hours 0..23 the 12-hour value is in 1..12 and agrees with the hour modulo 12. 0 maps to 12 and 13 maps to 1. |
| GigGuide.Meridiem | public/script.js:362 | `pm` exactly for hours of 12 or more. |
| GigGuide.To24 | public/script.js:362-363 | A 12-hour reading names an hour of the day. |
| GigGuide.TwelveHourRoundTrip | public/script.js:362-363 | The 12-hour value and am/pm give back the hour of the day. |
| GigGuide.TwelveHourInjective | public/script.js:362-363 | Distinct hours are shown differently. |
| GigGuide.MinutesText | public/script.js:361 | The minutes text is all digits, at least two of them (exactly two below 100), left-padded with `0`, and it reads back as the minutes. |
| GigGuide.TimeText | public/script.js:365 | The time is the 12-hour value, a colon, exactly the minutes text and the two-letter am/pm mark. |
| GigGuide.GigDate | public/script.js:368 | The date line is the upper-cased weekday, ordinal, month and time, separated by single spaces, and holds no lower-case ASCII letter. |
| GigGuide.TimeExamples | public/script.js:361-363 | 5 minutes shows as `05`. 0h is 12am and 19h is 7pm. |
| GigGuide.Venue | public/script.js:387-394 | Both present gives `city, venue`. Only one present gives that one. The result is `""` exactly when neither is present. |
| GigGuide.TicketAnchor | public/script.js:397-399 | The anchor is the fixed opening markup, exactly the link target, and the fixed closing markup. |
| GigGuide.TicketsLink | public/script.js:395-400 | The website is preferred over the listing url. The result is `""` exactly when neither is present. |
| GigGuide.Today | public/script.js:281-282 | `getDay()` 0 is `sunday`, and every entry of the table is a day the server stores. |
| GigGuide.TodayMatchesServerDays | public/script.js:281-282 | Index `d` of the Sunday-first table is index `(d + 6) % 7` of the server's Monday-first list. |

## Left out

- Network fetches (the spreadsheet at app.js:108, the gig guide and now-playing feeds in public/script.js) are I/O; their results are parameters.
- Server.ScheduleData.Refresh: a failed fetch at app.js:108 has no `.catch`, so under Node 15 and later the unhandled rejection ends the process. The model only states that the callback does not run and the store is unchanged; whether the server keeps serving is not modelled.
- Env.Environment.LoadEnv: an assignment under an empty key is taken to do nothing, as `setenv` refuses an empty name; behaviour on platforms where the assignment throws, which would abandon the remaining lines, is not modelled.
- The refresh timer (app.js:131) and the browser polling timers: concurrency, not modelled; each refresh is one atomic call.
- Express routing, static files and `fs.readFile`/`readFileSync` (app.js:8, 27-48, 169-201) are I/O; file contents are parameters.
- The DOM, history, media session and audio code of public/script.js, and public/sw.js, are outside this model.
- `new Date(...)` parsing, `getDate`/`getHours`/`getMinutes`/`getDay` and the locale names of `toLocaleString` depend on time zone and locale; their values are parameters.
- The `JSON.parse(JSON.stringify(...))` copy (app.js:123) is the identity on these values, apart from dropping absent fields, which the model keeps as `None` and prints as `undefined` just as the template would.
- Csv.LinesRoundTrip: only text without `"` or `\r` is covered, so lines ending in `\r\n` or a bare `\r` are not re-joined by this lemma. Csv.RoundTrip covers plain records that all end in `\r\n`, or all in `\r`, and parse back to their cells.
- Csv.LineCommas: the comma count is proved only for text without `"` or `\r`; for records that all end in `\r\n` or `\r`, Csv.RoundTrip gives back the written cells instead.
- JsStrings.UpperCase and JsStrings.Capitalize: only ASCII letters are upper-cased; full Unicode case mapping is not modelled.
- Server.AddKeys: integer-like keys, which JavaScript objects order before other keys, are not modelled; the keys stored here are day names.
- Strings are sequences of `char`, each a Unicode scalar value, while JavaScript strings are UTF-16 code units. No modelled operation splits a character outside the Basic Multilingual Plane into its two code units: the separators, quotes and padding characters are all single code units, and `charAt(0)` is only applied to day names. `trim` uses the ECMAScript white-space and line-terminator set.
- The gig image markup and the gig card markup (public/script.js:401-418) are DOM output, not part of this model.
- Env.Environment.LoadEnv: `process.env` is modelled as a string map; its conversion of assigned values to strings is not needed because every value is a string.
- `PORT = process.env.PORT || 3000` (app.js:28) is not part of this model.

## Findings

| source | as written | input that shows it | evidently intended | confidence | as-written member | corrected member |
|---|---|---|---|---|---|---|
| app.js:181 | the string-pattern `replace` of the placeholder treats the schedule markup as a replacement pattern, so `$$`, `$&`, `` $` `` and `$'` in sheet text are expanded | a show titled `$$` appears as `$`; a title `$&` prints `{{SCHEDULE_CONTENT}}` | insert the markup verbatim (for example with a replacer function) | medium, not executed | ScheduleHtml.DollarPairCollapses | ScheduleHtml.ReplaceFirstLiteral |
