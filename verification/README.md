# Workshop ledger bot — a Dafny model

This project models the core of a WhatsApp bot that a car workshop uses as its
cash book. Allow-listed owners send short text commands:

- `+ 250,50 Suspensão Gol` records money coming in (`Entrada`).
- `- 100 Peças` records money going out (`Saída`).
- `resumo` lists the last ten records and their balance.
- `pdf` produces an itemised report.
- `limpar tudo` empties the ledger.
- `menu`, `ajuda` or `leoncio` shows the help text.

The ledger is a list of transactions kept in memory and written to a store file
after every change.

The heart of the model is the `messages.upsert` handler, written as one pure step,
`Bot.Handle(state, message, now) -> Step(state', replies)`. The state holds the
in-memory ledger and what the store holds. Sending a reply, writing the store and
drawing the report are results of the step, not effects. The time a record is
stamped with is the parameter `now`.

The modules follow the program:

| module | file | what it holds |
|---|---|---|
| `Optional` | optional.dfy | the `Option` type |
| `JsString` | jsstring.dfy | the JavaScript string operations the handler relies on: `trim`, `toLowerCase`, `split(' ')`, `join`, `indexOf`, `substring(0, n)`, `replace` of the first occurrence |
| `NumberParse` | numberparse.dfy | `parseFloat`: the longest decimal literal after leading white space, with its exact rational value |
| `Bookkeeping` | bookkeeping.dfy | transactions, the ledger, the per-kind totals and the signed balance |
| `Report` | report.dfy | the report document: totals, and the table rows with their page and y position |
| `Bot` | bot.dfy | the handler: authorisation, command classification, record parsing, summary, the step itself |
| `HandlerLaws` | handlerlaws.dfy | what the handler promises per command, and the store staying in step with the ledger over any run |
| `Connection` | connection.dfy | the `connection.update` listener: QR display, restart after a close, online announcement |
| `Scenarios` | scenarios.dfy | concrete conversations proved end to end |

Some behaviours of the source show up in the model:

- Records are split on single spaces. So `+250`, `+` and `+  250` have no amount, or an empty one, and are answered with the format error.
- Only the first comma of the amount becomes a decimal point, and `parseFloat` stops at the first character that cannot continue the number. So `+ 1,000,50` records 1, not one thousand (`Scenarios.RecordThousandsSeparator`).
- The amount keeps its typed sign: `+ -5` records an *entry* of -5.
- The `resumo` balance covers only the records it lists, the last ten. The report's totals cover the whole ledger.
- The report table starts at y = 220 and moves 20 per row. Before a row, a cursor past 750 starts a new page at y = 50. So the first page holds 27 rows and every later page holds 36.

## Model

| member | source | states |
|---|---|---|
| JsString.TrimStart | index.js:55 | the result is the longest suffix not starting with ECMAScript white space; everything dropped is white space |
| JsString.TrimEnd | index.js:55 | the result is the longest prefix not ending with white space; everything dropped is white space |
| JsString.Trim | index.js:55 | the result is a slice of the input with only white space before and after it, and it neither starts nor ends with white space |
| JsString.TrimPadded | index.js:55 | white space on both sides of a text that does not itself start or end with white space is removed, and nothing else is |
| JsString.TrimIdempotent | index.js:55 | trimming twice is trimming once |
| JsString.ToLower | index.js:56 | lower-casing keeps the length, leaves no upper-case letter, and changes a character only when it is an upper-case letter, into its lower-case letter |
| JsString.LowerMatches | index.js:56 | a lower-cased text equals a lower-case command word exactly when it has the word's length and each character is the word's character or its upper-case letter |
| JsString.Split | index.js:85 | `split(' ')` gives at least one piece, no piece contains the separator, and the first piece is the text up to the first separator |
| JsString.JoinSplit | index.js:85-88 | joining the pieces of a split with the separator gives the text back |
| JsString.SplitJoin | index.js:88 | splitting a join of separator-free pieces gives the pieces back |
| JsString.Take | index.js:166 | `substring(0, n)` is a prefix of at most `n` characters, and it is the whole text when that is shorter |
| JsString.ReplaceFirst | index.js:86 | replacing the first occurrence changes exactly the character at the first occurrence, and nothing when there is none |
| NumberParse.ScanMantissa | index.js:87 | a mantissa is found exactly when the text starts with a digit, or with a point and a digit, and it never reaches past the text |
| NumberParse.ScanLiteral | index.js:87 | a literal is found exactly when the text starts with an optional sign and a mantissa; it is negative exactly when the text starts with `-` |
| NumberParse.ParseFloat | index.js:87 | the result is a number exactly when a literal starts after the leading white space, and its sign follows the literal's sign |
| NumberParse.ParseNegated | index.js:87 | a minus sign in front of an unsigned number negates its value, and it is not a number without one |
| NumberParse.CommaDecimal | index.js:86-87 | `whole,fraction`, with its first comma turned into a point and followed by text that cannot continue the number, parses to exactly `whole.fraction` |
| NumberParse.WholeNumber | index.js:87 | digits followed by text that cannot continue the number parse to the integer they denote |
| NumberParse.DigitRunPrefix | index.js:87 | text after the first non-digit does not change the run of leading digits |
| Bookkeeping.BalanceIsInMinusOut | index.js:110-117 | the signed running balance used by `resumo` equals the entries minus all other amounts, as the report computes it |
| Bookkeeping.TotalsAdd | index.js:139-140 | the totals and the balance of a ledger are the sums of those of any front and back it splits into |
| Bookkeeping.Last | index.js:111 | `slice(-10)` has `min(10, n)` records and is the ledger's tail |
| Report.DrawRow | index.js:161-167 | a row is shaded iff its index is even; the date shown is the timestamp up to its first space; the description shown is a prefix of the stored one: all of it when it has at most 40 characters, else exactly its first 40 |
| Report.LoopSpots | index.js:155-168 | the table loop draws as many rows as there are transactions, each at a y between 50 and 750 |
| Report.Layout | index.js:159-169 | the table has one row per transaction, in ledger order, each drawn from its own transaction and index |
| Report.SpotOfIsPlacement | index.js:155-168 | the row-by-row cursor places row `i` at the closed form: y = 220 + 20i on the first page for i < 27, else page 1 + (i − 27) / 36 at y = 50 + 20((i − 27) mod 36) |
| Report.LoopSpotsAgree | index.js:155-168 | every row the loop draws lands where the row-by-row cursor says |
| Report.LayoutPlacement | index.js:155-169 | every table row is drawn at its closed-form page and y |
| Report.NewPageExactly | index.js:160 | a row starts a new page exactly when the cursor below the previous row exceeds 750, which is at row 27 and every 36 rows after |
| Report.PageCapacity | index.js:155-168 | the first page holds rows 0 to 26, and each later page holds exactly 36 rows |
| Report.BuildDocument | index.js:139-169 | the report's entry total, other-amounts total and balance are those of the whole ledger; it has one row per transaction, each at its closed-form place and drawn from that transaction |
| Bot.Boot | index.js:12 | at start-up the ledger is what the store holds, or empty without a store, and the two agree |
| Bot.Save | index.js:14-16 | saving makes the store hold exactly the ledger |
| Bot.BodyText | index.js:55 | the text is the conversation text when it is non-empty, else the extended text when that is non-empty, else empty |
| Bot.Classify | index.js:68-184 | each intent is chosen exactly when its own test holds (menu word, leading sign, `resumo`, `pdf`, `limpar tudo`), compared lower-cased except for the sign |
| Bot.Author | index.js:96 | the author is the prefix of the sender id before its first `@` and holds no `@` |
| Bot.ParseRecord | index.js:83-97 | a record exists exactly when the amount between the first and second space parses; it then has the sign's kind, that amount, the description after the second space (or the placeholder) and the sender's author |
| Bot.PiecesAfterSpace | index.js:85-88 | the second piece of `split(' ')` exists iff there is a space and is the text between the first and second space; the later pieces join back to the text after the second space |
| Bot.SummaryReply | index.js:106-117 | "no data" exactly for the empty ledger; otherwise the last `min(10, n)` records in ledger order, with the balance of those records only |
| Bot.RecordCommand | index.js:83-103 | when the amount between the first and second space parses, the transaction with the sign's kind, that amount, the typed description and the sender's author is appended, the store then holds the new ledger, and the record is confirmed; otherwise nothing changes and the format error is the only reply |
| Bot.Respond | index.js:68-189 | every reply goes to the sender, at most two, none exactly for unmatched text, and the state either stays, becomes the saved empty ledger, or the saved ledger with one record appended |
| Bot.Handle | index.js:50-190 | only the sender is answered, at most twice; nothing changes without a reply; every change leaves the store holding the ledger; the ledger stays, grows by one at the end, or is emptied |
| Bot.HandleUpsert | index.js:50-52 | only the first message's sender is ever answered, at most twice; the store stays in step with the ledger; an empty batch changes nothing |
| Bot.LaterMessagesIgnored | index.js:50-52 | messages after the first in one event have no effect: the event is its first message's step |
| HandlerLaws.Dropped | index.js:52-65 | a message with no content, one the bot sent, or one from outside the allow-list changes nothing and gets no reply |
| HandlerLaws.HandleAuthorised | index.js:52-65 | an authorised message is answered according to its trimmed text |
| HandlerLaws.RepliesExactlyOnCommands | index.js:52-189 | a reply is sent iff the message is authorised and its text is a command; other text changes nothing |
| HandlerLaws.MenuWords | index.js:68-81 | a menu word in any case and padding gets the menu alone and changes nothing |
| HandlerLaws.InvalidAmountChangesNothing | index.js:85-102 | a signed command whose amount is missing or does not parse leaves ledger and store as they were and gets the format error alone |
| HandlerLaws.ValidRecordAppends | index.js:84-99 | a signed command with an amount appends exactly one transaction at the end, with kind, signed amount, description, author and time as typed; the store then holds the new ledger and the reply repeats the record |
| HandlerLaws.AfterFirstWord | index.js:85-86 | after a one-character word and a space, the second piece starts with the rest of the text |
| HandlerLaws.WordThenRest | index.js:85-88 | a separator-free word followed by a space splits into that word and what follows |
| HandlerLaws.LoneWord | index.js:85-86 | a text without a space has no second piece |
| HandlerLaws.TypedFromRest | index.js:85-88 | the amount is read from the first word after the first space, and the description from what follows that word's space |
| HandlerLaws.RecordWords | index.js:85-88 | in `<sign> <amount> <description>` the amount is the word after the sign and the description is everything after it, inner spaces included |
| HandlerLaws.RecordWithoutDescription | index.js:85-88 | `<sign> <amount>` alone gets the placeholder description |
| HandlerLaws.ClearEmpties | index.js:184-189 | `limpar tudo` empties both the ledger and the store and gets the confirmation |
| HandlerLaws.SummaryChangesNothing | index.js:106-120 | `resumo` changes nothing and replies with the ledger's summary |
| HandlerLaws.SummaryOfShortLedger | index.js:107-117 | on a non-empty ledger of at most ten records the summary lists all of them with the whole ledger's balance |
| HandlerLaws.SummaryIgnoresOlder | index.js:111 | records older than the last ten play no part in the summary |
| HandlerLaws.ReportChangesNothing | index.js:123-181 | `pdf` changes nothing; it acknowledges first, then sends the report built from the current ledger, whose totals are the whole ledger's entries, other amounts and their difference, with one row per record |
| HandlerLaws.ReportTwice | index.js:123-181 | asking for the report twice in a row, at any two times, leaves the state alone and gives the same replies, totals, balance and rows; only the header's time stamp follows each request's clock |
| HandlerLaws.RunStaysSynced | index.js:91-98 | over any sequence of messages, a store in step with the ledger stays in step |
| HandlerLaws.BootThenRun | index.js:12-16 | from any store and after any messages, reloading the store gives the in-memory ledger |
| Connection.OnUpdate | index.js:33-48 | a non-empty QR code is shown first; a restart after 3000 ms is scheduled exactly for a close whose code is not the log-out code; an open connection is announced; each effect happens at most once, so exactly one of each that applies |
| Connection.QrOnly | index.js:35-47 | an update that reports no connection state, or a connecting one, at most shows a QR code |
| Connection.CloseWithoutBoomRestarts | index.js:39-44 | a close without a Boom error restarts unless 0 is the log-out code; a Boom close with the log-out code does not restart |
| Scenarios.RecordEntryWithComma | index.js:83-99 | `+ 250,50 Suspensão Gol` appends an entry of 250.5 with that description, saves and confirms |
| Scenarios.RecordWithWordAmount | index.js:83-102 | `- abc peças` changes nothing and gets the format error |
| Scenarios.RecordWithoutSpace | index.js:85-101 | `+250` changes nothing and gets the format error |
| Scenarios.RecordWithDoubleSpace | index.js:85-101 | `+  250` changes nothing and gets the format error, because its amount piece is empty |
| Scenarios.RecordNegativeEntry | index.js:83-99 | `+ -5` appends an entry of -5 with the placeholder description |
| Scenarios.RecordThousandsSeparator | index.js:86-99 | `+ 1,000,50` appends an entry of 1 |
| Scenarios.SummaryOfNothing | index.js:106-107 | `resumo` on an empty start gets "no data" and changes nothing |
| Scenarios.StrangerIgnored | index.js:65 | `limpar tudo` from outside the allow-list changes nothing and gets no reply |
| Scenarios.PaddedReportCommand | index.js:55-124 | `  PDF \n` is the report command: acknowledgement, then the report, and nothing changes |
| Scenarios.ClearThenSummary | index.js:184-187 | `limpar tudo` then `resumo` empties ledger and store and then finds no data |

## Left out

- Socket set-up, credentials and the library version lookup (index.js:18-31) are transport glue over a library this model does not contain. So is the `catch` on the start-up call (index.js:193).
- The QR code is not drawn and console output is not modelled. `Connection.OnUpdate` only says which of these effects happen, and in which order.
- Connection.OnUpdate: the log-out code `DisconnectReason.loggedOut` belongs to the messaging library, so it is a parameter here. A restart is a `ScheduleRestart(3000)` effect; the timer and the fresh `initializeBot` it runs are not modelled.
- Reading and writing the store file and its JSON encoding (index.js:12, 15) are not modelled. The store is modelled as the ledger value it holds (`State.persisted`).
- Failures are not modelled: a failing write, a failing send, or an unreadable store at start-up.
- A stored record whose type is neither `Entrada` nor `Saída` cannot occur, because `Kind` has only those two values. The bot itself only ever writes these two.
- PDF drawing is not modelled: header, colours, fonts, boxes, column headings, the output stream and the `finish` callback (index.js:126-157, 171-180). The model keeps the totals and the table rows with their page, y, shading and column texts. The document is the second reply, sent after the acknowledgement.
- Reply wording is not modelled: emoji, `toFixed(2)`, `padEnd(8)`, the menu text. Replies are told apart by kind, and the amounts, records and documents they carry are kept.
- The timestamp `new Date().toLocaleString('pt-BR')` (index.js:92, 135) is the opaque string parameter `now`.
- Concurrency is not modelled. Each handler call runs to completion as one step, and interleaved `await`s of concurrent events are not covered.
- NumberParse.ParseFloat: the result is the exact rational value of the literal, not the nearest double. Overflow to infinity, and rounding in later sums, are therefore not modelled.
- NumberParse.ParseFloat: `Infinity`, `+Infinity` and `-Infinity` give `None` here, while `parseFloat` returns an infinite number that `isNaN` accepts. So `+ Infinity` would be recorded by the source but is an invalid format in the model.
- JsString.ToLower: maps ASCII letters only. Besides ASCII itself, only the Kelvin sign (to `k`) and the dotted capital I (to two characters) lower-case to ASCII letters. No command word contains `k`, and the two-character result is never a command word, so this limit does not change which command a text is.
- JsString.Take: counts characters, while `substring` counts UTF-16 code units. A description with characters outside the Basic Multilingual Plane, such as emoji, may be cut at a different place.
- Bot.HandleUpsert: for an empty batch the source throws before it has any effect. Here that is a step that changes nothing and sends nothing.
