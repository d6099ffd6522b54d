# emailparser-livin, modelled in Dafny

The system is an e-mail worker. It receives bank transfer notifications, usually
forwarded ones, and posts a short summary of each to a Telegram chat. This
project models the part of `src/index.ts` that decides what that summary says:

- `escapeMarkdown` (module `Markdown`). It puts a backslash in front of every
  `_`, `*`, backquote and `[` so that a value cannot open emphasis, code or a
  link in the chat's legacy Markdown mode.
- `parseTransactionDetails` (module `Transaction`). It reads four values out of
  the bank's HTML: `penerima` (recipient), `nominal` (amount), `noRef`
  (reference number) and `sumberDana` (source of funds). A value that cannot
  be found stays `N/A`.
- `parseForwardedMail` (module `Forwarded`). It reads the sender, subject and
  date of the original message from the quoted header block of a forwarded
  one. A value that cannot be found stays `undefined`, modelled as `None`.
- The handler's choice of sender, subject and date and its layout of the chat
  message (module `Notification`). These are lifted out of the `email` handler
  into pure functions.

Each of the seven `match` patterns is modelled by one shared scanner (module
`Pattern`), which follows the JavaScript engine's backtracking order (the two
`replace` patterns are modelled by `StripTags` and `EscapeMarkdown`):
1. the leftmost start;
2. then the earlier label alternative;
3. then the greedy `\s*` before the value, longest first;
4. then the lazy `(.*?)`, shortest first.

Module `JsText` holds the string primitives the code relies on:
- `\s`, which is also the set of characters `trim` removes;
- the line terminators that `.` does not match;
- `trim`;
- the case-insensitive comparison of the `i` flag. Every pattern character is
  ASCII, so this is ASCII case folding.

`IsMatch` says declaratively when a pattern matches with given split points.
The scanner `FirstMatch` is proved to find a match whenever there is one, and
to find the match the engine tries first (`Pattern.FirstMatchIsFirst`).

Three consequences of the code are worth knowing:

- The forwarded-header patterns at `src/index.ts:99`, `:107` and `:114` have no
  `^` anchor, so a label anywhere in the text counts. For example, `Sent:`
  matches inside `Unsent: x\n`.
- For the quoted line `From: Jane Doe <j@x.com>`, the sender header is
  `Jane Doe`. The tag stripping at `src/index.ts:103` takes `<j@x.com>` for an
  HTML tag and removes it (`Forwarded.SenderLineKeepsOnlyName`).
- A field is read from the first match only. When that match captures an empty
  value, the field stays `N/A` or `undefined` even if a later occurrence has a
  value. This is because the code tests `match[1]` for truthiness and does not
  search again.

## Model

| member | source | states |
|---|---|---|
| Markdown.EscapeMarkdown | src/index.ts:145-152 | The output is as long as the input plus one per special character. Every special character in the output has a backslash right before it, and the output never starts with a special character. |
| Markdown.UnescapeEscape | src/index.ts:151 | Escaping loses nothing: removing the inserted backslashes gives back the original text. |
| Markdown.EscapePlain | src/index.ts:151 | Text without `_`, `*`, backquote or `[` is left unchanged. |
| Markdown.EscapeIdentityIff | src/index.ts:151 | Escaping changes the text exactly when it contains a special character. |
| Markdown.EscapeKeepsCharacters | src/index.ts:151 | Escaping only adds backslashes: any other character occurs in the output exactly when it occurs in the input. |
| JsText.Trim | src/index.ts:70 | `trim` returns a slice of its input with white space on both sides removed, and the result begins and ends with a non-space character. |
| JsText.TrimIdempotent | src/index.ts:103 | Trimming twice is the same as trimming once. |
| JsText.TrimTrailingSpace | src/index.ts:103 | A trimmed, non-empty text followed by white space trims back to itself. |
| Pattern.Group | src/index.ts:68 | The captured value of `match` never holds a line terminator. |
| Pattern.FirstMatchIsFirst | src/index.ts:68 | Whenever a pattern matches anywhere, the scanner finds a match, and the engine tries it before any other. It is the leftmost match, and at that start the first in alternative, greedy and lazy order. |
| Pattern.GroupIffMatch | src/index.ts:99 | `match` yields a capture exactly when the pattern matches somewhere in the text. |
| Pattern.PreferredValue | src/index.ts:107 | The captured value is that of any match whose value is shared by every match the engine would try before it. |
| Pattern.CloseTagGroupTrimmed | src/index.ts:68-70 | For a pattern that ends in `\s*</tag>`, the captured value never starts or ends with white space. |
| Pattern.EarlierAlternativeWins | src/index.ts:74 | For a two-label alternation, there is a value exactly when one alternative matches. The value comes from whichever alternative matches earlier in the text, and from the first alternative on a tie. |
| Transaction.Field | src/index.ts:69-71 | A field is `N/A` when there is no match or the captured value is empty. Otherwise it is the captured value, which is non-empty, trimmed and on one line. |
| Transaction.ParseTransactionDetails | src/index.ts:57-92 | Empty markup gives `N/A` for all four fields. Every field is non-empty, trimmed and free of line terminators. |
| Transaction.EmptyMarkupEarlyReturnRedundant | src/index.ts:64 | No pattern matches empty markup, so without the early return the parser would give the same all-`N/A` result. |
| Transaction.FieldFromFirstMatch | src/index.ts:68-89 | A field read from a match is the value of a match that the engine tries before every other match of that pattern. |
| Transaction.FieldOfTwo | src/index.ts:74-77 | For a pattern with two labels, the field takes its value from whichever alternative matches earlier in the markup. |
| Transaction.NominalEarlierLabelWins | src/index.ts:74-77 | `nominal` comes from whichever of `Nominal Transaksi` and `Jumlah Transfer` starts a complete match earlier, or is `N/A` when neither matches. |
| Transaction.SumberDanaEarlierLabelWins | src/index.ts:86-89 | `sumberDana` comes from whichever of `Sumber Dana` and `Rekening Sumber` starts a complete match earlier, or is `N/A` when neither matches. |
| Transaction.PenerimaFromHeading | src/index.ts:68-71 | For markup `Penerima</p><h4>NAME</h4>...`, where the name is non-empty, trimmed, on one line and without `<`, `penerima` is exactly the name. |
| Forwarded.StripTags | src/index.ts:103 | After stripping, no `<` has a `>` after it. The result is no longer than the input and has no character the input lacks. |
| Forwarded.StripFirstTag | src/index.ts:103 | The text before the first complete tag is kept as it is, the tag `<...>` is removed as a whole, and stripping continues after it. With `StripTagsPlain` this fixes the result for every input. |
| Forwarded.StripTagsPlain | src/index.ts:110 | Text without a complete tag is left unchanged by stripping. |
| Forwarded.StripTagsIdempotent | src/index.ts:117 | Stripping twice is the same as stripping once. |
| Forwarded.HeaderValue | src/index.ts:99-104 | A header is `undefined` exactly when its pattern does not match or captures an empty value. When present, it is trimmed, has no complete tag and has no line terminator. |
| Forwarded.ParseForwardedMail | src/index.ts:94-121 | Every header that is found is trimmed, tag-free and on one line. |
| Forwarded.AbsentLabelLeavesUndefined | src/index.ts:95-100 | Without a matching label, colon and line break, the header stays `undefined`. |
| Forwarded.SenderLineKeepsOnlyName | src/index.ts:99-104 | `From: NAME <ADDRESS>` followed by a line break gives the sender `NAME` alone: the address is stripped as a tag. |
| Forwarded.FromLineValue | src/index.ts:99 | Take text that starts `From: `, continues with a value that does not start with white space and has at most one `<` (one that does not start `<br>`), and ends that value with a line break. The sender pattern captures exactly that value. |
| Forwarded.NameAndAddress | src/index.ts:103 | Cleaning `NAME <ADDRESS>` leaves `NAME`. |
| Notification.ResolveSubject | src/index.ts:26 | The subject is never empty. It is the forwarded subject if that is non-empty, else the message's own subject if non-empty, else `(No Subject)`. |
| Notification.ResolveSender | src/index.ts:27 | The sender is never empty. It is the forwarded sender if that is non-empty, else `name <address>` of the message's sender, else `(Unknown Sender)`. |
| Notification.ResolveDate | src/index.ts:28 | The date is non-empty exactly when the forwarded date is non-empty, and then it is that date. |
| Notification.Compose | src/index.ts:33-46 | The message, built by appending the date line only for a non-empty date, is the fixed list of lines joined with line breaks. |
| Notification.MessageLayout | src/index.ts:33-46 | The lines come in a fixed order: the unescaped sender in bold, a blank line, the subject, the date line when there is a forwarded date, a blank line, the title and the four fields. Every value except the sender has each special character escaped, and unescaping its line reads the value back. |
| Notification.DateLineIffForwardedDate | src/index.ts:37-39 | The message has a `*Date:*` line exactly when the forwarded block has a non-empty date. |
| Notification.ForwardedSource | src/index.ts:23 | The header block is read from the text body if it is non-empty, else from the HTML body if that is non-empty, else from the empty text. |
| Notification.DetailsSource | src/index.ts:31 | The transaction is read from the HTML body if it is non-empty, else from the text body if that is non-empty, else from the empty text. |
| Notification.Handle | src/index.ts:22-46 | The message is the line list built from the forwarded headers of `ForwardedSource` and the transaction details of `DetailsSource`, with the message's own subject and sender as fallbacks. |
| Notification.BothBodiesSplit | src/index.ts:23-31 | With both bodies present, the header block comes from the text body and the transaction from the HTML body. |
| Notification.LiveDateNeverShown | src/index.ts:28 | The incoming message's own date never affects the chat message. |

## Left out

- MIME decoding of the raw message (`src/index.ts:19-20`) is not modelled. The handler's input is modelled as the decoded `Email`: text body, HTML body, subject and sender.
- Sending the message (`sendToTelegram`, `src/index.ts:123-143`) is left out: it is a network call. The model ends with the message text.
- The configuration check (`src/index.ts:10-16`), the `try`/`catch` and the console logging are left out. They only decide whether anything is sent at all.
- `scripts/test-local.ts` is not part of this model. It is a local copy of the same parsers for manual runs.
- Strings are sequences of Unicode code points, not UTF-16 code units. The mail emoji in the header is one character here and two code units in JavaScript. No contract depends on lengths counted in code units.
- The regular-expression engine is modelled only for the shape the seven `match` patterns share. It is not a general engine.
- How the chat service renders legacy Markdown is left out. The model stops at the escaped text.
- Address: a sender without an address, such as a group, is printed by the code as `name <undefined>`. `Address` always holds an address string, so that output is not represented.
