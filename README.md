# Admin panel and expense charts of woody_japan, in Dafny

This project models two pieces of the woody_japan site.

The first is the browser admin panel in `docs/js/admin.js`. It edits the site's JSON data files in place through the GitHub contents API. The panel keeps:

- a bearer token;
- the selected category (research or living) and the selected file of the fixed catalog `FILES`;
- `fileCache`, a map from repository path to an edit buffer `{content, sha, original}`.

Each event handler is one method of the class `Admin.AdminPanel`:

- authenticate and session restore;
- category click and file selection;
- editor input, format and validate;
- save;
- rendering the file tabs and the meta line under the editor.

The handlers mutate `fileCache` and the other fields of the class. The save path is modelled step by step:

1. The checks, in the order the handler makes them.
2. The conditional write the save sends.
3. The update of the buffer from the reply.

Text reaches the contents API base 64 encoded, over UTF-8 bytes. `Utf8` models UTF-8 as RFC 3629 defines it. `Base64` models base 64 as section 4 of RFC 4648 defines it. `Transport` composes them as a read and a write do. UTF-8 is proved to round-trip in both directions: decoding an encoding gives the text back, and bytes that decode are the encoding of what they decode to. Base 64 is proved to round-trip only as decoding after encoding. Decoding ignores the bits under padding, so it is not injective, and a text that decodes need not be the encoding of its bytes.

The second piece is in `docs/js/charts.js`:

- the doughnut data of `buildSingleExpenseChart`, which keeps categories with a share of at least 5 and folds the rest into one trailing "기타" (other) slice;
- the colour rule of the CPI bar chart.

Some things are parameters rather than part of the model:

- What the network returns: the `/user` lookup, the file read and the write reply. Each is a `Result` handed to the method that awaits it.
- `JSON.parse` and `JSON.stringify(…, null, 2)`. They are the two function fields of a `Json` value the panel is built with.
- `sessionStorage['gh_token']`. It is the field `storedToken`.

Files:

| file | module | contents |
|---|---|---|
| wrappers.dfy | `Wrappers` | `Option`, `Result` |
| text.dfy | `Text` | `split`, line count, last path segment, trailing newline, `trim`, `slice` |
| utf8.dfy | `Utf8` | UTF-8 (RFC 3629) |
| base64.dfy | `Base64` | base 64 (section 4 of RFC 4648) |
| transport.dfy | `Transport` | the read and write text transforms of the contents API |
| catalog.dfy | `Catalog` | `FILES` |
| admin.dfy | `Admin` | buffers, loads, saves, and the class `AdminPanel` |
| charts.dfy | `Charts` | the expense doughnut and the CPI colours |

## Model

| member | source | states |
|---|---|---|
| Text.Split | docs/js/admin.js:268 | `split` on one character: at least one piece, and no piece contains the separator |
| Text.SplitLength | docs/js/admin.js:268 | splitting gives one piece more than there are separators |
| Text.JoinSplit | docs/js/admin.js:268 | joining the pieces with the separator gives the string back, so the split loses nothing |
| Text.SplitLast | docs/js/admin.js:236 | the last piece is a suffix; it is either the whole string or preceded by the separator |
| Text.LineCount | docs/js/admin.js:268 | the line count shown under the editor is the number of `'\n'` plus one |
| Text.LastSegment | docs/js/admin.js:236 | the file name of the commit message is the longest `/`-free suffix of the path |
| Text.CommitMessage | docs/js/admin.js:236 | the message is `Update `, then the longest `/`-free suffix of the path, then ` via admin panel` |
| Text.WithTrailingNewline | docs/js/admin.js:231 | the written text ends with `'\n'`; it is the buffer text plus at most one character; text already ending in `'\n'` is unchanged, so the normalisation is idempotent |
| Text.Take | docs/js/admin.js:240 | `slice(0, 7)` gives a prefix of length min(n, length) |
| Text.LeadingSpace | docs/js/admin.js:86 | the leading run that `trim` removes is white space and ends at the first other character |
| Text.TrailingSpace | docs/js/admin.js:86 | the trailing run that `trim` removes is white space and starts after the last other character |
| Text.Trim | docs/js/admin.js:86 | the token is the slice between the leading and trailing white space; it is empty or starts and ends with a non-space |
| Utf8.Cont | docs/js/admin.js:72 | a continuation byte carries the low six bits of its argument |
| Utf8.EncodeChar | docs/js/admin.js:72 | one character becomes 1 to 4 bytes, and 1 byte exactly for ASCII |
| Utf8.Encode | docs/js/admin.js:72 | the byte length lies between one and four times the number of characters |
| Utf8.SequenceLength | docs/js/admin.js:67 | a lead byte announces at most four bytes |
| Utf8.DecodeFirst | docs/js/admin.js:67 | a successful read consumes the number of bytes its lead byte announces, and no more than there are |
| Utf8.DecodeFirstEncodeChar | docs/js/admin.js:67 | decoding reads back the first encoded character and its exact length |
| Utf8.EncodeCharDecodeFirst | docs/js/admin.js:67 | every decoded character re-encodes to exactly the bytes it was read from, so overlong forms and surrogates are rejected |
| Utf8.DecodeEncode | docs/js/admin.js:67 | decoding the UTF-8 of any text gives the text back |
| Utf8.EncodeDecode | docs/js/admin.js:67 | bytes that decode are the UTF-8 encoding of what they decode to |
| Utf8.DecodeLength | docs/js/admin.js:67 | bytes that decode hold one to four bytes per decoded character |
| Base64.CharOf | docs/js/admin.js:72 | no 6-bit value is encoded as `=` or a line break |
| Base64.ValueOf | docs/js/admin.js:67 | an alphabet character decodes to the value that encodes to it |
| Base64.ValueOfCharOf | docs/js/admin.js:67 | every 6-bit value is recovered from its character |
| Base64.Encode | docs/js/admin.js:72 | `btoa` output has no line break |
| Base64.EncodeLength | docs/js/admin.js:72 | each started group of three bytes yields four characters |
| Base64.EncodeLengthMultiple | docs/js/admin.js:72 | the encoded length is a multiple of four |
| Base64.DecodeEncodeGroup | docs/js/admin.js:67 | a full group of three bytes decodes back to those bytes |
| Base64.DecodeEncode | docs/js/admin.js:67 | decoding the base 64 of any bytes gives the bytes back, padding included |
| Base64.DecodeLength | docs/js/admin.js:67 | a text that decodes has a length that is a multiple of four, and gives three bytes per group less at most two for padding |
| Base64.DecodeIgnoresPaddingBits | docs/js/admin.js:67 | decoding is not injective: `AB==` decodes to the byte 0, whose encoding is `AA==` |
| Transport.StripNewlines | docs/js/admin.js:67 | `replace(/\n/g, '')` leaves no line break, never lengthens, and leaves text without line breaks unchanged |
| Transport.StripNewlinesConcat | docs/js/admin.js:67 | stripping distributes over concatenation |
| Transport.StripNewlinesChar | docs/js/admin.js:67 | a line break is removed and any other character kept; with the concatenation rule this fixes the result on every string |
| Transport.EncodeContent | docs/js/admin.js:72 | the encoded content of a write has no line break and a length that is a multiple of four |
| Transport.DecodeEncodeContent | docs/js/admin.js:67 | a read of what a write sends gives the written text back |
| Transport.EncodeDecodeContent | docs/js/admin.js:67 | the text a read returns encodes to exactly the bytes that were read |
| Transport.StripWrap | docs/js/admin.js:67 | stripping line breaks undoes wrapping base 64 into lines |
| Transport.DecodeWrappedContent | docs/js/admin.js:67 | line breaks in the API's base 64 do not change what a read returns |
| Transport.DecodeContentIgnoresNewlines | docs/js/admin.js:67 | a read gives the same result before and after its line breaks are removed |
| Catalog.Files | docs/js/admin.js:6-23 | each category lists six files |
| Catalog.FileIdsDistinct | docs/js/admin.js:6-23 | within a category the file ids are distinct |
| Admin.Seed | docs/js/admin.js:147-152 | a first load succeeds exactly when the read succeeds, the content decodes and it parses; the new buffer is unmodified, holds the pretty-printed text and the returned sha |
| Admin.Load | docs/js/admin.js:135-159 | a buffered path is reused without a fetch; a path without a buffer gets one only when the load succeeds; other entries are untouched; on failure the editor is empty and the error says why |
| Admin.Edit | docs/js/admin.js:173-176 | an edit changes only `content`; the buffer is modified exactly when the new text differs from `original` |
| Admin.Commit | docs/js/admin.js:238-239 | after a successful write `original` is the buffer text and `sha` the returned one, so the buffer is no longer modified |
| Admin.WriteRequest | docs/js/admin.js:71-82 | the write goes to the buffer's path on branch `main` with the commit message of that path, conditional on the buffer's sha |
| Admin.WriteRequestDecodes | docs/js/admin.js:231-237 | reading back what a save writes gives the buffer text with a final newline |
| Admin.IsModified | docs/js/admin.js:127-129 | a buffer is modified when its text differs from the saved text; `Edit`, `Commit`, `Save`, `RenderFileTabs` and `Meta` state how the flag moves and where it shows |
| Admin.TabFor | docs/js/admin.js:122-130 | one tab of the strip; `ActiveById` and `RenderFileTabs` state which tab is active and which modified |
| Admin.ActiveById | docs/js/admin.js:124 | with distinct ids, the id comparison marks exactly the current file |
| Admin.AdminPanel.constructor | docs/js/admin.js:26-29 | no token, the research category, no file, no buffers |
| Admin.AdminPanel.SelectFile | docs/js/admin.js:135-159 | the file becomes current and the buffers, editor and outcome are those of `Load`; the invariant is kept |
| Admin.AdminPanel.ShowEditor | docs/js/admin.js:114-118 | the editor appears and the first file of the current category is loaded |
| Admin.AdminPanel.Authenticate | docs/js/admin.js:85-102 | a blank token does nothing; a rejected token clears `token` and touches no buffer; an accepted one is stored for the session and the first file is loaded |
| Admin.AdminPanel.RestoreSession | docs/js/admin.js:105-111 | with no stored token, or a blank one, nothing changes; otherwise the state and outcome are those of an authenticate click with the stored token |
| Admin.AdminPanel.SelectCategory | docs/js/admin.js:162-170 | a click outside a category tab changes nothing; a category click makes that category current and loads its first file; the token, the session and the editor's visibility never change |
| Admin.AdminPanel.Input | docs/js/admin.js:173-179 | the editor takes the text; only the current buffer's content changes, and without a current buffer no buffer changes; selection, token, session and editor visibility are unchanged |
| Admin.AdminPanel.Format | docs/js/admin.js:182-196 | text that does not parse changes nothing; text that parses is replaced by its pretty form in the editor and the current buffer; selection, token, session and editor visibility are unchanged |
| Admin.AdminPanel.Validate | docs/js/admin.js:198-205 | valid exactly when the editor text parses |
| Admin.AdminPanel.SaveStop | docs/js/admin.js:207-225 | the checks in source order: no file, no buffer, unparsable text (before the no-changes check), unmodified buffer; the write goes ahead exactly when none applies |
| Admin.AdminPanel.Save | docs/js/admin.js:207-247 | a write is sent exactly when no check stops it, and it is the write of the current buffer; a stop changes no buffer; success commits the buffer and reports the short commit sha; failure leaves the buffers as they were and the file modified; editor, selection, token, session and editor visibility are unchanged; the save button ends enabled |
| Admin.AdminPanel.ApplyReply | docs/js/admin.js:238-246 | a successful reply commits the buffer of the path; a failed one changes no buffer |
| Admin.AdminPanel.RenderFileTabs | docs/js/admin.js:120-133 | one tab per catalog file in order, with its id and label; a tab is active exactly for the current file, and modified exactly when its buffer exists and differs from the saved text |
| Admin.AdminPanel.Meta | docs/js/admin.js:262-273 | no meta line without a current buffer; otherwise the line count of the editor text and whether the buffer is modified |
| Charts.Major | docs/js/charts.js:30 | every kept category has a share of at least 5 |
| Charts.Minor | docs/js/charts.js:31 | every folded category has a share below 5 |
| Charts.PartitionOfCategories | docs/js/charts.js:30-31 | the two filters split the categories: together they hold each category exactly once |
| Charts.MajorKeepsOrder | docs/js/charts.js:30 | filtering commutes with concatenation, so kept categories keep their order |
| Charts.MinorKeepsOrder | docs/js/charts.js:31 | the same for the folded categories |
| Charts.AllMajor | docs/js/charts.js:30-31 | when every share is at least 5, all categories are kept and none is folded |
| Charts.Reduce | docs/js/charts.js:32 | the left fold from an accumulator is the accumulator plus the right-fold total of the amounts |
| Charts.Names | docs/js/charts.js:33 | the labels are the names, position by position |
| Charts.Amounts | docs/js/charts.js:34 | the data are the amounts, position by position |
| Charts.SumAmounts | docs/js/charts.js:34 | the data of a list of categories add up to their total amount |
| Charts.SumAppend | docs/js/charts.js:34 | appending a slice adds its value to the sum |
| Charts.TotalSplits | docs/js/charts.js:30-32 | the total of all categories is the total of the kept ones plus the total of the folded ones |
| Charts.SingleExpense | docs/js/charts.js:30-34 | labels and data have the same length, one more than the kept categories; kept categories come first in order with their names and amounts; the last slice is "기타" holding the total of the folded ones |
| Charts.NoMinorMeansZeroOther | docs/js/charts.js:31-34 | with no category below 5 the trailing slice is still there and holds 0 |
| Charts.SingleExpenseConservesTotal | docs/js/charts.js:30-34 | the slices add up to the total of all categories, so nothing is lost or counted twice |
| Charts.CpiBarColour | docs/js/charts.js:134 | blue exactly for a negative value, red exactly above 5, orange exactly from 0 to 5 inclusive |

## Left out

- The GitHub REST plumbing (`ghAPI`, `fetch`, headers, the error message built from a failed response) is left out. Each response is a `Result` parameter, and the error text is carried through as it is given.
- `sessionStorage` is the field `storedToken`, and the `/user` lookup is the `user` parameter. The owner and repository name in the request URLs are left out.
- `JSON.parse` and `JSON.stringify` are abstract. Nothing is assumed about them beyond their being functions of the text, so format idempotence is not claimed.
- The DOM is left out: status text and classes, `innerHTML`, the filename label, the `setTimeout` that hides the status, and the keyboard shortcuts, which only forward clicks. The tabs and the meta line are returned as values.
- The size in KB on the meta line is left out. It is floating-point formatting of a browser `Blob` size.
- Overlapping asynchronous handlers are left out. Each handler runs to completion, with its awaited results given up front.
- The save handler holds `cache` across the await. An edit made while the write is in flight would be taken as saved by `cache.original = cache.content`, and that race is not modelled.
- `atob` also accepts other ASCII white space and missing padding, and those inputs are not modelled. The contents API sends padded base 64 broken by `'\n'` only. Decoding accepts non-zero bits left over before padding, as `atob` does, so encoding after decoding is not the identity on every text that decodes; `Base64.DecodeIgnoresPaddingBits` exhibits one such text.
- A lone surrogate cannot occur in a Dafny `char`, so the case where `encodeURIComponent` throws on one cannot be written down.
- Admin.AdminPanel.SelectCategory: a click reaches the model as `Option<Category>`. A `data-category` value that names neither category, which the source would store and then fail on, is not modelled.
- A `share` that is missing or `NaN` fails both `>= 5` and `< 5` in JavaScript and is dropped by both filters. Shares are modelled as real numbers, where that cannot happen.
- Charts.CpiBarColour: a `NaN` value, which the source colours orange, is not modelled.
- Amounts are unbounded integers and shares are reals. JavaScript number rounding is not modelled.
- The Chart.js options, the colour list of the doughnut, the tooltip percentages and the other charts of `docs/js/charts.js` are left out.
- The class invariant does not state that every buffered path is a catalog path. The handlers only ever buffer catalog paths, but that invariant is not proved.
- `docs/js/renderer.js`, `docs/js/living-renderer.js` and `docs/js/main.js` are not part of this model.
