# bitbar-github-prs, modelled in Dafny

The repository holds three menu-bar scripts and the helper module two of them share:

- `github-contributions.js` counts the GitHub contributions of a list of users for today. It sorts the users by total and saves a dated snapshot of the totals. For each user it prints the changes between the five most recent saved snapshots.
- `github-pull-requests.5m.js` fetches the open pull requests of a fixed list of repositories. It prints one block per repository, under a title that shows the total count.
- `github-releases.5m.js` fetches the tags of a list of repositories. It prints the newest tag of each one, linked to its commit page, next to the version that is currently deployed.
- `_helpers.js` provides:
  - the `.env` reader `_parseEnv`;
  - the strftime-like `dateFormat`;
  - `getContent`, which issues a GET request and settles a promise with the body.

The model keeps the scripts' own structure. Code that computes a value becomes a function. Code that loops, or fills an array, an object or a string step by step, becomes a method with loop invariants. Each method is proved equal to the function that specifies it.

The outside world is passed in as parameters:

- **The network** is a function `Request -> Reply`. A reply is either a connection error or a response with a status, its headers and its body chunks.
- **The JSON parser** is a function from text to the parsed records, or `None` when parsing fails.
- **The clock** comes in two forms:
  - the current time is a given `Date` (year, zero-based month, day, hours, minutes, seconds);
  - the rate-limit reset time is a function from the header text to a `Date`.
- **The `.env` file** is its text, or `None` when it is missing or unreadable.
- **The saved snapshot file** is a map from date key to records.
- **`process.argv`** is a sequence of strings.

Each script's output is modelled as the text it writes to standard output.

The modules are:

- `JsText` (text.dfy): the JavaScript string primitives the scripts use:
  - `trim`;
  - `split` on one character, and `join`;
  - `indexOf`;
  - `replace` with a string pattern, which replaces the first occurrence only;
  - number-to-string conversion;
  - the `<` order on strings.
- `JsObject` (object.dfy): objects filled by `obj[key] = value` assignments.
- `Base64` (base64.dfy): `Buffer.from(text).toString('base64')`. This is UTF-8 (RFC 3629) followed by base64 with padding (section 4 of RFC 4648). It also has a decoder, used only to prove that encoding loses nothing.
- `Helpers` (helpers.dfy): `_helpers.js`.
- `Contributions` (contributions.dfy), `PullRequests` (pull_requests.dfy) and `Releases` (releases.dfy): the three scripts.

## Model

| member | source | states |
|---|---|---|
| JsText.TrimStart | _helpers.js:15 | The result is a suffix of the input. Only white space was removed, and the result does not start with white space. |
| JsText.TrimEnd | _helpers.js:15 | The result is a prefix of the input. Only white space was removed, and the result does not end with white space. |
| JsText.Trim | _helpers.js:15 | The result is a contiguous slice of the input. The slice has only white space on either side of it, and neither end of the result is white space. |
| JsText.TrimLine | github-releases.5m.js:67 | Trimming a text whose ends are not white space, followed by one line break, gives back the text. |
| JsText.IndexFrom | _helpers.js:16 | The result is the first position at or after `from` where the pattern occurs, or `None` when the pattern occurs nowhere from there. |
| JsText.IndexOf | _helpers.js:16 | The result is the first position where the pattern occurs, or `None` when it does not occur at all. |
| JsText.IndexOfChar | _helpers.js:19-21 | The first `=` splits the line into the text before it, the `=`, and the rest. The part before it holds no `=`. |
| JsText.ReplaceFirstSpec | github-pull-requests.5m.js:52 | Replacing a string pattern changes only its first occurrence. The text before and after that occurrence is kept. |
| JsText.ReplaceFirstAt | github-releases.5m.js:89 | When the pattern does not occur inside `a`, replacing it in `a + pat + b` gives `a + rep + b`. |
| JsText.ReplaceAtStart | github-pull-requests.5m.js:52 | A pattern at the very start is the one that gets replaced. |
| JsText.Join | github-pull-requests.5m.js:73 | Joining a single part gives that part. |
| JsText.JoinAppend | github-pull-requests.5m.js:73 | Joining two non-empty lists one after the other equals joining each and putting the separator between them. |
| JsText.FlattenAppend | github-pull-requests.5m.js:50 | Concatenation by `+=` distributes over appending lists. |
| JsText.JoinFramed | github-pull-requests.5m.js:74 | A header, a label, the joined rows and an empty last part join into the pieces separated by the separator. |
| JsText.Split | _helpers.js:13 | The result is never empty and no part contains the separator. Joining the parts with the separator gives back the input. |
| JsText.SplitJoin | _helpers.js:13 | Splitting a join of parts that do not contain the separator gives back the parts. This is the inverse of the property above. |
| JsText.NatToString | github-pull-requests.5m.js:74 | A count prints as a non-empty string of decimal digits with no leading zero, and the digits denote the count. |
| JsText.IntToString | github-releases.5m.js:74 | A negative number prints as a minus sign and the digits of its magnitude. Any other number prints as its digits. |
| JsText.NatToStringFourDigits | github-contributions.js:45 | A four-digit year prints as four characters. |
| JsText.CharLessTotal | github-contributions.js:93-94 | Of two different characters exactly one is smaller. |
| JsText.CharLessTransitive | github-contributions.js:93-94 | The character order is transitive. |
| JsText.LexLessIrreflexive | github-contributions.js:93-94 | No string is smaller than itself. |
| JsText.LexLessTotal | github-contributions.js:93-94 | Of two different strings exactly one is smaller, so the comparator of the key sort is consistent. |
| JsText.LexLessTransitive | github-contributions.js:93-94 | The string order is transitive. |
| JsText.LexLessConcat | github-contributions.js:93-94 | Strings with equal-length heads compare by head first, then by tail. |
| JsText.LexLessDigits | github-contributions.js:93-94 | Equal-length digit strings compare as the numbers they denote. |
| JsObject.AssignKeys | _helpers.js:22 | After the assignments, a key is present exactly when some pair assigned it. |
| JsObject.AssignLastWins | github-contributions.js:82 | The value of a key is the value of the last pair that assigned it. |
| JsObject.KeysInOrder | github-contributions.js:99 | `for ... in` visits every key of the object exactly once. |
| Base64.Utf8Char | _helpers.js:79 | A character encodes as one to four bytes. An ASCII character is one byte of the same value. A character above ASCII gives only bytes of 0x80 or more. |
| Base64.ConcatAppend | _helpers.js:79 | Encoding character by character distributes over concatenation. |
| Base64.Utf8Append | _helpers.js:79 | UTF-8 of a concatenation is the concatenation of the UTF-8 of each part. |
| Base64.Utf8Colon | _helpers.js:79 | The colon is the single byte 0x3A. |
| Base64.Utf8AsciiByte | _helpers.js:79 | An ASCII byte is in the encoding exactly when its character is in the text. |
| Base64.SymbolValue | _helpers.js:79 | Reading a base64 symbol gives a value below 64 whose symbol is that character. |
| Base64.SymbolRoundTrip | _helpers.js:79 | Every value below 64 reads back from its symbol. |
| Base64.EncodeGroup | _helpers.js:79 | One to three bytes encode as four characters. |
| Base64.Encode | _helpers.js:79 | The encoding has four characters for every started group of three bytes. |
| Base64.GroupRoundTrip | _helpers.js:79 | Every padded group decodes back to its bytes. |
| Base64.EncodeRoundTrip | _helpers.js:79 | Decoding the encoding of any byte sequence gives that sequence back, so the header carries the credentials without loss. |
| Helpers.Entry | _helpers.js:18-21 | The key and value rejoined by `=` give the trimmed line, and the key holds no `=`. |
| Helpers.Kept | _helpers.js:14-16 | The filter keeps only lines that trim to a non-empty text with an `=` that does not start with `#`. |
| Helpers.Entries | _helpers.js:17-23 | Each kept line becomes its own key and value, in order. |
| Helpers.ParseEnv | _helpers.js:8-28 | A missing or unreadable file gives the empty dictionary. Otherwise the result is the dictionary the line loop assigns. |
| Helpers.KeptAppend | _helpers.js:14-16 | The filter works line by line. |
| Helpers.KeptMembers | _helpers.js:14-16 | A line survives the filter exactly when it is a line of the file and qualifies. |
| Helpers.EnvKeyFromLine | _helpers.js:8-28 | Every key of the dictionary comes from a qualifying line. |
| Helpers.EnvKeyOfLine | _helpers.js:8-28 | Every qualifying line's key is in the dictionary. |
| Helpers.EnvKeys | _helpers.js:8-28 | A key is in the dictionary exactly when a qualifying line has that key. |
| Helpers.EnvLastWins | _helpers.js:22 | A key set on several lines takes the value from the last of them. |
| Helpers.EnvIgnores | _helpers.js:14-16 | Blank lines, comments and lines without `=` do not change the dictionary. |
| Helpers.EnvInnerSpaces | _helpers.js:18-21 | Only the whole line is trimmed: `A = b` gives key `A ` and value ` b`. |
| Helpers.Pad2 | _helpers.js:56 | A padded field is exactly two digits. |
| Helpers.Pad2Value | _helpers.js:56 | The two digits denote the field modulo 100. |
| Helpers.Pad2IsZeroPrefixSlice | _helpers.js:56 | The padded field is the last two characters of `'0' + m`. |
| Helpers.ReplaceCodesAppend | _helpers.js:33 | A format that is cut anywhere except right after a `%` is replaced half by half. |
| Helpers.DateFormatAppend | _helpers.js:30-58 | The previous property, for `dateFormat`. |
| Helpers.DateFormatToken | _helpers.js:34-56 | Each of `%Y %m %d %H %M %S` becomes its field. The year is unpadded, the month is shifted to start at 1, and the other fields are two digits. |
| Helpers.DateFormatLiteral | _helpers.js:33 | Every other character is copied. |
| Helpers.KeyFormatBlocks | github-contributions.js:45 | The snapshot key of a date is year, month, day, hour and minute, with `-`, `-`, space and `:` between them. |
| Helpers.Pad2Exact | _helpers.js:56 | Fields below 100 are printed exactly. |
| Helpers.Pad2Order | _helpers.js:56 | Padded fields below 100 compare as strings the way they compare as numbers. |
| Helpers.KeyOrder | github-contributions.js:93-94 | Keys of blocks ordered like the dates compare like the dates. |
| Helpers.YearOrdersLike | github-contributions.js:93-94 | Four-digit years compare as strings the way they compare as numbers. |
| Helpers.DateBlocksLike | github-contributions.js:45 | The blocks of two valid dates with four-digit years are ordered like those dates. |
| Helpers.KeyTextOrder | github-contributions.js:93-94 | The key texts compare like the dates, and equal keys mean the same minute. |
| Helpers.KeyOrderIsChronological | github-contributions.js:45 | For valid dates with four-digit years, sorting snapshot keys as strings sorts them in time. Two keys are equal exactly when the dates fall in the same minute. |
| Helpers.Normalise | _helpers.js:66-69 | A URL string becomes `{url}`. Missing credentials and user agent default to `""`, and the other fields pass through as they are. |
| Helpers.CredentialBytes | _helpers.js:79 | The credential bytes are the user's bytes, one colon byte, then the password's bytes. |
| Helpers.BasicAuthRecoverable | _helpers.js:79 | The header is `Basic ` followed by the base64 of those bytes, which decodes back to them. A user name without `:` has no colon byte, so the split point is recoverable. |
| Helpers.Headers | _helpers.js:72-80 | The headers are `Content-Type` `application/json`, the given `User-Agent` and a no-cache `Cache-Control`. `Authorization` is present exactly when both the user name and the password are non-empty, and then holds their Basic value. There are no other headers. |
| Helpers.SchemeFor | _helpers.js:83 | HTTPS exactly when the URL starts with `https`. |
| Helpers.Resolved | _helpers.js:94 | The resolved object holds `body` (the joined chunks), `response` and every extra field of the argument. An extra field of the same name overrides `body` or `response`. |
| Helpers.Settle | _helpers.js:84-97 | A connection error rejects. A status outside 200..299 rejects with the response's status and headers. Any other response resolves with the object above. |
| Helpers.AsWritten | _helpers.js:97 | The handler as written throws exactly on a connection error. Otherwise it settles as intended. |
| Helpers.ConnectionErrorIsUncaught | _helpers.js:97 | On a connection error the written code throws. The intended code rejects with the transport error. |
| Helpers.ResponsesSettleAsIntended | _helpers.js:84-95 | Whenever a response arrives, the written code settles as intended. |
| Helpers.EmptyCredentialsNoAuthorization | _helpers.js:78 | Empty credentials and a bare URL string send no `Authorization` header. |
| Contributions.DigitRun | github-contributions.js:71 | `\d+` reaches exactly to the first character that is not a digit. |
| Contributions.MatchAt | github-contributions.js:71 | A match found at the front is a whole match text: the prefix, one or more digits, then a quote. |
| Contributions.MatchAll | github-contributions.js:72 | Every element of the global match list is a match text. |
| Contributions.RemoveQuotes | github-contributions.js:75 | No quote is left. |
| Contributions.RemoveQuotesAppend | github-contributions.js:75 | Removing quotes works piece by piece. |
| Contributions.MatchDigitsOfMatch | github-contributions.js:75 | Stripping `data-count=` and the quotes from a match leaves exactly its digits. |
| Contributions.SumMatches | github-contributions.js:72-77 | The summing loop gives the sum of the match numbers. When there is no match it gives `None`, because the script fails there. |
| Contributions.ScanMarkers | github-contributions.js:71-75 | Reading a page of markers gives back the counts written into it, in order. This is the scanner's round trip. |
| Contributions.NoPrefixNoMatch | github-contributions.js:72 | A page without the prefix has no match. |
| Contributions.SkipJunk | github-contributions.js:71-72 | Text in which no occurrence of the prefix starts is passed over: the matches are those of what follows it. |
| Contributions.OccursLater | github-contributions.js:72 | After the scan moves on by one character, every occurrence is one position earlier. |
| Contributions.QuietSkips | github-contributions.js:71-72 | Quiet text followed by nothing, or by a marker, holds no occurrence of the prefix that starts inside it. |
| Contributions.SameWindow | github-contributions.js:71-72 | An occurrence of the prefix starting inside `j` and followed by nothing or a marker is also an occurrence when `j` is followed by the prefix itself. |
| Contributions.ScanPage | github-contributions.js:71-75 | On a calendar page, with markers among other quiet text, the scan reads back the markers' counts in order. |
| Contributions.TotalOfPage | github-contributions.js:71-77 | A page's total is the sum of its markers' counts. With no marker there is no total, because the script fails on `null.forEach`. |
| Contributions.TotalOfMarkers | github-contributions.js:71-77 | The total of a non-empty page of markers is the sum of their counts. |
| Contributions.SumOfNumbers | github-contributions.js:74-76 | The loop's running sum equals the sum of the numbers. |
| Contributions.SortDescending | github-contributions.js:54-56 | The sorted records run from the largest total to the smallest. |
| Contributions.SortPermutes | github-contributions.js:54-56 | Sorting is a permutation of the records. |
| Contributions.SortStable | github-contributions.js:54-56 | Records with equal totals keep their relative order, as the comparator's `0` and a stable `sort` require. |
| Contributions.InsertKeepsDescending | github-contributions.js:54-56 | Inserting into a descending list keeps it descending, and adds only the new record. |
| Contributions.InsertPermutes | github-contributions.js:54-56 | Inserting adds exactly one record. |
| Contributions.InsertWithTotal | github-contributions.js:54-56 | Inserting puts the new record after every record that has the same total. |
| Contributions.InsertLast | github-contributions.js:54-56 | One insertion step leaves the array's prefix as the insertion of its last element, and the rest untouched. |
| Contributions.SortTotals | github-contributions.js:54-56 | The in-place sort leaves the array holding the sorted records, so it is descending, a permutation and stable by the lemmas above. |
| Contributions.Setting | github-contributions.js:22 | A missing setting reads as `""`. |
| Contributions.UsersText | github-contributions.js:42 | A non-empty first argument wins. Otherwise the `CONTRIBUTION_USERS` setting is used, and otherwise `""`. |
| Contributions.CheckUsers | github-contributions.js:42 | There is at least one name, no name has a comma, and joining the names by commas gives back the chosen text. |
| Contributions.NoUsersConfigured | github-contributions.js:42 | With no argument and no setting, one empty name is checked. |
| Contributions.UsersKeptAsListed | github-contributions.js:42 | Names are neither de-duplicated nor trimmed. |
| Contributions.WriteFlag | github-contributions.js:43 | The snapshot is not written exactly when the second argument is `false` or `0`. |
| Contributions.Pairs | github-contributions.js:81-83 | Each record becomes its name and total, in order. |
| Contributions.ConvertToKeyVal | github-contributions.js:79-85 | The loop builds the dictionary the assignments give. |
| Contributions.KeyValNames | github-contributions.js:79-85 | A name is a key exactly when some record has that name. |
| Contributions.KeyValLastWins | github-contributions.js:82 | A repeated name takes the total of its last record. |
| Contributions.Diff | github-contributions.js:87-89 | The result has one element fewer than the input, and is empty for an empty input. |
| Contributions.DiffAt | github-contributions.js:88 | Each element is the next value minus the current one. |
| Contributions.DiffCons | github-contributions.js:88 | Differencing a series with an element in front adds that first change in front. |
| Contributions.DiffSnoc | github-contributions.js:88 | Differencing a series with an element appended adds the last change at the end. |
| Contributions.Accumulate | github-contributions.js:88 | The running totals start at the start value and have one more element than the steps. |
| Contributions.DiffAccumulate | github-contributions.js:87-89 | Differencing the running totals of any steps gives back the steps. |
| Contributions.AccumulateDiff | github-contributions.js:87-89 | A non-empty series is rebuilt from its first value and its changes. This is the inverse direction. |
| Contributions.DiffTelescopes | github-contributions.js:87-89 | The changes add up to the last value minus the first. |
| Contributions.LeastOf | github-contributions.js:93-94 | Every non-empty set of keys has a least key. |
| Contributions.LeastUnique | github-contributions.js:93-94 | The least key is unique. |
| Contributions.LeastFirst | github-contributions.js:93-94 | The least key comes before every other key. |
| Contributions.SortedKeys | github-contributions.js:92-94 | The sorted keys are exactly the object's keys, each once, in ascending order. |
| Contributions.RecentKeys | github-contributions.js:95 | `.slice(-5)` keeps only existing keys. |
| Contributions.RecentKeysSpec | github-contributions.js:92-95 | The chosen keys ascend and number `min(5, all)`. Every key left out is older than every key chosen. |
| Contributions.PushedAll | github-contributions.js:99-105 | Pushing each user's total onto a series, or onto a new series, gives the same map for any visiting order. |
| Contributions.PushTotals | github-contributions.js:99-105 | The inner loop leaves the map with each user's total pushed once. |
| Contributions.PushStep | github-contributions.js:101-104 | One push keeps the inner loop's invariant. |
| Contributions.SeriesMapStep | github-contributions.js:97-106 | Each snapshot extends the series map by its own totals. |
| Contributions.SeriesOfAbsent | github-contributions.js:101 | A user that no snapshot names has no series. |
| Contributions.CollectSeries | github-contributions.js:97-106 | The loop over the recent keys builds every user's series. |
| Contributions.DiffInPlace | github-contributions.js:107-109 | Replacing each series by its differences gives the differenced map. |
| Contributions.GetOrderedHistory | github-contributions.js:91-111 | The method returns the history function of the snapshot. |
| Contributions.UsersNamed | github-contributions.js:97-106 | A user has a series exactly when one of the chosen snapshots names them. |
| Contributions.SeriesOfSteadyUser | github-contributions.js:97-106 | A user in every chosen snapshot has one total per snapshot, in key order. |
| Contributions.SteadyChanges | github-contributions.js:91-111 | For a user in every chosen snapshot, the history holds one change per pair of neighbouring snapshots: the later total minus the earlier one. |
| Contributions.HistoryUsers | github-contributions.js:91-111 | A user is in the history exactly when one of the five most recent snapshots names them. |
| Contributions.MergedIsRecent | github-contributions.js:57 | When today's key is later than every saved key, today's snapshot is the newest of the recent ones. |
| Contributions.GetUserContributions | github-contributions.js:64-78 | The method gives the user's total from the page content, or the failure that stops the run. |
| Contributions.UserRequest | github-contributions.js:65-70 | The request goes over HTTPS to the user's calendar URL. The configured name is the user agent. `Authorization` is sent exactly when both credentials are set. |
| Contributions.UserTotalOfReply | github-contributions.js:64-78 | A successful reply whose chunks make up a calendar page gives the sum of the page's counts, or stops the run when the page has no marker. A status outside 200..299 fails with that status. |
| Contributions.FetchAll | github-contributions.js:49-53 | On success there is one record per user, in the users' order, under that user's name. |
| Contributions.FetchAllTotals | github-contributions.js:51-52 | Each record holds the total fetched for its user. |
| Contributions.FetchAllStops | github-contributions.js:49-53 | The first failure ends the run and is its result. |
| Contributions.FetchAllStep | github-contributions.js:49-53 | Each awaited user either adds a record or fails the run. |
| Contributions.FetchTotals | github-contributions.js:49-53 | The loop gives the joined result of fetching each user in turn. |
| Contributions.GetContributions | github-contributions.js:47-62 | A failure leaves the snapshot unchanged and unsaved. Otherwise the result is the sorted records, which are merged under today's key and saved exactly when the write flag is set. |
| Contributions.Render | github-contributions.js:117-119 | Rendering fails exactly when some user has no history. |
| Contributions.RenderOne | github-contributions.js:118 | A user with a history prints as `name - total` and `--` followed by the changes. |
| Contributions.FirstRunHasNoHistory | github-contributions.js:113-119 | With nothing saved there is no history, so printing the totals fails. |
| Contributions.Run | github-contributions.js:22-120 | The banner comes first. The history is taken from the saved snapshots before today's totals are added. If every request succeeds, the merged snapshot is saved unless writing is switched off, and the heading is printed. The totals follow it, unless a user has no history: then rendering throws after the heading, and nothing more is printed. If a request fails, or a page has no marker, nothing more is printed and nothing is saved. |
| PullRequests.Rows | github-pull-requests.5m.js:69-73 | There is one row per pull, in order. |
| PullRequests.ParsePulls | github-pull-requests.5m.js:63-76 | The count is the number of pulls, and the result is the block. |
| PullRequests.OneRepository | github-pull-requests.5m.js:68-70 | When all pulls belong to one repository, the block is labelled with its full name. |
| PullRequests.EmptyBlock | github-pull-requests.5m.js:74 | An empty list still gives a block, labelled with the configured name and `(0)`. |
| PullRequests.DigitsNoLineBreak | github-pull-requests.5m.js:71 | Digits hold no line break. |
| PullRequests.RowIsOneLine | github-pull-requests.5m.js:71 | A pull without line breaks in its texts is one row. |
| PullRequests.HeaderIsOneLine | github-pull-requests.5m.js:74 | The header is one line. |
| PullRequests.BlockIsJoin | github-pull-requests.5m.js:73-74 | The block is `---`, the header, the rows and an empty last line, joined by line breaks. |
| PullRequests.BlockLines | github-pull-requests.5m.js:63-76 | Splitting a block of plain pulls into lines gives `---`, the header, one row per pull and an empty last line. |
| PullRequests.BlockTexts | github-pull-requests.5m.js:47-51 | There is one block per result, in order. |
| PullRequests.Summarise | github-pull-requests.5m.js:44-53 | The handler prints the title with the total count, then the blocks in the order of the results. |
| PullRequests.TotalCountStep | github-pull-requests.5m.js:49 | Each result adds its number of pulls. |
| PullRequests.TotalCountAppend | github-pull-requests.5m.js:49 | The total over two lists of results is the sum of their totals. |
| PullRequests.BlocksAppend | github-pull-requests.5m.js:50 | Blocks appear in the order of the results. |
| PullRequests.ConfiguredTitle | github-pull-requests.5m.js:36 | The configured title reads `<total> Pending PR's`. |
| PullRequests.TitleWithoutPlaceholder | github-pull-requests.5m.js:52 | A title without `{count}` is printed unchanged. |
| PullRequests.PullHeaders | github-pull-requests.5m.js:89 | The only headers are `Content-Type` `application/json` and the fixed user agent. |
| PullRequests.PullRequest | github-pull-requests.5m.js:88-89 | The request asks for the repository's URL with those headers, over HTTPS exactly when the URL starts with `https`. |
| PullRequests.FetchPulls | github-pull-requests.5m.js:83-104 | A result keeps the configured name. A connection error or a status outside 200..299 gives no result. |
| PullRequests.Fetched | github-pull-requests.5m.js:40-44 | When every request succeeds there is one result per repository, in the order of `URLS`. |
| PullRequests.Run | github-pull-requests.5m.js:38-56 | Any failed request or unparsable body prints `Error`. Otherwise the output is the title with the total, then the blocks in the order of `URLS`. |
| Helpers.Banner | github-releases.5m.js:28-31 | `Missing User-Agent` is printed exactly when the user agent is empty. Both scripts that read a user name use it. |
| Releases.ReleaseHeaders | github-releases.5m.js:105-108 | The headers are `Content-Type` and the user name as user agent, with no cache directive. `Authorization` is present exactly when both credentials are set, and then holds their Basic value. |
| Releases.HeadersAreHelperLessCache | github-releases.5m.js:105-108 | These are the shared helper's headers for the same credentials, less `Cache-Control`. |
| Releases.TagsRequest | github-releases.5m.js:110-111 | The request asks for the entry's URL with those headers, over HTTPS exactly when the URL starts with `https`. |
| Releases.FetchTagsSettlesLikeHelper | github-releases.5m.js:111-124 | A request settles as the shared helper's would: the same errors, and the same body on success. |
| Releases.TagsConnectionErrorIsUncaught | github-releases.5m.js:124 | On a connection error the written code throws. The intended code rejects. |
| Releases.FetchAllSucceeds | github-releases.5m.js:50-54 | The join succeeds exactly when every request does, and then holds each result in the order of `URLS`. |
| Releases.FetchAllFirstError | github-releases.5m.js:50-54 | A failed join reports the error of a failing request, and every request before it succeeded. |
| Releases.FetchAllStep | github-releases.5m.js:50-54 | Each request either adds its result or fails the join. |
| Releases.FetchAllStops | github-releases.5m.js:50-54 | Once a prefix of the requests fails, the whole join fails with that error. |
| Releases.JoinUncaught | github-releases.5m.js:50-54 | As written, the join never settles exactly when some request fails to settle. |
| Releases.JoinSettles | github-releases.5m.js:50-54 | When every request settles, the join as written gives the intended join of the results, in list order. |
| Releases.JoinStep | github-releases.5m.js:50-54 | Each request adds its result, fails the join, or leaves it unsettled. |
| Releases.JoinEach | github-releases.5m.js:50-54 | The loop over `URLS` gives the join as written. |
| Releases.WebUrlOfApiUrl | github-releases.5m.js:89 | An API commit URL `https://api.github.com/repos/<path>/commits/<sha>` becomes the web page `https://github.com/<path>/commit/<sha>`. |
| Releases.ApiHostReplaced | github-releases.5m.js:89 | The host right after the scheme is the first occurrence of the API prefix. |
| Releases.CommitsReplaced | github-releases.5m.js:89 | The `commits/` segment after the path is the first occurrence of `commits/`. |
| Releases.CurrentText | github-releases.5m.js:88 | The version shown is never empty: an empty or missing version shows as `No Current Version`. |
| Releases.ParseTags | github-releases.5m.js:83-93 | An unparsable body or an empty tag list gives no entry. Otherwise the entry is the row of the first tag. |
| Releases.FirstTagOnly | github-releases.5m.js:87 | Only the first tag of the list is shown. |
| Releases.RowLines | github-releases.5m.js:89-90 | An entry is exactly two lines: the linked tag, then the current version. |
| Releases.TagRowLines | github-releases.5m.js:89-90 | The commit link keeps an entry at two lines. |
| Releases.WebUrlOneLine | github-releases.5m.js:89 | The commit link stays on one line. |
| Releases.RowEnds | github-releases.5m.js:90 | Every entry ends with `alternate=true` and a line break. |
| Releases.EntriesEnd | github-releases.5m.js:83-93 | Every entry the parser produces ends that way. |
| Releases.CollectSucceeds | github-releases.5m.js:58-64 | The body exists exactly when every result parses, and is then the entries in the order of the results. |
| Releases.CollectStep | github-releases.5m.js:58-64 | Each result either appends its entry or makes the handler throw. |
| Releases.CollectStops | github-releases.5m.js:58-64 | Once a result fails to parse, the handler throws. |
| Releases.CollectAppend | github-releases.5m.js:63 | The entries of two lists of results follow each other. |
| Releases.CollectEnds | github-releases.5m.js:58-64 | A non-empty body ends with an entry's last line. |
| Releases.CollectEach | github-releases.5m.js:58-64 | The loop gives the collected body. |
| Releases.Report | github-releases.5m.js:54-67 | The handler prints the trimmed title and body, or `Error undefined` when a body fails to parse. |
| Releases.HandledShowsEntries | github-releases.5m.js:66-67 | The trim removes only the body's last line break, which printing restores. So the output is the title, a line break and the entries, unchanged. |
| Releases.TitledBody | github-releases.5m.js:66-67 | The title and a body that is empty or ends an entry survive trimming and printing. |
| Releases.NoRepositories | github-releases.5m.js:46 | With no repositories only the title is printed. |
| Releases.ClockFormat | github-releases.5m.js:71 | The rate-limit format gives hours, minutes and seconds, two digits each, separated by colons. |
| Releases.ErrorLine | github-releases.5m.js:68-76 | A 403 prints the reset time after `Rate Limit Exceeded Until: ` and a space. Any other status prints `Error` and the status. An error without a status prints `Error undefined`. |
| Releases.RateLimitShowsReset | github-releases.5m.js:69-72 | A 403 with a readable reset header prints the reset time of day. |
| Releases.RateLimitWithoutReset | github-releases.5m.js:70-72 | Without a reset header the time prints as `aN:aN:aN`. |
| Releases.Run | github-releases.5m.js:28-76 | The output is the user-agent warning. After it comes nothing if a request never settles, or otherwise what the handlers print for the joined requests. |
| Releases.ConnectionErrorEndsRun | github-releases.5m.js:124 | A failed connection on any request leaves only the warning, because the listener throws and no handler runs. |
| Releases.ResponsesPrintAsIntended | github-releases.5m.js:50-76 | When every request gets a response, the script prints what the intended one does: the first failure's line, or the entries. |
| Releases.AsShipped | github-releases.5m.js:18-46 | As shipped, with no credentials and no repositories, the script prints the warning and the bare title. |

## Left out

- Reading and writing files, and `console.log`, are not modelled. The `.env` text and the snapshot file's parsed contents are parameters. The saved snapshot is an output. Each script's output is the text it prints.
- `JSON.parse` and `JSON.stringify` are left out. Parsing is a parameter that gives the fields the scripts read, or `None` when the text does not parse or lacks a field the script dereferences.
- The network is a parameter. Requests start in parallel in the source; the model has no timing and treats the first failure in list order as the failure `Promise.all` reports. Requests that are no longer awaited after a failure cannot be observed.
- The clock and the time zone are left out. `dateFormat` without a date and with no `utc` flag reads the local time; the model is given the date's fields. The `utc` flag of `dateFormat` and `_dateFormat` is not modelled, because no caller sets it.
- `new Date(header * 1000)` is the `clock` parameter. The `aN:aN:aN` output assumes that an invalid date yields `NaN` fields.
- Numbers are unbounded naturals. Floating-point precision of large totals is not modelled, and neither is the `NaN` sum of the unused `count` in the releases handler.
- Releases.Run: when one request's connection fails, nothing is printed after the warning. This ignores timing: a status rejection from another request that arrives first would print its line before the thrown `ReferenceError` ends the process.
- Contributions.Run: a connection error follows the corrected `getContent` (Helpers.GetContent). The code as written throws in the listener instead. Either way nothing more is printed and nothing is saved, so the output is the same.
- Contributions.Run: the unhandled rejections (a page with no markers, a user without history, a failed request) print nothing more on standard output. What Node writes to standard error, and the exit status, are not modelled.
- Contributions.SortTotals: `Array.prototype.sort` is specified as stable, not as insertion sort, and the model uses insertion sort. Only the result is modelled, not the engine's algorithm.
- JsObject.KeysInOrder: the model visits keys in insertion order. JavaScript visits integer-like keys first, in numeric order. Visiting order does not affect the history (Contributions.PushedAll). Special keys such as `__proto__` are not modelled.
- The `currentVersion` callback of a releases entry is its resolved value. Its side effects, a rejection from it, and non-string values are not modelled.
- Strings are sequences of Unicode scalar values, not of UTF-16 code units. A lone surrogate cannot be represented, so Base64.Utf8Char has no case for the replacement character `Buffer.from` would write for one. A character above U+FFFF counts once toward lengths and positions, not twice. The `<` order on strings does follow UTF-16 code units (JsText.CharLess).
- The `Missing User-Agent` branch of the pull-requests script cannot fire, because its user agent is the constant `Krakaw`. The model keeps that constant.
- `getConfig` (`_helpers.js:3-6`) only resolves a path. The model starts from the file's text.

## Findings

| source | as written | input that shows it | evidently intended | confidence | as-written member | corrected member |
|---|---|---|---|---|---|---|
| _helpers.js:97 | The connection-error listener calls `reject(err, response)`, but no `response` is in scope there. Evaluating it throws a `ReferenceError` inside the listener, and the promise never settles. | Any request whose connection fails, such as a refused connection or an unknown host. | Reject with the connection error. | not executed | Helpers.ConnectionErrorIsUncaught | Helpers.Settle |
| github-releases.5m.js:124 | The same `reject(err, response)` as in the shared helper: a connection error throws `ReferenceError` instead of reaching the catch handler. | A repository URL whose host refuses the connection. | Reject, so that the catch handler prints `Error undefined`. | not executed | Releases.TagsConnectionErrorIsUncaught | Releases.FetchTagsSettlesLikeHelper |
