# Pinterest search command: pagination and selection model

A Dafny model of the `pinterest` command (`CommandFiles/commands/pin.ts`) of the
Cassidy chat bot. The user runs `pin <query> [-count]`. With a non-zero count
the bot downloads the first `count` results and sends those that arrive in one
message. Otherwise it renders page 1 of the results as a three-column masonry
grid with numbered badges. It then binds a session record to that message in
the host's reply correlator. The owner drives the session by replying "next"
(the following page replaces the binding) or a badge number (the image under
that badge is sent and the session ends).

Modules, one per part of the command:

- `Common`: identifiers, `Option`, the page candidate (`ImageObject`), tile placements and the outgoing messages.
- `Text`: the JavaScript primitives the command depends on: `trim`, `join(" ")`, ASCII `toLowerCase` and `parseInt(_, 10)`.
- `CommandArgs`: the `-<digits>` count flag and the query.
- `Paging`: `Math.ceil(n / 21)` pages and the page slice tagged with `originalIndex`.
- `Masonry`: `generatePinterestCanvas` without the drawing. It covers decoding outcomes, first-lowest-column placement, badges and `displayedMap`. The loop is a method over an `array` of column heights, proved against the function `Pack`.
- `Session`: the session record, its well-formedness, and the correlator as a class over a map (`setReply` / `delReply`).
- `DirectSend`: the downloads in direct-send mode, filtered in order.
- `Entry`: `entry`, meaning mode choice, page 1 and the initial binding.
- `ReplyHandler`: `reply`, meaning the owner check, "next" and numeric selection.

The outside world is given as parameters:

- `load: nat -> Option<nat>` is the scaled tile height of each candidate (by result index), or `None` when decoding fails.
- `fetched: nat -> bool` is the download outcome of each direct-send URL (by position).
- `fetchOk: bool` is the outcome of downloading the selected image.
- `SearchResponse` is what the search request returned.
- `replyID` is the id of the message the bot sends.

Behaviours of the code that the model keeps as written:

- A reply of `0` (or `-3`) gets the usage hint: `parseInt` gives a number that is not `> 0`, and the code falls through to the hint (pin.ts:295, 316).
- A `-0` flag leads to pagination. `if (count)` reads 0 as "no count", and the flag is still stripped from the query (pin.ts:138-141, 161).
- A badge is selectable only when its `displayedMap` entry is truthy (pin.ts:296). Result index 0 is therefore unselectable, although the page message invites a number for every drawn badge; see Findings. `ReplyHandler.Decide`, and through it `HandleReply`, model the guard as written. `DecideIntended` is the corrected guard, and `GuardDiffersOnlyOnFirstBadge` proves the two differ only on page 1, for texts that parse to 1.
- A reply to a superseded page message finds no binding: the "next" branch deletes the old one (pin.ts:278). `HandleReply` is therefore only entered for a bound message (`requires detectID in c.bindings`).

## Model

| member | source | states |
|---|---|---|
| `Text.Trim` | CommandFiles/commands/pin.ts:143 | The result is the infix of the input between its leading and trailing whitespace. It is empty exactly when the input is all whitespace, and otherwise starts and ends with a non-whitespace character. |
| `Text.TrimKeepsTrimmed` | CommandFiles/commands/pin.ts:143 | Text with no whitespace at either end is unchanged by `trim`. |
| `Text.TrimPadding` | CommandFiles/commands/pin.ts:240 | `trim` removes exactly the whitespace padding around a word. |
| `Text.JoinBlankIff` | CommandFiles/commands/pin.ts:143-144 | The space-joined arguments are blank if and only if every argument is blank. |
| `Text.JoinSpaces` | CommandFiles/commands/pin.ts:143 | No words join to the empty string, one word joins to itself, and the result starts with the first word. |
| `Text.JoinSpacesAppend` | CommandFiles/commands/pin.ts:143 | Joining two non-empty runs of words is joining each with a single space between, so the words keep their order and every gap is one space. |
| `Text.ToLowerAscii` | CommandFiles/commands/pin.ts:240 | Lower-casing keeps the length and maps each character through ASCII case folding. |
| `Text.DigitPrefix` | CommandFiles/commands/pin.ts:294 | The result is the longest all-digit prefix: the next character, if any, is not a digit. |
| `Text.DigitsValueShowNat` | CommandFiles/commands/pin.ts:139 | Reading a decimal numeral gives back its number. |
| `Text.LeadingZeroIgnored` | CommandFiles/commands/pin.ts:139 | A leading zero does not change the value read. |
| `Text.ParseIntNumeral` | CommandFiles/commands/pin.ts:294 | `parseInt` of a numeral followed by a non-digit is that numeral's number. |
| `Text.ParseInt` | CommandFiles/commands/pin.ts:294 | Blank text is NaN. A negative result needs a leading minus sign after the whitespace. |
| `Text.ParseIntNeedsDigit` | CommandFiles/commands/pin.ts:294 | Any text that parses to a number contains a decimal digit. |
| `Text.ParseIntLeadingZeros` | CommandFiles/commands/pin.ts:294 | Leading zeros before a numeral are skipped: "01" and "007" parse to 1 and 7. |
| `Text.ParseIntSigned` | CommandFiles/commands/pin.ts:294 | A sign before a numeral is read as its sign: "+3" is 3 and "-3" is -3. |
| `Text.ParseIntNonNumeric` | CommandFiles/commands/pin.ts:294-295 | Text starting with a character that is not whitespace, a sign or a digit parses to NaN. |
| `CommandArgs.CountFlagPattern` | CommandFiles/commands/pin.ts:137 | The count flags are exactly a dash followed by a non-empty run of digits. "-5" is one, and "-", "--5", "-5a" and "5" are not. |
| `CommandArgs.FindCountFlag` | CommandFiles/commands/pin.ts:137 | The result is the position of the first argument matching `^-\d+$`. No earlier argument matches, and None means no argument matches. |
| `CommandArgs.RemoveAll` | CommandFiles/commands/pin.ts:140 | The filter removes every copy of the token and keeps every other argument with its multiplicity. |
| `CommandArgs.RemoveAllAppend` | CommandFiles/commands/pin.ts:140 | The filter distributes over concatenation, so it keeps the kept arguments in order. |
| `CommandArgs.RemoveAllSingle` | CommandFiles/commands/pin.ts:140 | On a single argument the filter drops it exactly when it equals the token. |
| `CommandArgs.QueryWords` | CommandFiles/commands/pin.ts:137-143 | With no flag the query words are all the arguments. With a flag, a word is a query word if and only if it is an argument other than the first flag's token. |
| `CommandArgs.ParseInvocation` | CommandFiles/commands/pin.ts:135-143 | A count is present if and only if some argument is a count flag. The query has no whitespace at either end. |
| `CommandArgs.QueryEmptyIff` | CommandFiles/commands/pin.ts:143-146 | The query is empty, which leads to the error reply and no search, if and only if every query word is blank. |
| `CommandArgs.FlagGivesCount` | CommandFiles/commands/pin.ts:137-139 | The first flag `-00…n` sets the count to `n`, whatever its leading zeros. |
| `Text.LeadingZerosIgnored` | CommandFiles/commands/pin.ts:139 | Any number of leading zeros leaves the decimal value unchanged. |
| `CommandArgs.DogsFive` | CommandFiles/commands/pin.ts:135-143 | `dogs -5` parses to query "dogs" with count 5. |
| `Paging.TotalPages` | CommandFiles/commands/pin.ts:177-180 | The result is the ceiling of `n / perPage`: the pages hold all `n` results, one page fewer would not, and there are zero pages exactly when `n = 0`. |
| `Paging.JsSlice` | CommandFiles/commands/pin.ts:255-256 | `slice` clamps both bounds to the length and is empty when they cross. Element `i` is `s[start + i]`. |
| `Paging.PageItems` | CommandFiles/commands/pin.ts:248-260 | Page `p` holds the results `[(p-1)*21, min(p*21, n))`. Item `i` is tagged `originalIndex = (p-1)*21 + i`, which is a valid index, and its URL is the result at that index. |
| `Paging.PageNonEmpty` | CommandFiles/commands/pin.ts:178-184 | Every page from 1 to `totalPages` is non-empty. |
| `Paging.EveryIndexOnAPage` | CommandFiles/commands/pin.ts:177-184 | Result `k` appears on the existing page `k/21 + 1`, at position `k mod 21`. |
| `Paging.PageOfIndexExists` | CommandFiles/commands/pin.ts:178-180 | A page whose start is at most a valid index is no later than the last page. |
| `Paging.PagesDisjoint` | CommandFiles/commands/pin.ts:249-260 | No result index is tagged on two different pages or at two positions. |
| `Paging.FortyFiveResults` | CommandFiles/commands/pin.ts:177-184 | 45 results make 3 pages of 21, 21 and 3 items. |
| `Masonry.DecodedTiles` | CommandFiles/commands/pin.ts:69-80 | The decoded candidates never outnumber the candidates. |
| `Masonry.DecodedTileFromLoad` | CommandFiles/commands/pin.ts:69-80 | Each decoded tile stands for one of the candidates, whose image loaded, and carries the height its loading gave. |
| `Masonry.DisplayedMap` | CommandFiles/commands/pin.ts:82-99 | Entry `k` of `displayedMap` is the result index of the `k`-th decoded candidate, and there is one entry per decoded candidate. |
| `Masonry.DisplayedMapCount` | CommandFiles/commands/pin.ts:77-99 | `displayedMap` has exactly as many entries as candidates decoded, which is at most the number of candidates. |
| `Masonry.DisplayedMapMembers` | CommandFiles/commands/pin.ts:69-99 | An index is in `displayedMap` if and only if it is a candidate's `originalIndex` and that image decoded. |
| `Masonry.DisplayedMapIncreasing` | CommandFiles/commands/pin.ts:85-99 | Candidates in increasing index order give a strictly increasing `displayedMap`, so badges follow result order. |
| `Masonry.FirstMinIndex` | CommandFiles/commands/pin.ts:86-88 | The result is a column of minimum height, and every lower-indexed column is strictly taller. |
| `Masonry.Place` | CommandFiles/commands/pin.ts:86-91 | Only the first lowest column changes, growing by tile height plus padding 15. Every other column is unchanged and no column gets lower. |
| `Masonry.Pack` | CommandFiles/commands/pin.ts:85-110 | Every tile gets a column, each below the column count, and the number of columns is kept. |
| `Masonry.Placements` | CommandFiles/commands/pin.ts:85-107 | Tile `k` carries badge `k+1`, so badges run 1..k with no gaps. It stands for `displayedMap[k]` and sits in the column the packing chose, one of the 3. |
| `Masonry.PackChoosesLowestColumn` | CommandFiles/commands/pin.ts:85-88 | At every step the chosen column is the first lowest one of the heights reached by replaying the earlier tiles. |
| `Masonry.PackHeights` | CommandFiles/commands/pin.ts:67 | Each column ends at its start height plus the heights and padding of the tiles placed in it, and never below its start. |
| `Masonry.LayoutHeights` | CommandFiles/commands/pin.ts:67 | On a rendered page each column ends at 100 plus the padded heights of the decoded tiles placed in it. |
| `Masonry.PackStaysBalanced` | CommandFiles/commands/pin.ts:85-109 | If the columns start within `b` of each other and no padded tile exceeds `b`, they stay within `b`. |
| `Masonry.PackSnoc` | CommandFiles/commands/pin.ts:85-110 | One more tile goes into the first lowest column of the heights reached so far. |
| `Masonry.PlaceTile` | CommandFiles/commands/pin.ts:109 | The array update picks the first lowest column and leaves the heights that `Place` specifies. |
| `Masonry.GeneratePinterestCanvas` | CommandFiles/commands/pin.ts:62-110 | The loop over an array of column heights returns the specified `displayedMap` and badge placements, and the heights the packing reaches. |
| `Session.PageMapInRange` | CommandFiles/commands/pin.ts:248-262 | A rendered page's `displayedMap` is strictly increasing and lists only valid indices of that page. |
| `Session.PageSession` | CommandFiles/commands/pin.ts:203-212 | The record bound for any existing page of a non-empty result list is well formed: page size 21, `totalPages = ceil(n/21)`, page in range, map entries on the page. |
| `Session.ZeroEntryOnlyFirstOfPageOne` | CommandFiles/commands/pin.ts:296 | A zero `displayedMap` entry, which the guard rejects, can only be the first entry on page 1. |
| `Session.ReplyCorrelator.SetReply` | CommandFiles/commands/pin.ts:203 | `setReply` binds the record to the message id and leaves every other binding as it was. |
| `Session.ReplyCorrelator.DelReply` | CommandFiles/commands/pin.ts:278 | `delReply` removes exactly that message's binding. |
| `DirectSend.FetchedPositions` | CommandFiles/commands/pin.ts:163-169 | There are at most as many fetched positions as positions in the range. |
| `DirectSend.FetchedPositionsSound` | CommandFiles/commands/pin.ts:163-169 | Every listed position is in range and was fetched. |
| `DirectSend.FetchedPositionsIncreasing` | CommandFiles/commands/pin.ts:169 | The fetched positions are listed in increasing order. |
| `DirectSend.FetchedPositionsComplete` | CommandFiles/commands/pin.ts:163-169 | Every position in range that was fetched is listed. |
| `DirectSend.Retrieved` | CommandFiles/commands/pin.ts:169 | There are never more attachments than URLs requested. |
| `DirectSend.RetrievedMembers` | CommandFiles/commands/pin.ts:163-172 | A URL is attached if and only if it sits at a position whose download succeeded. |
| `DirectSend.RetrievedCount` | CommandFiles/commands/pin.ts:169-171 | There are as many attachments as successful downloads. |
| `DirectSend.RetrievedInOrder` | CommandFiles/commands/pin.ts:163-172 | The `k`-th attachment is the URL at the `k`-th successful position, so order is kept and failures are skipped. |
| `DirectSend.RetrievedAll` | CommandFiles/commands/pin.ts:163-172 | When every download succeeds, all the URLs are attached, in order. |
| `Entry.ChooseMode` | CommandFiles/commands/pin.ts:155-176 | Nothing found if and only if there are no results. Direct send if and only if there are results and a non-zero count, with exactly the first `min(count, n)` URLs. Otherwise canvas pages, including count 0. |
| `Entry.ZeroFlagPaginates` | CommandFiles/commands/pin.ts:137-141 | A `-0` flag leads to canvas mode, and its token is still removed from the query. |
| `Entry.NoResultsNoSession` | CommandFiles/commands/pin.ts:155-158 | An empty or missing result list gets "searching" then "no images", and no session is bound. |
| `Entry.DogsFiveDirect` | CommandFiles/commands/pin.ts:135-174 | `dogs -5` sends the successfully downloaded ones among the first `min(5, R)` results in one message, or all of them when every download succeeds, and binds no session. |
| `Entry.Replies` | CommandFiles/commands/pin.ts:143-216 | An empty query gets only the query request. Otherwise "searching" is sent first and then exactly one outcome, which is the failure notice when the request failed. |
| `Entry.Binding` | CommandFiles/commands/pin.ts:155-212 | A session is bound if and only if the query is non-empty, the request succeeded and canvas mode was chosen. It is then well formed, on page 1, owned by the sender, and holds the query and all results. |
| `Entry.OpenCanvas` | CommandFiles/commands/pin.ts:177-212 | Canvas mode sends page 1 of `ceil(n/21)` pages and binds the page-1 session to the sent message. |
| `Entry.Answer` | CommandFiles/commands/pin.ts:143-216 | The messages sent are `Replies`, and the bindings gain exactly `Binding`. |
| `Entry.Entry` | CommandFiles/commands/pin.ts:133-218 | `entry` keeps every binding well formed, sends `Replies` for the parsed arguments, and adds the canvas binding if there is one. |
| `ReplyHandler.Normalize` | CommandFiles/commands/pin.ts:240 | The normalised text is empty if and only if the body is all whitespace. Otherwise it neither starts nor ends with whitespace, and it holds no upper-case ASCII letter. |
| `ReplyHandler.NextAnyCase` | CommandFiles/commands/pin.ts:240-243 | "next" in any mix of letter cases, with any whitespace around it ("NEXT", " Next "), normalises to "next" and is decided as "next". |
| `ReplyHandler.SignedReplies` | CommandFiles/commands/pin.ts:294-295 | "+n" is decided like "n", and "-n" gets the usage hint. |
| `ReplyHandler.NormalizeNumeral` | CommandFiles/commands/pin.ts:240 | A numeral is unchanged by trimming and lower-casing. |
| `ReplyHandler.Decide` | CommandFiles/commands/pin.ts:243-318 | "next" gives the last-page notice if and only if `currentPage >= totalPages`, and advances otherwise. A positive number `n` selects only if entry `n-1` exists and is non-zero, and then selects that entry. It is rejected if and only if it is out of range or the entry is 0. Non-numbers and `n <= 0` get the usage hint. |
| `ReplyHandler.Classify` | CommandFiles/commands/pin.ts:238 | A reply is ignored if and only if its sender is not the session's owner. |
| `ReplyHandler.SelectByBadge` | CommandFiles/commands/pin.ts:294-300 | The owner replying with badge `n` whose entry is non-zero selects result `displayedMap[n-1]`, which is a valid index. |
| `ReplyHandler.NumberPastBadgesRejected` | CommandFiles/commands/pin.ts:296-297 | A number beyond the last badge gets "invalid image number". |
| `ReplyHandler.ZeroGetsUsage` | CommandFiles/commands/pin.ts:295 | "0" gets the usage hint. |
| `ReplyHandler.PaddedNextTurnsPage` | CommandFiles/commands/pin.ts:240-243 | Whitespace around "next" does not change the decision. |
| `ReplyHandler.FirstResultUnselectable` | CommandFiles/commands/pin.ts:296-297 | On page 1 with result 0 decoded, `displayedMap[0] = 0`, and replying "1" is rejected. |
| `ReplyHandler.DecideIntended` | CommandFiles/commands/pin.ts:296 | With the corrected guard, a selection is a badge in range, it selects that badge's entry, and the text parses to its number. |
| `ReplyHandler.IntendedSelectsEveryBadge` | CommandFiles/commands/pin.ts:296-300 | With the corrected guard every badge `1..|displayedMap|` selects the result drawn under it. |
| `ReplyHandler.GuardDiffersOnlyOnFirstBadge` | CommandFiles/commands/pin.ts:296 | The written and corrected guards disagree only on page 1, and only on texts that parse to 1 ("1", "01", "+1", "1st", ...). |
| `ReplyHandler.NextSession` | CommandFiles/commands/pin.ts:280-289 | The next record has `currentPage + 1` and the same `id`, `allImageUrls`, `query`, `imagesPerPage` and `totalPages`. |
| `ReplyHandler.NextIsPageSession` | CommandFiles/commands/pin.ts:248-289 | Turning the page gives exactly the session for that page, with a freshly computed `displayedMap`. It is well formed when a page was left. |
| `ReplyHandler.Response` | CommandFiles/commands/pin.ts:245-317 | Nothing is sent if and only if the reply is ignored. A page turn sends the next page of the same query and page count. "next" on the last page gets the last-page notice, a rejected number gets "Invalid image number", and any other reply gets the usage hint, each if and only if that is the decision. A selection sends the image at its index if and only if the download succeeded, and "failed to fetch" if and only if it failed. |
| `ReplyHandler.Rebind` | CommandFiles/commands/pin.ts:278-309 | Bindings other than the replied-to and new messages never change. A page turn binds the next session to the new message and unbinds the old one. A delivered image removes exactly the replied-to binding and nothing else. Every other reply changes nothing. |
| `ReplyHandler.ResponseCases` | CommandFiles/commands/pin.ts:238-300 | In every modelled branch the owner gets a reply, and a stranger never does. A selected index is always a valid result index. |
| `ReplyHandler.RebindKeepsSessions` | CommandFiles/commands/pin.ts:278-289 | Every binding stays well formed after a reply. A page turn binds the next page to the new message, and a delivered image unbinds the session. |
| `ReplyHandler.StrangerChangesNothing` | CommandFiles/commands/pin.ts:238 | A non-owner's reply sends nothing and leaves the correlator unchanged. |
| `ReplyHandler.NextOnLastPageChangesNothing` | CommandFiles/commands/pin.ts:244-246 | "next" on the last page sends only the notice and neither removes nor adds a binding. |
| `ReplyHandler.FailedFetchKeepsSession` | CommandFiles/commands/pin.ts:300-313 | A failed download gets "failed to fetch" and keeps the binding. A successful one sends the image and removes the binding. |
| `ReplyHandler.TurnPage` | CommandFiles/commands/pin.ts:248-290 | The "next" branch sends the following page and moves the advanced session from the old message to the new one. |
| `ReplyHandler.Apply` | CommandFiles/commands/pin.ts:243-318 | Carrying out a decision sends `Response` and leaves the bindings `Rebind` describes. |
| `ReplyHandler.HandleReply` | CommandFiles/commands/pin.ts:222-319 | `reply` keeps every binding well formed, sends the response for its decision, and changes bindings only on a page turn or a delivered image. |
| `ReplyHandler.FortyFiveResultsPaging` | CommandFiles/commands/pin.ts:177-184 | With 45 results, "next" advances twice to page 3, which has at most 3 tiles, and a third "next" gets the last-page notice. |

## Left out

- Drawing, fonts, the header text, the footer position, PNG encoding and the `fs` cache writes and unlinks: output only. A rendered page is represented by its badge placements.
- The HTTP search request, `loadImage` and `getStreamFromURL` are given as outcomes: `SearchResponse`, `load`, `fetched`, `fetchOk`.
- `Promise.all` concurrency: only its order-preserving filtering is observable, and the model keeps it.
- Floating-point scaling (`columnWidth = 740/3`, `scale = columnWidth / img.width`): each tile's scaled height is an abstract whole number given by `load`. Pixel coordinates are not modelled.
- Failures of the awaited steps after the search request inside `entry`'s `try` (rendering page 1 and sending it, pin.ts:186-199) also end in "Pinterest search failed". Only a failing search request is modelled as `RequestFailed`. The "no images" and direct-send replies (pin.ts:157, 170) are returned without `await`, so a failure to send them is not caught there and propagates to the host; the model assumes sending succeeds.
- `reply` has no `try`: an error while rendering or sending the next page, or while sending the selected image, propagates to the host. When the next page fails, nothing is sent and the old binding stays in place. When sending the selected image fails, the binding was already deleted (pin.ts:309 runs before the send at pin.ts:310), so the session is over. The model assumes rendering and sending succeed.
- A `results` field that is present but not an array is not modelled. The response is either a list of URLs, absent, or a failed request.
- `parseInt` precision: numbers above 2^53 are read exactly. This changes no decision, because such counts and badge numbers exceed every list length.
- `toLowerCase` is modelled on ASCII letters only. No other character lower-cases into "next" or into a digit, so no decision changes.
- The `key: "pinterest"` routing field of the stored record is host routing and is not modelled.
- Time-based eviction of abandoned bindings is not modelled; the correlator keeps them.
- The remaining command plugins in `CommandFiles/commands/` (`fakepost.ts`, `quote_canv.ts`, `deepimage.ts`, `noti.ts`) are canvas drawing or platform I/O and are not part of this model.

## Findings

| source | as written | input that shows it | evidently intended | confidence | as-written member | corrected member |
|---|---|---|---|---|---|---|
| CommandFiles/commands/pin.ts:296 | `!displayedMap[number - 1]` treats an entry of 0 like a missing one | page 1 where result 0 decoded; the owner replies "1" and gets "Invalid image number." | accept every `number` with `1 <= number <= displayedMap.length` | high; not executed | `ReplyHandler.FirstResultUnselectable` | `ReplyHandler.IntendedSelectsEveryBadge` |

The handler (`HandleReply`) keeps the guard as written, because it models the
command's observable behaviour. `DecideIntended` is the corrected decision.
`GuardDiffersOnlyOnFirstBadge` shows that the correction changes only that one case.
