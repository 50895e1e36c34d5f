# DankCord reply parsing and event cache, in Dafny

DankCord is a self-bot client for the Dank Memer game bot on Discord. This
project models the two pieces of `src/DankCord/objects.py` that hold logic:

- **`Cache`** (`cache.dfy`, module `CacheStore`). This is the per-nonce store of
  websocket events that the client fills while it waits for replies. The model
  is a class with the six fields of the source, plus `Clear`, which
  forgets one nonce in place. The function `Cleared` specifies `Clear` on a
  `Snapshot` of the fields, and lemmas about `Cleared` say:
  - what goes;
  - what stays, in order;
  - when a second clear changes nothing.
- **`Parser`** (`parser.dfy`, facts in `parser_facts.dfy`). These are the
  extractors that turn a reply's description text into a `CommandResult`:
  beg, search, common1 (fish, hunt, dig), crime, postmemes, buy, sell, the
  cooldown indicator and the cooldown test. Each is a pure function. Where
  the source lets an exception escape, the function returns `None`. Where
  the source catches it, the function takes the branch the `except`
  leaves.
  The result record `CommandResult` (`src/DankCord/objects.py:243-255`) is
  the datatype `Parser.CommandResult`. Its gain and loss dictionaries are
  `Parser.Tally` values: optional coins, an optional item list, and the bare
  `{quantity: item}` pair of buy and sell. Python's `None` is `Option.None`.

The extractors are built from Python `re.findall`, `str.replace`,
`str.split`, `str.join`, `list.index` and `in`. `text.dfy` (module `Text`)
models the string operations. `regex.dfy` (module `Regex`) models the
eight fixed expressions and `findall` itself:
- a leftmost, non-overlapping scan that resumes at the end of each match;
- `.` does not cross a newline;
- `.*?` is lazy and `.*`/`.+` are greedy;
- for the two expressions with a group (bold `\*\*(.*?)\*\*` and tag `<(.*?)\>`), the group is what is reported. The cooldown indicator's `(\d+)` also has a group, but it spans the whole match, so it is modelled as the plain digit run `Digits`, read in ASCII.

The scan is written once over an abstract matcher (`Regex.Scan`) and proved
there. `wrappers.dfy` holds `Option`.

## Model

| member | source | states |
|---|---|---|
| CacheStore.Cache.constructor | src/DankCord/objects.py:33-42 | a new store has three empty maps and three empty lists |
| CacheStore.Cache.Clear | src/DankCord/objects.py:44-56 | the new state is `Cleared` of the old one; the nonce is no longer a key of the nonce map or the message-create map, and the raw update list is empty |
| CacheStore.Without | src/DankCord/objects.py:47 | a guarded `del` leaves the map without the key, whether or not the key was there |
| CacheStore.RemoveFirstSpec | src/DankCord/objects.py:51 | `list.remove` of a present element shortens the list by one and removes exactly one occurrence (multiset difference); an absent element leaves the list unchanged |
| CacheStore.RemoveFirstAt | src/DankCord/objects.py:53 | only the first occurrence is cut out; the elements before and after it keep their order |
| CacheStore.ClearedRemoves | src/DankCord/objects.py:44-56 | after clear, the nonce is in neither nonce-keyed map; the updates of the message it mapped to are gone; each interaction list holds one occurrence fewer (none if it held none); the raw update list is empty |
| CacheStore.ClearedFrame | src/DankCord/objects.py:44-56 | every other nonce and message id keeps its entry and value; no key is added; each interaction list equals the old list with the first occurrence of the nonce cut out, or the old list itself when the nonce is not in it |
| CacheStore.ClearedAbsent | src/DankCord/objects.py:44-56 | clearing a nonce recorded nowhere only empties the raw update list |
| CacheStore.ClearedIdempotent | src/DankCord/objects.py:44-56 | a second clear of the same nonce changes nothing exactly when the nonce occurred at most once in each interaction list |
| Text.ContainsIff | src/DankCord/objects.py:436 | Python `t in s` holds exactly when `t` occurs at some position of `s` |
| Text.RemoveAll | src/DankCord/objects.py:270 | `replace(pat, "")` never lengthens the string |
| Text.RemoveAllAbsent | src/DankCord/objects.py:362 | replacing a pattern that does not occur returns the string unchanged |
| Text.RemoveCharSpec | src/DankCord/objects.py:349 | deleting the commas removes every comma and keeps every other character with its count |
| Text.RemoveCharConcat | src/DankCord/objects.py:349 | deleting the commas from a concatenation gives the two parts cleaned and concatenated in their order |
| Text.RemoveCharSingle | src/DankCord/objects.py:349 | a single character disappears exactly when it is the comma; with Text.RemoveCharConcat this fixes the cleaned text, order included |
| Text.SplitSpec | src/DankCord/objects.py:380 | `split(sep)` yields one more piece than there are separators, and no piece contains the separator |
| Text.JoinSplit | src/DankCord/objects.py:380 | joining the pieces of a split with the separator gives the original string back |
| Text.SplitAtFirst | src/DankCord/objects.py:336 | the first piece runs up to the first separator; the remaining pieces are the split of what follows it |
| Text.SplitNoSeparator | src/DankCord/objects.py:336 | a string without the separator splits into itself alone |
| Text.DropPiecesStep | src/DankCord/objects.py:309 | `" ".join(s.split(" ")[k+1:])` equals the same with `k` applied to the text after the first space |
| Text.DropOnePiece | src/DankCord/objects.py:336 | `" ".join(s.split(" ")[1:])` is exactly the text after the first space |
| Text.ParseInt | src/DankCord/objects.py:277 | `int(s)` succeeds exactly on a non-empty run of digits |
| Regex.DigitRunSpec | src/DankCord/objects.py:277 | a `[0-9]+` run consists of digits and is not followed by a digit (it is maximal) |
| Regex.LazyCloseSpec | src/DankCord/objects.py:282 | `(.*?)` stops at the first closing delimiter on the line and at no earlier one; it finds none exactly when the line has none |
| Regex.LineEndSpec | src/DankCord/objects.py:309 | the line end is newline-free up to itself and sits at a newline or at the end of the text |
| Regex.LastAtSpec | src/DankCord/objects.py:309 | the position found is the last occurrence of the delimiter in the range |
| Regex.GreedySpec | src/DankCord/objects.py:309 | `.*`/`.+` followed by a delimiter ends at the last occurrence of the delimiter on the line, and at none when the line has none past the minimum length |
| Regex.ScanFound | src/DankCord/objects.py:277 | every element of the scan is the match the matcher finds at that element's start |
| Regex.ScanEmpty | src/DankCord/objects.py:277 | the scan is empty exactly when the matcher finds nothing in range |
| Regex.ScanFirst | src/DankCord/objects.py:277 | the first element of the scan is at the leftmost position where the matcher finds something |
| Regex.ScanResumes | src/DankCord/objects.py:286 | after the first element, the scan resumes at that element's end (non-overlapping) |
| Regex.ScanLast | src/DankCord/objects.py:286 | nothing is found after the end of the last element |
| Regex.FindAllMatches | src/DankCord/objects.py:282 | each element of `findall` is a match of the expression |
| Regex.FindAllEmpty | src/DankCord/objects.py:282 | `findall` is empty exactly when the expression matches nowhere |
| Regex.FindAllFirst | src/DankCord/objects.py:282 | the first element of `findall` is the leftmost match, with the end the expression gives it |
| Regex.FindAllLast | src/DankCord/objects.py:286 | nothing matches after the last element of `findall` |
| Regex.FirstMatch | src/DankCord/objects.py:282 | `findall(...)[0]` is the group of the leftmost match |
| Regex.NthNone | src/DankCord/objects.py:282 | `findall(...)[0]` raises exactly when the expression matches nowhere |
| Regex.LeftmostUnique | src/DankCord/objects.py:282 | the leftmost match position is unique |
| Regex.NthSecond | src/DankCord/objects.py:286 | `findall(...)[1]` is the group of the leftmost match that starts at or after the end of the first match |
| Regex.NthNoSecond | src/DankCord/objects.py:286 | `findall(...)[1]` raises when nothing matches after the end of the first match |
| Regex.FindsIff | src/DankCord/objects.py:282 | `findall` finds something exactly when the expression matches at some position |
| Parser.FirstIntSpec | src/DankCord/objects.py:393 | `int(findall("[0-9]+", s)[0])` raises exactly on a text without digits; otherwise it is the value of the whole run of digits at the first digit |
| Parser.CoinAmountSpec | src/DankCord/objects.py:277 | the coin amount is absent exactly when there is no `**⏣ N**` in the text; otherwise it is the value of the digits of the leftmost one |
| Parser.CoinDigitsAt | src/DankCord/objects.py:355 | the digits of a coin match are a non-empty run of digits |
| Parser.Untagged | src/DankCord/objects.py:361-362 | removing the tag never lengthens the item, and an item without `<` is kept as it is |
| Parser.IndexIn | src/DankCord/objects.py:382 | `list.index` returns the first position holding the element; it raises exactly when the element is absent |
| ParserFacts.CoinsRecorded | src/DankCord/objects.py:354-370 | beg, crime and search record the same coins: the amount of the leftmost `**⏣ N**`, and nothing when that amount is 0 or missing; none of the three records a loss (the loss is `{}`) |
| ParserFacts.CrimeSuccess | src/DankCord/objects.py:373 | crime succeeds exactly when the comma-free text holds a bold span; beg succeeds exactly when crime does |
| ParserFacts.NoBoldResult | src/DankCord/objects.py:280-296 | when the comma-free text holds no bold span, the first-span lookup raises, the bare `except` swallows it, and beg and crime both return an unsuccessful result with gain `{}` and loss `{}` |
| ParserFacts.ItemWithoutCoins | src/DankCord/objects.py:359-362 | without a non-zero amount, crime's item is the first bold span with its tag removed, and beg's is that span untouched |
| ParserFacts.ItemAfterCoins | src/DankCord/objects.py:363-366 | with a non-zero amount, wherever it stands, both record the second bold span of the text, with its tag removed |
| ParserFacts.NoItemAfterCoins | src/DankCord/objects.py:363-373 | with a non-zero amount and only one bold span in the text, neither records an item, and both still succeed |
| ParserFacts.BegAgreesWithCrime | src/DankCord/objects.py:285-288 | when a non-zero amount is read, beg and crime give the same result |
| ParserFacts.UntaggedPrefix | src/DankCord/objects.py:361-362 | an item that starts with `<tag> ` loses exactly that prefix |
| ParserFacts.TagHead | src/DankCord/objects.py:361 | the first tag of a text that starts with `<tag>` is `tag` |
| ParserFacts.BegKeepsTag | src/DankCord/objects.py:281-284 | without coins, beg records a tagged first bold span with its tag, and so differs from the intended reading |
| ParserFacts.BegIntendedStripsTag | src/DankCord/objects.py:281-284 | the intended beg records the same span without its tag |
| ParserFacts.MarkDigits | src/DankCord/objects.py:308 | deleting the `**` and the `x` of a `**Nx` mark leaves exactly its digits |
| ParserFacts.MarkRead | src/DankCord/objects.py:308 | a `**Nx` mark reads as the count written in it |
| ParserFacts.SearchCount | src/DankCord/objects.py:308 | the count search reads is the one in the leftmost `**Nx` mark |
| ParserFacts.SearchEntry | src/DankCord/objects.py:307-322 | search records one entry exactly when the count is non-zero; its name is absent exactly when there is no `**Nx ...**` span, and otherwise is that span with `**` deleted and its first two words dropped |
| ParserFacts.SearchItems | src/DankCord/objects.py:307-322 | the same, stated with the leftmost `**Nx` mark and the leftmost `**Nx ...**` span of the text |
| ParserFacts.SearchSuccess | src/DankCord/objects.py:315-318 | search succeeds exactly when the text holds a `**⏣ N**` amount |
| ParserFacts.SearchNoItems | src/DankCord/objects.py:321-322 | without a `**Nx` mark, search records no item |
| ParserFacts.Common1Result | src/DankCord/objects.py:329-341 | common1 succeeds exactly when a `**...*` span exists; without one, its gain is `{}`; otherwise its gain lists the leftmost span, with `**` deleted and its first word dropped, when that is non-empty; its loss is always `{}` |
| ParserFacts.BuyResult | src/DankCord/objects.py:404-411 | buy succeeds exactly when the text says "bought" and "and paid"; on success the gain is the caller's `{quantity: item}` and the loss holds only coins; on failure gain and loss are `None` |
| ParserFacts.BuyPrice | src/DankCord/objects.py:408 | the price is the first integer of the second bold span, and buy raises exactly when that span has no digit |
| ParserFacts.BuyNoPrice | src/DankCord/objects.py:408 | buy raises when the text has exactly one bold span |
| ParserFacts.BuyNoBold | src/DankCord/objects.py:408 | buy raises when the text has no bold span |
| ParserFacts.BuyIgnoresItem | src/DankCord/objects.py:409 | what buy reads from the text does not depend on the caller's item and quantity |
| ParserFacts.SellResult | src/DankCord/objects.py:413-420 | sell succeeds exactly when the text says "sold" and "and got paid"; on success the loss is the caller's `{quantity: item}` and the gain holds only coins; on failure gain and loss are `None` |
| ParserFacts.SellPrice | src/DankCord/objects.py:417 | the amount earned is the first integer of the first bold span, and sell raises exactly when that span has no digit |
| ParserFacts.SellNoPrice | src/DankCord/objects.py:417 | sell raises when the text has no bold span |
| ParserFacts.SellIgnoresItem | src/DankCord/objects.py:418 | what sell reads from the text does not depend on the caller's item and quantity |
| ParserFacts.CooldownResult | src/DankCord/objects.py:426-429 | the end time is the first integer of the leftmost `<...>` tag of the unaltered text; the result is unsuccessful, with empty gain and loss, and a cooldown equal to the time left |
| ParserFacts.CooldownFrom | src/DankCord/objects.py:427 | given the first tag, the indicator raises exactly when the tag has no digit |
| ParserFacts.CooldownNoTag | src/DankCord/objects.py:427 | without a tag the indicator raises |
| ParserFacts.CooldownLater | src/DankCord/objects.py:428 | read `delay` seconds later, the same text reports `delay` seconds less |
| ParserFacts.CheckCooldownIff | src/DankCord/objects.py:431-441 | the cooldown test holds exactly when the text contains "seconds", "command" and "cooldown is" |
| ParserFacts.ItemEntrySpec | src/DankCord/objects.py:397-398 | an item line's entry is the value of its leftmost `[0-9]+x` mark, named by the line from its sixth space-separated piece on |
| ParserFacts.ItemEntryNone | src/DankCord/objects.py:397 | an item line has no entry (the source raises) exactly when it holds no `[0-9]+x` mark |
| ParserFacts.ScanFails | src/DankCord/objects.py:391-399 | the postmemes loop raises exactly when one of its lines is a coin line without digits or an item line without an `Nx` count (the latter by ParserFacts.ItemEntryNone) |
| ParserFacts.ScanCoins | src/DankCord/objects.py:392-393 | the coins recorded are the first integer of the last coin line; without a coin line they stay as they were |
| ParserFacts.EntriesOfItemLines | src/DankCord/objects.py:394-399 | the reference reading holds one entry per item line, in order, each the entry read from that line |
| ParserFacts.ScanItems | src/DankCord/objects.py:394-399 | the items recorded are the ones before the loop followed by the reference reading of the lines |
| ParserFacts.ScanItemsPresent | src/DankCord/objects.py:395-396 | the item list is absent after the loop exactly when it was absent before and no item line came |
| ParserFacts.ScanLineItems | src/DankCord/objects.py:394-399 | one item line appends exactly its entry; any other line leaves the items as they were |
| ParserFacts.PostmemesStart | src/DankCord/objects.py:380-385 | the scanned lines are a suffix of the lines after the third: from the first exact `**You Received:**` line when there is one, all of them otherwise |
| ParserFacts.PostmemesResult | src/DankCord/objects.py:376-402 | without "**You Received" the result is unsuccessful with gain `{}`; with it, postmemes raises exactly when a scanned line fails, and otherwise succeeds with the scanned gain |
| CacheStore.RemoveFirst | src/DankCord/objects.py:51 | `list.remove` on a list that holds the element; its contract is CacheStore.RemoveFirstSpec and CacheStore.RemoveFirstAt |
| CacheStore.Cleared | src/DankCord/objects.py:44-56 | the store after `clear`, the specification of CacheStore.Cache.Clear; its contract is CacheStore.ClearedRemoves, ClearedFrame, ClearedAbsent and ClearedIdempotent |
| Text.Contains | src/DankCord/objects.py:436 | Python `in` on strings; its contract is Text.ContainsIff |
| Text.Split | src/DankCord/objects.py:380 | `str.split` with an explicit one-character separator; its contract is Text.SplitSpec, Text.JoinSplit, Text.SplitAtFirst and Text.SplitNoSeparator |
| Text.Join | src/DankCord/objects.py:309 | `str.join` with a one-character separator; undoes Text.Split by Text.JoinSplit |
| Text.DropPieces | src/DankCord/objects.py:309 | `" ".join(s.split(" ")[k:])`; its contract is Text.DropPiecesStep and Text.DropOnePiece |
| Regex.MatchAt | src/DankCord/objects.py:282 | where a match of each fixed expression starting at a position ends; a match is at least as long as the expression's fixed text plus one character for each `+` (7 for the coin amount, 4 for `**Nx`, 8 for `**Nx name**`, 3 for `**...*`, 2 for `Nx`) and ends within the string |
| Regex.Scan | src/DankCord/objects.py:277 | the leftmost, non-overlapping scan of `findall` over an abstract matcher; its contract is Regex.ScanFound, ScanEmpty, ScanFirst, ScanResumes and ScanLast |
| Regex.FindAll | src/DankCord/objects.py:277 | `re.findall` as a list of matches; its contract is Regex.FindAllMatches, FindAllEmpty, FindAllFirst and FindAllLast |
| Regex.Nth | src/DankCord/objects.py:277 | `re.findall(...)[n]`, `None` where Python raises; its contract is Regex.FirstMatch, NthNone, NthSecond and NthNoSecond |
| Parser.FirstInt | src/DankCord/objects.py:393 | the first integer of a text; its contract is Parser.FirstIntSpec |
| Parser.CoinAmount | src/DankCord/objects.py:277 | the coin amount shared by beg, search and crime; its contract is Parser.CoinAmountSpec |
| Parser.ItemSpan | src/DankCord/objects.py:282-286 | the bold span beg and crime take the item from: the second when the amount is truthy, the first otherwise; its contract is ParserFacts.ItemWithoutCoins and ParserFacts.ItemAfterCoins |
| Parser.Listed | src/DankCord/objects.py:293-294 | `[{1: item}]` only for a non-empty item (truthiness); stated through ParserFacts.ItemWithoutCoins and ParserFacts.Common1Result |
| Parser.Outcome | src/DankCord/objects.py:291-296 | the `CommandResult` (a `Tally` gain and an empty loss) that beg and crime build: coins and item recorded only when truthy, success when either is not `None`; its contract is ParserFacts.CoinsRecorded, ParserFacts.CrimeSuccess and ParserFacts.NoBoldResult |
| Parser.Beg | src/DankCord/objects.py:265-296 | `Parser.beg` as written; its contract is ParserFacts.CoinsRecorded, CrimeSuccess, NoBoldResult, ItemWithoutCoins, ItemAfterCoins, NoItemAfterCoins, BegAgreesWithCrime and BegKeepsTag |
| Parser.BegIntended | src/DankCord/objects.py:281-284 | `Parser.beg` with the tag removed in the no-coin branch too; its contract is ParserFacts.BegIntendedStripsTag |
| Parser.Crime | src/DankCord/objects.py:343-374 | `Parser.crime`; its contract is ParserFacts.CoinsRecorded, CrimeSuccess, NoBoldResult, ItemWithoutCoins, ItemAfterCoins and NoItemAfterCoins |
| Parser.SearchItem | src/DankCord/objects.py:307-311 | the quantity and name search reads; its contract is ParserFacts.SearchCount and ParserFacts.SearchEntry |
| Parser.Search | src/DankCord/objects.py:298-323 | `Parser.search`; its contract is ParserFacts.CoinsRecorded, SearchSuccess, SearchItems and SearchNoItems |
| Parser.Common1 | src/DankCord/objects.py:325-341 | `Parser.common1`; its contract is ParserFacts.Common1Result |
| Parser.ItemEntry | src/DankCord/objects.py:397-398 | the `{N: name}` entry of a postmemes item line; its contract is ParserFacts.ItemEntrySpec and ParserFacts.ItemEntryNone |
| Parser.ScanLine | src/DankCord/objects.py:392-399 | one pass of the postmemes loop; its contract is ParserFacts.ScanLineItems, ScanCoins and ScanFails |
| Parser.ScanLines | src/DankCord/objects.py:391-399 | the postmemes loop as a fold over the lines; its contract is ParserFacts.ScanFails, ScanCoins, ScanItems and ScanItemsPresent |
| Parser.PostmemesLines | src/DankCord/objects.py:380-385 | the lines postmemes scans; its contract is ParserFacts.PostmemesStart |
| Parser.Postmemes | src/DankCord/objects.py:376-402 | `Parser.postmemes`; its contract is ParserFacts.PostmemesResult |
| Parser.Buy | src/DankCord/objects.py:404-411 | `Parser.buy`; its contract is ParserFacts.BuyResult, BuyPrice, BuyNoPrice, BuyNoBold and BuyIgnoresItem |
| Parser.Sell | src/DankCord/objects.py:413-420 | `Parser.sell`; its contract is ParserFacts.SellResult, SellPrice, SellNoPrice and SellIgnoresItem |
| Parser.Cooldown | src/DankCord/objects.py:422-429 | `Parser.cooldown` with the clock as a parameter; its contract is ParserFacts.CooldownResult, CooldownFrom, CooldownNoTag and CooldownLater |
| Parser.Difference | src/DankCord/objects.py:428 | the seconds left until the cooldown ends, on integers; stated through ParserFacts.CooldownLater |
| Parser.CheckCooldown | src/DankCord/objects.py:431-441 | `Parser.check_cooldown`; its contract is ParserFacts.CheckCooldownIff |

## Left out

- Text.RemoveAll: its own contract states only that `replace(pat, "")` never lengthens the string. What it removes is stated for one-character patterns (Text.RemoveCharSpec, Text.RemoveCharConcat and Text.RemoveCharSingle, which together fix the result and its order), for absent patterns (Text.RemoveAllAbsent) and for a leading tag (ParserFacts.UntaggedPrefix), not for every multi-character pattern.
- Parser.Untagged: its own contract states the length bound and the tagless case. The removal of a tag is stated by ParserFacts.UntaggedPrefix for an item that starts with its tag, not for a tag in the middle of the item.
- `Config`, the plain data holders (`Author`, `Embed`, `Message`, `Button` and the rest) and their `__repr__` strings are not part of this model. They hold no logic beyond dictionary lookups with defaults.
- Parser.Cooldown: the wall clock is a parameter. `datetime.fromtimestamp` and `datetime.now()` become an integer end time and an integer `now`, both in seconds, and the difference is taken on integers. The float difference and its `round(..., 2)` in `CommandResult` are not modelled.
- Parser.FirstIntSpec: holds only for digit runs within CPython's integer-string limit (see the second Text.ParseInt line).
- Parser.CoinAmountSpec: holds only for digit runs within CPython's integer-string limit (see the second Text.ParseInt line).
- ParserFacts.SearchSuccess: holds only for digit runs within CPython's integer-string limit (see the second Text.ParseInt line).
- ParserFacts.ScanFails: holds only for digit runs within CPython's integer-string limit (see the second Text.ParseInt line).
- ParserFacts.BuyPrice: holds only for digit runs within CPython's integer-string limit (see the second Text.ParseInt line).
- ParserFacts.SellPrice: holds only for digit runs within CPython's integer-string limit (see the second Text.ParseInt line).
- Parser.Cooldown: `datetime.fromtimestamp` raises for an end time outside the range of `datetime` (past year 9999) or of the platform's `time_t`. The model has no such bound: it reads any end time and reports the difference, so `<t:999999999999:R>` gives a result where the source raises.
- Parser.Cooldown: both datetimes of the source are naive local times. Across a daylight-saving change between `now` and the end time, the source's difference is off by the change in UTC offset. Parser.Difference and ParserFacts.CooldownLater use plain seconds on one scale, so they do not reflect this.
- Parser.Cooldown: `(\d+)` is modelled as ASCII digits. Python's `\d` on `str` also matches other Unicode decimal digits.
- Text: strings are sequences of Unicode scalar values, so a Python `str` holding a lone surrogate has no counterpart in the model.
- Text.ParseInt: reads ASCII digits only, which is all the fixed expressions hand it. Python's `int` would also accept other Unicode digits, signs and surrounding blanks.
- Text.ParseInt: has no length limit. CPython 3.11 and later (and the 2022 security releases of 3.7-3.10) raise `ValueError` from `int(str)` for more than 4300 digits by default; the limit is configurable with `sys.set_int_max_str_digits` and can be switched off. The model reads a run of any length, so every "exactly when" about a failed integer read holds only for runs within that limit. This applies to Parser.FirstIntSpec, Parser.CoinAmountSpec, ParserFacts.SearchSuccess, ParserFacts.ScanFails, ParserFacts.BuyPrice and ParserFacts.SellPrice. Above the limit, beg and crime take the no-coin branch, search fails, and postmemes, buy and sell raise, where the model reads the number.
- Exceptions: an exception the source lets escape (buy/sell without the bold span they index, a postmemes line without digits, a cooldown text without a tag or digit) is `None`. The out-of-range end times of the cooldown indicator are not among them (see the Parser.Cooldown lines). The exception's type is not kept.
- `CommandResult` defaults: the shared mutable `{}` default for `gain` and `loss` is modelled as a fresh empty `Tally`, so aliasing between results is not captured.
- The `{quantity: item}` dictionary of buy and sell is the `bare` entry of `Tally`. The source uses it as the whole dictionary, with the quantity as key.
- `Cache` is only cleared here; the websocket handlers that fill it are not part of this model. Concurrent access to it is not modelled.
- The `rich` console import and the types of message ids, updates and raw events are left abstract as type parameters.

## Findings

| source | as written | input that shows it | evidently intended | confidence | as-written member | corrected member |
|---|---|---|---|---|---|---|
| src/DankCord/objects.py:284 | without a non-zero coin amount, beg assigns the untagged text to an unassigned variable `item`; the bare `except` swallows the error, so the recorded item keeps its tag | description `**<:coin:1> Pebble**`: beg records `<:coin:1> Pebble` | remove the tag as crime does at line 362, recording `Pebble` | not executed | ParserFacts.BegKeepsTag | ParserFacts.BegIntendedStripsTag |
