# eBay search bot for Telegram, modelled in Dafny

The bot answers two chat commands. `/ebay <keyword> [min:<price>]
[max:<price>] [condition:<text>] [type:<auction|buyitnow>]` builds an
eBay.de search URL and fetches the result page. It turns each `li.s-item`
container into a record (title, price, link). It then sends the user a
numbered digest, split into messages of about 4000 characters, and stores a
map from ordinal ("1", "2", …) to link in that user's session data.
`/detail <n>` looks the ordinal up in that map and replies with the link.

The model is split into modules that follow the program's structure:

- `Text` (text.dfy): the Python string built-ins the bot relies on, as
  functions:
  - `str.strip()`, with Python's `str.isspace()` character set;
  - `str.startswith()`;
  - `str.split(sep)`, leftmost and non-overlapping;
  - `str(n)` of a natural number.

  The bot itself never calls `join`. `Join` and `Concat` serve only the
  lemmas: the split/join round trips and the statement that the digest
  messages, read one after the other, are the whole digest.
- `Query` (query.dfy): the URL that `scrape_ebay` builds. `BuildSearchUrl`
  is the imperative chain of `url +=` appends. It is proved equal to the
  declarative `SearchUrl`.
- `Arguments` (args.dfy): the loop that dispatches the arguments after the
  keyword on their prefixes. `ParseFilters` is proved equal to
  `ParsedFilters`, which gives each filter as the last argument with its
  prefix.
- `Listings` (listings.dfy): the per-container extraction loop.
  - A parsed page is a sequence of `Container` values. Each records the
    text of the three title candidates and of the price span, and whether
    the link anchor and its `href` attribute exist.
  - `ExtractListings` is the loop. `Extract` is its specification.
- `Digest` (digest.dfy): the numbered lines and the rule that sends the
  accumulated message once it is longer than 4000 characters. It also
  builds the ordinal-to-link map. `FormatDigest` is the loop. `Chunks`
  and `ResultIndex` specify it.
- `Lookup` (lookup.dfy): the reply to a `/detail` message, as a function
  of the message text and the stored map.
- `Bot` (session.dfy): a `Session` class holding one user's
  `context.user_data['details']`. `Search` is the `/ebay` handler.
  `Detail` is the `/detail` handler.

Where a careful reading of the code gives a behaviour that a reader might
not expect, the model follows the code:

- A container whose link anchor or `href` attribute is missing does not
  get skipped. The subscript raises, the whole handler ends and no message
  is sent (`Extract` is `None`, `Search` reports `raised`).
- The overflow check runs after a line has been appended. A message is
  therefore sent once it is longer than 4000 characters, including the
  line that pushed it over. A line can make a message longer than
  Telegram's 4096-character limit; such a message is still handed to
  `send_message` (`OversizeLineSentWhole`). The limit
  holds whenever no line exceeds 96 characters (`ChunksWithinLimit`).
- `arg.split(prefix)[1]` cuts the value at a repeated prefix:
  `min:10min:20` gives `10` (`OptionValueCut`). A later argument with the
  same prefix overrides an earlier one (`LastSettingWins`).
- An empty filter value (`min:`) is falsy in Python and adds nothing to the
  URL. So does a listing type other than `auction` or `buyitnow`.
- The stored map is replaced only when a search produced at least one
  record. A failed or empty search leaves the previous map in place. A
  successful search replaces the map as a whole, so ordinals of an earlier
  search are gone.
- The `/detail` argument is the second piece of `text.split(" ")`. A
  double space gives an empty query. A link counts only when it is a
  non-empty string.

## Model

| member | source | states |
|---|---|---|
| Text.IsSpace | ebaybot.py:42-50 | the characters `strip()` removes: Python's `str.isspace()` set, written out as code points |
| Text.Strip | ebaybot.py:42-50 | `strip()` leaves no whitespace at either end, and its result is empty exactly when the text is all whitespace |
| Text.StripSpec | ebaybot.py:42-50 | `strip()` removes only whitespace at the two ends, and keeps the rest as a contiguous slice of the text |
| Text.FirstNonSpace | ebaybot.py:42-50 | the scan from the left stops at the first character that is not whitespace; everything before it is whitespace |
| Text.EndNonSpace | ebaybot.py:42-50 | the scan from the right stops after the last character that is not whitespace; everything after it is whitespace |
| Text.Find | ebaybot.py:75-81 | the separator search returns an occurrence at or after the start position, or none |
| Text.FindNoEarlier | ebaybot.py:75-81 | the search misses no occurrence: none lies between the start position and the one found, and none at all when the result is none |
| Text.Split | ebaybot.py:75-81 | `split(sep)` yields at least one piece, and at least two exactly when the separator occurs |
| Text.JoinSplit | ebaybot.py:109 | joining the pieces of `split(sep)` with sep gives back the text |
| Text.SplitJoin | ebaybot.py:19-31 | splitting at a one-character separator recovers the pieces it joined, when no piece contains the separator |
| Text.StartsWith | ebaybot.py:74-80 | `arg.startswith(prefix)`: the text begins with the prefix; `PrefixesExclusive` and `OptionValueCut` state what follows from it |
| Text.SplitTwo | ebaybot.py:109 | `"a b".split(" ")` is `["a", "b"]` when neither part holds a space |
| Text.DecimalOf | ebaybot.py:94 | `str(n)` is a non-empty string of digits with no leading zero |
| Text.ValueOfDecimal | ebaybot.py:94 | reading the digits of `str(n)` back gives n |
| Text.DecimalInjective | ebaybot.py:94 | distinct ordinals give distinct keys |
| Query.SearchUrl | ebaybot.py:19-31 | the URL for a keyword and filters; `UrlStartsWithKeyword`, `ExtraParamsPresence`, `QueryStringIsJoin` and the lemmas below state what it holds |
| Query.BuildSearchUrl | ebaybot.py:18-31 | the chain of `url +=` appends builds exactly `SearchUrl`: the fixed prefix, the keyword, then "&name=value" for each truthy filter |
| Query.UrlStartsWithKeyword | ebaybot.py:19 | every URL starts with `https://www.ebay.de/sch/i.html?_nkw=` and the keyword |
| Query.ExtraParamsOrdered | ebaybot.py:21-31 | at most one parameter per filter, in the fixed order min, max, condition, type |
| Query.ExtraParamsPresence | ebaybot.py:21-31 | `_udlo=v`, `_udhi=v` and `_nkw=<keyword> v` appear exactly when that filter is `v` and non-empty; `LH_Auction=1` and `LH_BIN=1` appear exactly when the type is "auction" or "buyitnow" |
| Query.Truthy | ebaybot.py:21-27 | Python truthiness of a filter: present and non-empty; `EmptyFilterIgnored` states that an empty value counts as absent |
| Query.InExtraParams | ebaybot.py:21-31 | a parameter follows the keyword exactly when one of the four filters contributes it |
| Query.ExtraParamsNonEmpty | ebaybot.py:21-26 | no parameter added after the keyword has an empty value |
| Query.UnknownListingTypeIgnored | ebaybot.py:27-31 | any other listing type gives the same URL as no listing type |
| Query.EmptyFilterIgnored | ebaybot.py:21-27 | an empty filter value gives the same URL as an absent one, for each of the four filters |
| Query.QueryStringIsJoin | ebaybot.py:19-31 | the URL is the endpoint, "?" and the parameters `name=value` joined by "&" |
| Query.QueryStringRoundTrip | ebaybot.py:19-31 | when no user text contains '&' or '#', the URL's first '?' follows the endpoint, the URL holds no '#' (so no fragment cuts the query string short), and splitting what follows the '?' at '&' recovers exactly the parameters, in order |
| Query.UrlHasNoFragment | ebaybot.py:19-31 | when no user text contains '#', the URL string holds none |
| Query.ParamsWithout | ebaybot.py:19-31 | when no user text contains '&' (or '#'), no parameter name or value does |
| Query.RenderWithout | ebaybot.py:21-31 | the appended "&name=value" text holds a '#' only if some name or value does, and holds an '&' exactly when any parameter was appended |
| Arguments.OptionValue | ebaybot.py:75-81 | `arg.split(prefix)[1]` for an argument that starts with prefix; what it yields is stated by `OptionValueCut` |
| Arguments.OptionValueCut | ebaybot.py:75-81 | `arg.split(prefix)[1]` is a prefix of the text after the prefix and holds no occurrence of it; the first occurrence of the prefix in that text lies exactly where the value ends, and there is none when the value is all of it |
| Arguments.PrefixesExclusive | ebaybot.py:73-81 | no argument starts with two of `min:`, `max:`, `condition:`, `type:` |
| Arguments.ParseFilters | ebaybot.py:67-81 | the loop over `args[1:]` computes `ParsedFilters`, the last value given for each prefix |
| Arguments.LastSettingWins | ebaybot.py:73-81 | a filter stays None exactly when no argument has its prefix; otherwise the last argument with the prefix decides its value |
| Arguments.UnrecognisedIgnored | ebaybot.py:73-81 | an argument with none of the four prefixes changes no filter |
| Listings.TitleText | ebaybot.py:39-47 | the title of a container; `TitleIsFirstText` and `TitleNonEmpty` state what it is |
| Listings.TitleIsFirstText | ebaybot.py:39-47 | the title is the stripped text of the first of the h3, div and span candidates whose text is not blank, or "Kein Titel" |
| Listings.HasText | ebaybot.py:42-47 | `title and title.get_text().strip()`: the node is present and its text is not all whitespace; `TitleIsFirstText` uses it |
| Listings.FirstTextSpec | ebaybot.py:39-47 | the fallback chain picks the earliest candidate with text and uses the default only when none has any |
| Listings.TitleNonEmpty | ebaybot.py:47 | a title is never empty and never starts or ends with whitespace |
| Listings.PriceText | ebaybot.py:49-50 | the price of a container; `PriceSpec` states what it is |
| Listings.PriceSpec | ebaybot.py:49-50 | "Kein Preis" stands only for a missing price span; a present span keeps its stripped text, which is empty exactly when the span is blank |
| Listings.ListingOf | ebaybot.py:54 | the record `{'title': ..., 'price': ..., 'link': ...}` of a container; `ExtractSpec` states that each container gives exactly this record |
| Listings.ExtractListings | ebaybot.py:36-56 | the loop over the containers computes `Extract`: one record per container in order, or an abort |
| Listings.ExtractStep | ebaybot.py:38-54 | one more container appends its own record, or aborts when it has no link |
| Listings.Href | ebaybot.py:52 | the link of a container, or none when the anchor or its `href` is missing; `ExtractSpec` states that such a container makes the whole extraction fail |
| Listings.ExtractAbortsFrom | ebaybot.py:52 | once a container without a link is reached, the extraction fails whatever follows |
| Listings.ExtractSpec | ebaybot.py:38-56 | the extraction succeeds exactly when every container has a link, and then gives one record per container, in page order, built from that container |
| Digest.Line | ebaybot.py:93 | the digest line of the k-th record; `LineNumberReadsBack` states that its number reads back as k |
| Digest.Lines | ebaybot.py:92-93 | the digest lines numbered by `enumerate` from 1 in record order; `FormatDigest` states that the loop sends exactly their chunks |
| Digest.LineNumberReadsBack | ebaybot.py:93-94 | the number at the head of line k, up to the first '.', is `str(k)`, the key its link is stored under; each line ends in a newline |
| Digest.Flushes | ebaybot.py:92-102 | the messages the loop sends for the remaining lines; the `Flushes…` lemmas below state what they are |
| Digest.FlushesConcat | ebaybot.py:92-102 | the messages sent, read in order, are the accumulated text followed by all remaining lines: nothing is lost, repeated or reordered |
| Digest.FlushesNonEmpty | ebaybot.py:97-102 | no empty message is ever sent |
| Digest.FlushesFull | ebaybot.py:97-99 | every message but the last is longer than 4000 characters |
| Digest.FlushesHead | ebaybot.py:92-99 | the first message is exactly the accumulated text up to and including the first line that takes it past 4000 characters, and accumulation starts afresh after that line |
| Digest.FlushesBounded | ebaybot.py:92-99 | a message is at most 4000 characters plus the length of the longest line |
| Digest.FlushesShort | ebaybot.py:92-102 | a digest of at most 4000 characters goes out as one message, or as none when empty |
| Digest.ChunksSpec | ebaybot.py:89-102 | the properties above for a whole digest, starting from an empty message |
| Digest.ChunksWithinLimit | ebaybot.py:96-99 | when no line exceeds 96 characters, no message exceeds Telegram's 4096 |
| Digest.OversizeLineSentWhole | ebaybot.py:96-99 | a first line longer than 4096 characters is handed whole to `send_message` as the first message, over Telegram's limit |
| Digest.ResultIndex | ebaybot.py:90-94 | the map from ordinal to link; `ResultIndexLinks`, `ResultIndexKeys` and `ResultIndexMisses` state which keys it has and what they hold |
| Digest.ResultIndexLinks | ebaybot.py:90-94 | key `str(k)` holds the link of the k-th record |
| Digest.ResultIndexKeys | ebaybot.py:90-94 | the keys of the map are exactly `str(1)` … `str(n)` for n records |
| Digest.ResultIndexMisses | ebaybot.py:90-94 | "0" and ordinals past the last record are not keys |
| Digest.FormatDigest | ebaybot.py:89-102 | the loop sends exactly `Chunks(Lines(items))`, in order, and builds exactly `ResultIndex(items)` |
| Lookup.Query | ebaybot.py:109-114 | the second piece of the text split at single spaces, if any; `QueryOfCommand` states what it is for `/detail <s>` |
| Lookup.DetailReply | ebaybot.py:116-122 | the reply to a `/detail` message; the lemmas below state when it is which reply |
| Lookup.UsageIffNoArgument | ebaybot.py:109-112 | the usage reply comes exactly when the message contains no space |
| Lookup.LinkIffStored | ebaybot.py:117-122 | a link is given exactly when the queried key holds a non-empty link, and it is that link; otherwise the reply is "Ungültige Nummer. Bitte versuche es erneut." |
| Lookup.NoLinkBeforeSearch | ebaybot.py:116-122 | with the default empty map no message yields a link |
| Lookup.QueryOfCommand | ebaybot.py:109-114 | the query of `/detail s` is s, also when more text follows after a further space |
| Lookup.DetailOfOrdinal | ebaybot.py:94-120 | after a search with records, `/detail k` replies with the link of the k-th record when that link is non-empty |
| Lookup.DetailOutOfRange | ebaybot.py:94-122 | `/detail 0` and ordinals past the last record get the invalid-number reply |
| Lookup.LeadingZeroInvalid | ebaybot.py:94-122 | a number written with a leading zero, such as `01`, is invalid |
| Bot.Session.constructor | ebaybot.py:116 | a user who has not searched has the empty map |
| Bot.Session.Search | ebaybot.py:59-104 | no arguments → the usage text; a container without a link → raised, nothing sent, map kept; no records → "Keine Angebote gefunden.", map kept; otherwise the digest messages and the map of the new records; the URL is `SearchUrl` of the keyword and parsed filters |
| Bot.Session.Detail | ebaybot.py:107-122 | the reply is `DetailReply` of the text and the stored map |

## Left out

- The HTTP request (`requests.get`) and the HTML parser are not modelled.
  `Search` takes the parsed page as a parameter and returns the URL
  string that line 33 passes to `requests.get`. The call at line 33 has no timeout and no
  `raise_for_status`, so an error status is parsed like any other page;
  the `page` parameter covers that case. Only network-level errors of
  `requests` raise there, and those exceptions are not modelled.
- BeautifulSoup's `find`, `find_all` and `get_text` are abstracted. A
  container is the optional text of each candidate node plus an optional
  anchor with an optional `href`. Class matching, nesting and text
  extraction from markup are not modelled.
- The Telegram library (`Updater`, dispatcher, handlers, `reply_text`,
  `send_message`) is not modelled. A sent message is an element of the
  `sent` sequence. `reply_text` and `send_message` to the same chat are not
  told apart.
- Bot.Session.Search: every send is taken to succeed. `sent` is the list
  of messages handed to `send_message`, in order. Telegram rejects a
  message longer than 4096 characters, and the library then raises. In
  the real handler that exception ends it at line 98 or 102: no later
  message is sent, line 104 is not reached and the old map stays in
  `user_data`. The model instead sends every chunk and stores the new
  map. Telegram's answers are outside the program, and they are not
  modelled.
- The exception that a container without a link raises ends the handler.
  What the dispatcher then does with it (logging) is not modelled.
- Reading `TELEGRAM_API` from the environment, the error print, `sleep`
  and `sys.exit` are not modelled: they are process start-up.
- `help_command`, `start` and `main` each send a fixed text or register
  handlers, and hold no logic worth proving.
- Concurrent updates from several users are not modelled. Each user's data
  is one `Session` object.
- URL encoding: the source does none, and neither does the model.
  `requests` re-quotes the URL string before it sends it: a space (such
  as the one between keyword and condition) goes out as `%20`, and
  non-ASCII text is percent-encoded. Nothing after a '#' is sent: it is
  taken as a fragment. These transformations are not modelled. The effect
  of '&' and '#' in user text is covered only through the requirement of
  `Query.QueryStringRoundTrip`.
- The whitespace that `strip()` removes is Python's `str.isspace()` set,
  written out as code points. Later changes to Unicode's whitespace
  property are not tracked.
- Characters are Unicode scalar values, and `len` counts them, as Python
  does for `str`.
