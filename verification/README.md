# pyndico in Dafny

pyndico is a small Python 2 client for the Indico HTTP export API. This
project models its deterministic core as pure Dafny functions over immutable
data, and proves what that core promises:

- **Request building** (`Pyndico.__init__`, `Pyndico.build_request`). The
  base URL gets `https://` prefixed unless it already contains the substring
  `http`. The request's key/value list is the caller's parameters, then
  `apikey`, then `onlypublic=yes`, then (with a secret key, unless persistent)
  a `timestamp`. With a secret key the list is sorted by lower-cased key,
  `path?<encoded list>` is signed, and a `signature` pair is appended. An
  empty list yields the bare path. Otherwise the URL is
  `base_url + path + "?" + encoded list`.
- **Query building** (`Pyndico.get` up to the network call, and the
  `qtype = 'event'` override of `get_event`). `qtype` and then `qtype_id` are
  popped from the keyword arguments. A missing one raises `KeyError`. The path
  is `/export/<qtype>/<qtype_id>.json`. `limit=123` is added only when no
  `limit` is given.
- **Response mapping** (`PyndicoEventResponse._set_attributes`,
  `_catalogue_contribution`, `__str__`, and the `try`/`except KeyError` loop
  of `get_event`). A decoded JSON result becomes an event record. Its
  catalogue holds the contributions with a non-null `startDate`, in order.
  Each entry has its speakers' `fullName`s and the `type == 'file'`
  attachments of all folders, in folder-then-attachment order. A result that
  raises `KeyError` is skipped; a `TypeError` escapes.

Modules, one per file:

| module | file | contents |
|---|---|---|
| `Wrappers` | wrappers.dfy | `Option`; `Result` with the two Python exceptions modelled as errors (`KeyError(key)`, `TypeError`); the `UnicodeEncodeError` of `__str__` is modelled as a missing line |
| `Text` | text.dfy | the substring test `in`, ASCII `lower()`, string ordering, `str(int)` |
| `Params` | params.dfy | pair lists: the stable case-insensitive sort, and the dictionary operations `in`, `get`, `pop` and item assignment |
| `Signer` | signer.dfy | the client, base-URL normalisation, `build_request` |
| `Query` | query.dfy | `get` before the fetch, and `get_event`'s keyword override |
| `Json` | json.dfy | the decoded JSON tree, with subscripting, iteration and `'{}'.format` |
| `Comprehension` | comprehension.dfy | the guarded list comprehension both filtered loops of the mapper share |
| `Events` | events.dfy | the event mapper, the `get_event` filter, and a worked example |

The clock, the HMAC and `urllib.urlencode` are parameters. `now` is the
integer clock reading. `Primitives.sign` and `Primitives.encode` are
arbitrary functions, so every property holds whatever digest and encoding
they compute.

The string `build_request` signs (pyndico.py:91) is `path?query`, built
from the `path` argument and the sorted list; the base URL is not part of
it. `SignedMessage` and `Emitted` model exactly that.

## Model

| member | source | states |
|---|---|---|
| Signer.NormalizeBaseUrl | pyndico.py:69-73 | the stored base URL is the argument unchanged exactly when it contains the substring `http`, otherwise `https://` + argument; either way the result contains `http` |
| Signer.NewClient | pyndico.py:62-77 | a client keeps the API key and secret key as given; its base URL is the argument exactly when the argument contains `http`, and `https://` + argument otherwise; either way it contains `http` |
| Signer.NormalizeBareHost | pyndico.py:70-71 | a host name with no letter `h` is stored with `https://` prefixed |
| Signer.NormalizeLateH | pyndico.py:64-71 | a host whose every `h` lies in its last three characters, such as the documented `indico.cern.ch`, is stored with `https://` prefixed |
| Signer.NormalizeHostContainingHttp | pyndico.py:70-73 | the test is a substring test, not a scheme check: `httpbin.org` is stored with no scheme |
| Signer.Extras | pyndico.py:83-89 | the appended pairs carry only the keys `apikey`, `onlypublic` and `timestamp`: `apikey` first when an API key is set and absent otherwise, `onlypublic=yes` exactly when requested, and the `timestamp` of `now` exactly when a secret is set and the request is not persistent, placed last |
| Signer.Unsigned | pyndico.py:82-89 | before sorting, the caller's params come first and unchanged, followed by at most three appended pairs |
| Signer.SignedItems | pyndico.py:90 | the signed list is sorted by lower-cased key, is a permutation of the unsigned list, and keeps the unsigned order among pairs with the same lower-cased key (Python's stable `sorted`); `Params.SortedByGroups` shows these facts determine the list |
| Signer.Emitted | pyndico.py:82-93 | without a secret the list is the unsigned list as built. With a secret it is the stably sorted unsigned list (`SignedItems`) plus one last pair `("signature", sign(secret, path + "?" + encode(sorted list)))`, one longer than the unsigned list. The list is empty exactly when there are no params, no API key, no `onlypublic` and no secret |
| Signer.BuildRequest | pyndico.py:94-96 | the result is the bare path exactly when no pair is emitted; otherwise it is `base_url + path + "?" + encode(emitted list)` |
| Signer.UnsignedLayout | pyndico.py:82-86 | without a secret the emitted list is the caller's params unchanged, then `apikey` if an API key is set, then `onlypublic=yes` if requested; no `signature` or `timestamp` pair is added |
| Signer.TimestampOnce | pyndico.py:87-90 | `timestamp` occurs one more time than in the params exactly when a secret is set and the request is not persistent, and sorting keeps it |
| Signer.SignatureOnce | pyndico.py:87-93 | with a secret, exactly one `signature` pair is added |
| Signer.SigningKeepsGroups | pyndico.py:82-93 | with a secret, the emitted list and signature depend on the params only through the order of pairs under each lower-cased key, and not on the base URL; params sharing a lower-cased key with an appended pair such as `timestamp` are covered |
| Signer.SigningIgnoresOrderAndBase | pyndico.py:90-93 | with a secret, and no two params whose keys differ only in letter case, reordering the params or changing the base URL leaves the emitted list and signature unchanged; the URL is unchanged when only the order differs |
| Signer.TimestampSeparatesSignedItems | pyndico.py:88-90 | two non-persistent signed requests at different clock readings sign different lists |
| Params.SortByKey | pyndico.py:90 | the result is sorted ascending by lower-cased key and is a permutation of the input |
| Params.SortStable | pyndico.py:90 | the sort is stable: pairs with equal lower-cased keys keep their input order |
| Params.SortOrderIndependent | pyndico.py:90 | when lower-cased keys determine pairs, two orderings of the same pairs sort to the same list |
| Params.SortedByGroups | pyndico.py:90 | two sorted lists with the same pairs in the same order under every lower-cased key are equal, so sortedness, permutation and stability pin down the sort's result |
| Params.SortGroupsIndependent | pyndico.py:90 | two lists with the same per-key order sort to the same list, however pairs with different keys are interleaved |
| Params.PermutationGroups | pyndico.py:90 | two orderings of the same pairs have the same per-key order when lower-cased keys determine the pairs |
| Params.WithSortKeyConcat | pyndico.py:83-90 | the pairs under a key in a concatenation are those of the first part, then those of the second |
| Params.SortedUnique | pyndico.py:90 | under that condition there is only one sorted arrangement of a multiset of pairs |
| Params.InsertSorted | pyndico.py:90 | inserting into a sorted list keeps it sorted |
| Params.InsertWithSortKey | pyndico.py:90 | the inserted pair goes ahead of the list's pairs with the same lower-cased key, which come later in the input, so the sort is stable |
| Params.CountKeyPermutation | pyndico.py:90 | reordering does not change how often a key occurs |
| Params.HasKey | pyndico.py:100-111 | `k in kwargs` holds exactly when some item has key `k` |
| Params.HasKeyPermutation | pyndico.py:100-111 | two orderings of the same items answer `k in kwargs` alike |
| Params.Lookup | pyndico.py:104-106 | the value `kwargs.pop(k)` returns is absent exactly when no pair has key `k`, and a found value is stored under `k` |
| Params.LookupIffMember | pyndico.py:104-106 | in a dictionary (distinct keys), a lookup returns `v` exactly when `(k, v)` is one of the items |
| Params.LookupPermutation | pyndico.py:109 | two orderings of the same dictionary answer every lookup alike |
| Params.RemoveKey | pyndico.py:104-106 | after `pop(k)` no pair has key `k`, every remaining pair was there before, and the list shrinks when `k` was present |
| Params.RemoveKeyLookup | pyndico.py:104-106 | after `pop(k)`, `k` is absent and every other key looks up as before |
| Params.RemoveKeyCount | pyndico.py:104-106 | `pop(k)` keeps every pair under another key as often as it occurred |
| Params.RemoveKeyDistinct | pyndico.py:104-109 | popping a key keeps the keys distinct |
| Params.Update | pyndico.py:122 | `params.update(qtype=...)` makes `qtype` look up to the new value and leaves every other key's lookup unchanged |
| Text.Lower | pyndico.py:90 | `lower()` keeps the length, turns each upper-case ASCII letter into its lower-case letter, keeps every other character, and leaves no upper-case ASCII letter |
| Text.LexLe | pyndico.py:90 | the string `<=` the sort compares keys with holds exactly when the first key is a prefix of the second, or the keys first differ at a position where the first has the smaller code point |
| Text.LexLeReflexive | pyndico.py:90 | the string order `<=` the sort compares keys with is reflexive |
| Text.LexLeTotal | pyndico.py:90 | any two keys are ordered one way or the other |
| Text.LexLeAntisymmetric | pyndico.py:90 | keys ordered both ways are equal |
| Text.LexLeTransitive | pyndico.py:90 | the key order is transitive |
| Text.LeadOnlyInShortTail | pyndico.py:70 | `sub in a + b` is false when the first character of `sub` is absent from `a` and `b` is shorter than `sub` |
| Text.AsciiConcat | pyndico.py:53-58 | a concatenation is ASCII exactly when both parts are |
| Text.Contains | pyndico.py:70 | Python's `'http' in url` holds exactly when `'http'` occurs at some position of the string |
| Text.NatToDecimal | pyndico.py:89 | `str(n)` of a natural number is a non-empty string of decimal digits with no leading zero; it starts with `0` exactly when `n` is 0 |
| Text.DecimalRoundTrip | pyndico.py:89 | reading back the digits `str(n)` writes gives `n` |
| Text.IntToDecimal | pyndico.py:89 | `str(n)` starts with `-` exactly when `n` is negative; the rest is a non-empty string of decimal digits with no leading zero that reads back as the absolute value of `n` |
| Text.IntToDecimalInjective | pyndico.py:89 | different clock readings give different `timestamp` values |
| Query.Get | pyndico.py:98-112 | a missing `qtype` fails with `KeyError('qtype')`, and a missing `qtype_id` fails with `KeyError('qtype_id')`; success exactly when both are given. The path is `/export/<qtype>/<qtype_id>.json`. The params lack `qtype` and `qtype_id`, keep a given `limit` or gain `limit=123`, pass every other key through unchanged, and keep keys distinct |
| Query.EventKwargs | pyndico.py:122 | `get_event` sets `qtype` to `event` and changes no other key |
| Query.EventQuery | pyndico.py:121-123 | an event query fails only, with `KeyError('qtype_id')`, when no `qtype_id` is given; otherwise its path is `/export/event/<qtype_id>.json` |
| Query.RequestUrl | pyndico.py:98-116 | the URL handed to the transport exists exactly when `qtype` and `qtype_id` are given, and fails with the same `KeyError` otherwise; it is the base URL, then `/export/<qtype>/<qtype_id>.json`, then `?` and the encoding of the emitted pairs, which include `limit` with the caller's value or `123` |
| Query.LimitSent | pyndico.py:111-116 | the emitted pairs of a built query carry `limit` with the caller's value, or `123` when the caller gave none |
| Query.DefaultLimitSent | pyndico.py:111-116 | without a caller `limit`, the emitted list carries `limit=123` |
| Query.PermutedKwargs | pyndico.py:99-109 | two orderings of one keyword dictionary fail alike or build the same path from the same remaining keywords |
| Query.KwargsOrderIrrelevant | pyndico.py:98-116 | for a signing client, the URL does not depend on the order of the keyword dictionary's items, provided no two URL parameters (keywords other than `qtype` and `qtype_id`) differ only in letter case; a `Limit` beside the injected `limit`, or a caller's `timestamp`, is allowed |
| Json.Index | pyndico.py:13-22 | `j[key]` succeeds exactly on an object holding the key; otherwise `KeyError(key)` on an object and `TypeError` on anything else |
| Json.Elements | pyndico.py:25 | `for x in j` yields a list's items, nothing from an empty object or string, and `TypeError` for the rest |
| Json.Show | pyndico.py:53-58 | `'{}'.format(j)` into a byte-string template writes an ASCII string as itself and `None` as `None`; it gives nothing for a non-ASCII string, where Python 2 raises `UnicodeEncodeError`, and for lists and objects |
| Comprehension.Collect | pyndico.py:23-26 | a failed comprehension reports the error of the first element it cannot get past: every earlier element passes, and that element's guard raised it or the guard kept the element and its mapping raised it |
| Comprehension.CollectSucceeds | pyndico.py:23-26 | the comprehension completes exactly when every element's guard answers and every kept element maps |
| Comprehension.CollectEntries | pyndico.py:23-26 | a completed comprehension has one result per kept element, the mapping of it, in order |
| Comprehension.CollectConcat | pyndico.py:36-44 | walking two lists one after the other is walking their concatenation |
| Comprehension.CollectSplit | pyndico.py:36-44 | a walk over a concatenation completes exactly when both halves do |
| Events.Speakers | pyndico.py:34 | speakers succeed exactly when every entry has `fullName`, and are those values, one per entry, in order; a failure is the error of the first entry without it (`KeyError('fullName')`, or `TypeError` for a non-object) |
| Events.FileGuard | pyndico.py:38 | the guard answers exactly when the entry has `type`, and is true exactly when `type` is `'file'`; it raises `KeyError('type')` on an object and `TypeError` on anything else |
| Events.AttachmentOf | pyndico.py:39-44 | a file entry's record succeeds exactly when the entry has `filename`, `title` and `download_url`, and carries those three values; otherwise it raises `KeyError` for the first of them, in that order, that is missing |
| Events.FileAttachments | pyndico.py:37-44 | one attachment list succeeds exactly when every entry has a `type` and every file entry has the three fields; the result holds one record per file entry, in order; a failure is the error of the first entry the loop cannot get past |
| Events.FolderAttachments | pyndico.py:35-44 | over all folders, the result is the file entries of every folder's attachments, flattened in folder-then-attachment order; a failure is raised by the first folder that does not pass, either on reading its `attachments` or at the first attachment entry that cannot be walked |
| Events.CatalogueEntry | pyndico.py:28-51 | `_catalogue_contribution` succeeds exactly when the start object has `time` and `tz`, the contribution has `title`, every speaker has `fullName` and the folders' attachments map; every error is a `TypeError` or a `KeyError` on a key it reads |
| Events.CatalogueEntryRaises | pyndico.py:28-44 | `_catalogue_contribution` completes exactly when each of its reads (`startDate`, `time`, `tz`, `title`, the speakers, the folders and their attachments) succeeds, and otherwise raises the error of the first read that fails |
| Events.CatalogueEntryFields | pyndico.py:28-51 | a catalogued contribution carries the start's `time` and `tz`, its `title`, the speakers' `fullName`s and the file attachments of all folders |
| Events.StartGuard | pyndico.py:26 | the guard answers exactly when the contribution has `startDate`, and is true exactly when it is not null |
| Events.Catalogue | pyndico.py:23-26 | the catalogue completes exactly when every contribution has `startDate` and every dated one catalogues; it holds one entry per dated contribution, in order; a failure is the error of the first contribution the comprehension cannot get past |
| Events.MapEvent | pyndico.py:12-26 | the mapping completes exactly when the result has `roomFullname`, `id`, `category`, `location`, `title` and `contributions`, the start object has `date`, `time` and `tz`, and the catalogue builds; a non-object result raises `TypeError`; every error is a `TypeError` or a `KeyError` naming a key the mapper reads |
| Events.MapEventRaises | pyndico.py:12-26 | `PyndicoEventResponse(result)` completes exactly when each of its reads succeeds, and otherwise raises the error of the first read, in source order, that fails |
| Events.MissingKeySkipped | pyndico.py:12-22 | when the first key `_set_attributes` cannot find in an object result is the n-th it reads, the mapping raises `KeyError` of that key, and `get_event` skips the result |
| Events.ContributionRaisesKeyError | pyndico.py:28-44 | on a contribution whose nested values are objects and lists where the code expects them, `_catalogue_contribution` can raise only `KeyError` |
| Events.CatalogueRaisesKeyError | pyndico.py:23-26 | on such contributions the catalogue comprehension can raise only `KeyError` |
| Events.ShapedResultSkipped | pyndico.py:12-26 | on a result whose nested values are objects and lists where the code expects them, the mapping can raise only `KeyError`, whichever keys are missing |
| Events.MapEventFields | pyndico.py:12-26 | a mapped event's attributes are the result's fields and the start object's `date`, `time` and `tz`; its catalogue holds the dated contributions, in order |
| Events.Summary | pyndico.py:52-58 | `str(event)` is `"<title>, <id>, <date>-<time>-<tz>"` exactly when each of the five values formats, and the line is ASCII |
| Events.SummaryOfResult | pyndico.py:52-58 | `str()` of a mapped result is built from the result's `title` and `id` and the start object's `date`, `time` and `tz`, and is absent when one of them does not format |
| Events.KeepEvents | pyndico.py:125-131 | the loop completes exactly when no result raises `TypeError`; it holds exactly the results that map, in order, and a `KeyError` result is skipped |
| Events.GetEvents | pyndico.py:121-131 | `get_event` completes exactly when `results` is present and iterable and no result raises `TypeError`; a missing `results` raises `KeyError`; the events are those of the mappable results, in order |
| Events.ShapedResponseCompletes | pyndico.py:121-131 | `get_event` completes on every response whose `results` are a list of such results |
| Events.SampleAttachments | pyndico.py:36-44 | of a file entry and a link entry, only the file becomes an attachment |
| Events.SampleCatalogue | pyndico.py:23-26 | of an undated and a dated contribution, only the dated one is catalogued |
| Events.SampleMapping | pyndico.py:12-26 | a whole sample result maps to the expected event record |
| Events.SampleSummary | pyndico.py:52-58 | a summary line with a null time zone ends in `None` |
| Events.SampleAccentedSummary | pyndico.py:52-58 | an event titled `Café` has no summary line, since Python 2 raises on it |

## Left out

- `urllib.urlopen` and `json.load` (pyndico.py:117-119) are network I/O and library decoding. `Query.RequestUrl` stops at the URL, and `Events.GetEvents` starts from the decoded tree.
- `time.time()` (pyndico.py:89) is the input `now`, already truncated to an integer.
- HMAC-SHA1 and `urllib.urlencode` (pyndico.py:91-92, 96) are foreign calls. They are the uninterpreted functions of `Signer.Primitives`, so percent-encoding and the digest are not modelled.
- The `print` of a malformed result (pyndico.py:130) is logging. Only the skip is modelled.
- `get_category` and `get_room` (pyndico.py:133-141) pass through raw JSON and are not modelled.
- `build_request` also accepts a list of pairs instead of a dictionary (pyndico.py:82). Both arrive here as an ordered list of pairs, the Python 2 dictionary's iteration order being an input.
- Query.RequestUrl: the injected `limit` is placed after the remaining keywords, which keep their input order. Python 2 yields the mutated dictionary's items (pyndico.py:112, 82) in hash order, so for a client without a secret the model fixes one of the possible URL orders. For a signing client the order does not matter (`Query.KwargsOrderIrrelevant`, `Signer.SigningKeepsGroups`).
- Query.Get: the `KeyError` for a missing `qtype` carries a help message in the source (pyndico.py:101-102); the model reports it as `KeyError("qtype")`.
- Query.Get: the default `limit` is the integer 123 in the source (pyndico.py:112) and the string `"123"` here, which is what the URL encoder writes.
- Keyword values are strings. A non-string `qtype` or `qtype_id` would raise `TypeError` when the path piece is concatenated (pyndico.py:105, 107), and that case is not modelled.
- `Text.Lower` lower-cases ASCII letters only, not the full Unicode mapping of Python's `lower()`.
- `Json.Json` has no numbers or booleans. The fields the mapper reads are strings, null, objects and lists.
- Json.Show: a list or object gives no text, where Python writes its `repr`; a non-ASCII string gives no text, where Python 2 raises `UnicodeEncodeError`.
- Events.Summary: a list or object field has no summary line, where Python prints its `repr`; and the `UnicodeEncodeError` of a non-ASCII field is reported as a missing line, not as that error.
- `Events.MapEvent` keeps neither the raw response nor the `start` and `contributions` attributes (pyndico.py:9, 16, 22), only the attributes derived from them.
- `Params.SortByKey` orders keys by code point after ASCII lower-casing, as Python 2 compares byte strings.
