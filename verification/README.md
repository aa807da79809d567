# Forpost relay plugin, modelled in Dafny

This is a Dafny model of the core of the AstrBot plugin *Forpost*. The plugin
watches a set of monitored QQ groups and relays what is posted there into a set
of target groups. It handles two kinds of message:

- **Forward bundles** (merged-forward messages). The plugin fingerprints each
  bundle as a `(title, button)` pair taken from its first and last leaf
  messages. A bundle whose fingerprint is already in the `forward_config`
  registry is skipped. Any other bundle is recorded and then relayed to every
  target group through `forward_group_single_msg`.
- **Ordinary messages.** The plugin cuts them down to their text, image and
  video components, downloads the media, and hands the result to the message
  sender. The sender keeps a ledger of the MD5 digests of files it has already
  sent (`sent_md5`) and skips a file whose digest it has seen before.

Around these sit four more pieces:

- the nested-forward flattener, which rebuilds a bundle as a node tree at most
  three levels deep;
- the media downloader's choice of file extension and its verdict on a finished
  transfer;
- the component filter;
- the daily cleaner, which runs at 01:00 UTC+8 and on even days empties the temp
  directory.

One module per source file:

| module | file | what it holds |
|---|---|---|
| `Text` | (helpers) | decimal digits, digit runs, search, split and join, Python's `strip`, ASCII lower-casing |
| `Py` | (helpers) | a JSON-like value for the loosely typed dicts; Python truthiness; `dict.get`, `d[k]` and `for` iteration; exceptions as `Result.Raise` |
| `LocalCache` | `local_cache.py` | the mixed comparator, CQ-code parsing, fingerprint extraction, the duplicate check, and `add_cache`/`remove_cache` on the registry map |
| `Sender` | `sender.py` | the digest ledger, session ids, and the per-group message chains of the four send functions |
| `ForwardManager` | `forward_manager.py` | `get_forward_msg` over a fetch oracle; `build_base_node`; the depth-capped `build_nested_nodes` |
| `Listen` | `listen.py` | `parse_message_components` as a filter that can raise |
| `Plugin` | `main.py` | routing in `on_message`; `is_forward_message`; text and media extraction; the download-then-send choice; skip-or-record for forwards |
| `Download` | `download.py` | extension inference, media dispatch, the Tencent url test, the result of `download_file` |
| `Cleaner` | `cleaner.py` | the even-day rule, the sleep until the next 01:00, and the truncate-or-remove decision per file |

Every operation is a pure function of its inputs:

- **State.** A registry or ledger operation returns the state it would save.
  Python exceptions that reach a caller are `Result.Raise` values. Exceptions a
  function catches become its documented fallback value (`False`, `""`).
- **Oracles.** The bot API fetch, the MD5 function, the per-item download result
  and the framework's acceptance of a send are all parameters.
- **Sends.** A send is recorded as a `(session id, chain)` pair. A relay is
  recorded as a `(message id, group)` pair.

The code behaves as follows where a reader might expect otherwise:

- `add_cache` returns `True` whenever it writes the cache file, even when the
  fingerprint is a duplicate and is not recorded. It does not report whether an
  entry was inserted.
- A stored fingerprint is not write-once. Recording an id again overwrites its
  entry whenever the new fingerprint is not a duplicate, and an empty
  fingerprint is never a duplicate.
- An empty file is not treated as missing. It has a digest, so it is checked
  and recorded in the ledger like any other file. Only a missing file is
  neither checked nor recorded.
- `_extract_message_text` on a component list joins the `text` components only.
  It does not look for a nested forward there.
- A raw message is treated as a CQ code only when it starts with `[CQ:`, and
  then only its first code counts. An image or video code yields just its
  `file` parameter; the text around it is discarded.
- There is no lock around check-then-record or around the ledger.

Properties worth noting, all proved:

- **Registry.** Once a bundle with a complete fingerprint is recorded, the same
  bundle arriving again under any id is skipped, and the registry stays as it is
  (`Plugin.SecondArrivalSkipped`).
- **Images.** A fresh image reaches only the first target group. Every later
  group's chain carries the text and only the images whose file is missing
  (`Sender.LaterGroupsGetOnlyMissingImages`).
- **Captions.** Text sent together with a video but no image is dropped, because
  the combined send hands an empty image list to `send_image_message`, which
  gives up at once (`Sender.TextWithoutImagesIsDropped`).
- **Cleaner.** The files the cleaner truncates are `temp/forward_config.json`
  and `temp/sent_md5.json`. The live registry and ledger are in `temp/shit`, a
  subdirectory the cleaner never enters, so they are never touched
  (`Cleaner.LiveFilesNeverTouched`).

## Model

| member | source | states |
|---|---|---|
| `Text.SameValueIffSameCanonicalForm` | local_cache.py:51-55 | Two digit strings have equal integer values exactly when they agree once leading zeros are removed. This is what lets the comparator be stated without `int()`. |
| `LocalCache.CompareValues` | local_cache.py:40-58 | Never true when either side is empty. Two all-digit strings match exactly when their canonical forms (equal integer values) agree. Any other pair matches only as identical non-empty strings. |
| `LocalCache.IsPureNumber` | local_cache.py:40-44 | A string is a pure number exactly when it is non-empty and keeping only its digits leaves it unchanged. |
| `LocalCache.CompareIsEquivalence` | local_cache.py:46-58 | The comparator is reflexive on non-empty strings, symmetric and transitive, so it partitions the non-empty strings. |
| `LocalCache.LeadingZeroIgnored` | local_cache.py:51-55 | Prefixing a zero to a digit string does not change what it matches: "07" equals "7". |
| `LocalCache.MixedTextComparedExactly` | local_cache.py:48-58 | "7a" does not match "7", and "" matches nothing. |
| `LocalCache.ExtractNumbers` | local_cache.py:91-101 | The joined `\d+` runs are exactly the digit characters of the input in their original order (the reference filter `Text.Digits`), and "" when there are none. |
| `LocalCache.NumbersIdempotent` | local_cache.py:91-101 | The extracted numbers are all digits, and extracting again gives the same string. |
| `LocalCache.ForwardTitle` | local_cache.py:159-162 | A forward's title is the sentinel "草" followed by the content's digits. Its first character is always the sentinel, with or without digits. |
| `LocalCache.SplitCqBody` | local_cache.py:141-149 | The type has no comma. When the inside has a comma, type, comma and parameter text rebuild it exactly. Otherwise the parameter text is empty. |
| `LocalCache.ParseParams` | local_cache.py:152-156 | Every key of the parameter dict is set by some `key=value` item. |
| `LocalCache.LastItemWins` | local_cache.py:152-156 | A key is in the parameter dict exactly when some item `key=...` sets it. Its value is the text after the first `=` of the last such item. |
| `LocalCache.ParseCq` | local_cache.py:135-149 | A raw message has no CQ parse exactly when it does not start with `[CQ:` or has no `]`. |
| `LocalCache.ParseCqOfCode` | local_cache.py:137-156 | For `[CQ:body]rest` with no `]` in the body, the parse is the split body, the parameters of its items, and exactly `rest`. |
| `LocalCache.FormatCqRoundTrip` | local_cache.py:135-156 | Formatting a type and comma-free items as a CQ code before some text, then parsing it, gives back the type, the parameter dict of the items, and the text. |
| `LocalCache.ExtractRawMessageContent` | local_cache.py:129-175 | A non-string or empty value gives "". Text that is not a complete CQ code comes back unchanged. A forward gives the sentinel and the digits of its `content`. An image or video gives its `file`. A reply gives the stripped text after the code. Any other type gives the raw text. |
| `LocalCache.ReplyKeepsTrailingText` | local_cache.py:166-169 | A reply code followed by text padded with whitespace yields the text without the padding or the code. |
| `LocalCache.ForwardCodeTitle` | local_cache.py:158-162 | A formatted forward code yields the sentinel and the digits of its last `content=` item, or the sentinel alone when there is none. |
| `LocalCache.ComponentText` | local_cache.py:119-122 | Reading a text component succeeds exactly when its data is a dict whose `text` (default "") is a string, and then the result is that string. |
| `LocalCache.JoinTexts` | local_cache.py:116-123 | The join fails exactly when some `text` component has unreadable text. Components that are not `text` contribute nothing. |
| `LocalCache.JoinTextsAppend` | local_cache.py:118-122 | The joined text of `a + b` is the joined text of `a` followed by that of `b`. |
| `LocalCache.JoinTextsOne` | local_cache.py:119-122 | A single text component joins to its own text, with the same failure. Any other single component joins to "". |
| `LocalCache.ExtractMessageText` | local_cache.py:103-127 | A non-dict gives "". A truthy `raw_message` wins. Otherwise a list `message` gives the join of its `text` components, a string is returned as is, and anything else gives "". Only the list case can raise. |
| `LocalCache.FirstForward` | local_cache.py:65-68 | The position of the first forward component, with none before it, or none exactly when no component is a forward. |
| `LocalCache.ExtractContentInfo` | local_cache.py:60-89 | Without a message list or a forward component, both fields are empty. A string content gives the sentinel title with its digits and an empty button. Any other content except a non-empty list gives both empty. A non-empty button only comes from a non-empty leaf list. |
| `LocalCache.FingerprintFromEnds` | local_cache.py:77-86 | For a non-empty leaf list, the title is the text of the first leaf and the button is the text of the last. Extraction fails exactly when one of the two fails. |
| `LocalCache.EmptyEntriesNeverMatch` | local_cache.py:207-224 | A duplicate is always witnessed by a stored entry with two non-empty fields. |
| `LocalCache.IsDuplicateInConfig` | local_cache.py:207-224 | The scan returns true exactly when the candidate has two non-empty fields and some stored entry matches both under the comparator. |
| `LocalCache.IsDuplicateForward` | local_cache.py:226-247 | True exactly when extraction succeeds and the fingerprint is a duplicate. An extraction error counts as "not a duplicate", and so does an empty field. |
| `LocalCache.AddCache` | local_cache.py:177-205 | The call fails only when extraction raises. Only the key `str(msg_id)` can change, and then only to the extracted fingerprint. The map stays as it was exactly when there is no data, extraction raised, the fingerprint is a duplicate, or the same entry is already there. |
| `LocalCache.RemoveCache` | local_cache.py:282-297 | Only with the cache file present: that one key is gone and every other entry is kept. With no file, nothing changes and the call fails. |
| `LocalCache.RecordedIsDuplicate` | local_cache.py:189-200 | After a complete fingerprint is recorded, the same bundle is a duplicate, and recording it again under any id leaves the map unchanged. |
| `LocalCache.EmptyFingerprintAlwaysRecorded` | local_cache.py:189-210 | A fingerprint with an empty field is never a duplicate, and it always overwrites its id's entry. |
| `Sender.SessionId` | sender.py:43-44 | The session is the fixed prefix followed by the group number in decimal. |
| `Sender.SessionIdsDistinct` | sender.py:43-44 | Different groups get different sessions. |
| `Sender.CalcMd5` | sender.py:56-63 | "" exactly for a missing file. Any existing file, including an empty one, gets the digest of its bytes. |
| `Sender.IsDuplicate` | sender.py:65-74 | The ledger only grows. A missing file is neither a duplicate nor recorded. An existing file's digest ends up in the ledger. The file is a duplicate exactly when its digest was already there. |
| `Sender.SecondSightIsDuplicate` | sender.py:65-74 | The same bytes seen under two paths make the second sight a duplicate. Two new, different digests are both new and both recorded. |
| `Sender.Broadcast` | sender.py:80-82 | One send per target group, in the groups' order, each carrying the same chain. |
| `Sender.SendTextMessage` | sender.py:76-85 | Empty text sends nothing and fails. Otherwise every group gets the text, and the result is true exactly when every send was accepted. The ledger is untouched. |
| `Sender.AttachImages` | sender.py:95-98 | The ledger gains exactly the digests of the existing images. The chain holds at most one part per path, and only image parts of the given paths. |
| `Sender.AttachImagesAppend` | sender.py:95-98 | The parts for `a + b` are the parts for `a`, then the parts for `b` checked against the ledger `a` left behind. The final ledger is the one after `b`. |
| `Sender.AttachImagesOne` | sender.py:95-98 | A single image becomes a part exactly when its file is missing or its digest is not yet in the ledger. |
| `Sender.KnownImagesSkipped` | sender.py:95-98 | Once every existing image's digest is known, only the images whose file is missing are attached, and the ledger is unchanged. |
| `Sender.FreshImagesAttached` | sender.py:95-98 | Existing images with new, pairwise different digests are all attached, in order. |
| `Sender.ImageRounds` | sender.py:90-102 | One send per group to that group's session. The result is true exactly when all sends are accepted. The ledger gains the image digests once any group exists. |
| `Sender.SendImageMessage` | sender.py:87-102 | An empty path list sends nothing and fails. Otherwise there is one send per group. The ledger never shrinks. |
| `Sender.LaterGroupsGetOnlyMissingImages` | sender.py:90-98 | The first group gets the text and the non-duplicate images. Every later group gets the text and only the images whose file is missing. |
| `Sender.FreshImageReachesFirstGroupOnly` | sender.py:87-102 | One new image sent with text: the first group's chain is the text and the image, each later group's chain is the text alone, and the ledger gains exactly that digest. |
| `Sender.KnownRounds` | sender.py:90-98 | With every digest already known, every group's chain is the text followed by the missing images. |
| `Sender.SendVideoMessage` | sender.py:104-121 | No path fails. A duplicate video succeeds with nothing sent, since the check runs once before the group loop. Otherwise every group gets the video, and the ledger records it. |
| `Sender.SendCombinedMessage` | sender.py:123-131 | The ledger never shrinks. With nothing to send, the call succeeds and sends nothing. Images without a video are exactly the image send. A lone video is exactly the video send. Images and a video give the image sends, then the video sends (on the ledger the images left), succeed exactly when both do, and end with the ledger the video send leaves. |
| `Sender.TextWithoutImagesIsDropped` | sender.py:123-131 | Text with no images fails and never goes out: only the video's sends (if any) happen, and no chain carries a text part. |
| `ForwardManager.GetForwardMsg` | forward_manager.py:10-17 | A truthy id is fetched as given. A falsy id is replaced by the event's own message id. |
| `ForwardManager.ZeroIdFallsBack` | forward_manager.py:14 | Id 0 and id "" both fetch the event's own message. |
| `ForwardManager.Title` | forward_manager.py:58 | The title starts with the fixed prefix, followed by the decimal digits of the one-based level. |
| `ForwardManager.TitlesDistinct` | forward_manager.py:58 | Different levels get different titles. |
| `ForwardManager.BuildBaseNode` | forward_manager.py:28-38 | Succeeds exactly when the four lookups exist (`user_id`, `raw_message`, `time`, `sender.nickname`). The node then carries `str(user_id)`, the raw message, the time and the nickname. |
| `ForwardManager.FirstMessage` | forward_manager.py:45 | `messages[0]` succeeds exactly on a dict with a non-empty `messages` list, and gives its first element. |
| `ForwardManager.Iteration` | forward_manager.py:50 | A list is iterated as is. Strings and dicts yield strings. Anything else is not iterable. |
| `ForwardManager.BuildNestedNodes` | forward_manager.py:40-62 | At or past depth 3, the cut-off text node, without fetching. Any success has the level-titled shape. Below the cap, success requires a first message with a `type`. A non-forward first message gives exactly the base node. |
| `ForwardManager.BuildAll` | forward_manager.py:49-52 | Succeeds exactly when every child builds. The children keep the fetched order and count, and each is the child built one level down. |
| `ForwardManager.ShapedIsBounded` | forward_manager.py:42-52 | A tree of the result shape at depth d nests forwards at most 3 − d deep. |
| `ForwardManager.NestingBounded` | forward_manager.py:40-62 | Every successful build from depth d nests forwards at most 3 − d deep. |
| `ForwardManager.ForwardFollowed` | forward_manager.py:45-60 | A forward first message is followed through the fetch. The result is a forward node titled with its level, whose children are the fetched messages built one level down, in order. |
| `ForwardManager.LastLevelCutsOff` | forward_manager.py:42-52 | At level 2 a forward's children are all cut-off nodes, one per fetched message. |
| `ForwardManager.OnlyFirstMessageDecides` | forward_manager.py:45-47 | Two messages with the same forward first message are rebuilt identically. |
| `ForwardManager.EmptyBundleRaises` | forward_manager.py:45 | Below the cap, a message without a non-empty `messages` list raises. |
| `Listen.Visit` | listen.py:12-30 | A component raises exactly when it is not a dict, or its type is not a string, or its data is not a dict. Otherwise it is kept exactly when its lower-cased type is plain, text, image or video. |
| `Listen.Filter` | listen.py:4-32 | Succeeds exactly when every component is handled. The output is no longer than the input. Every output item is an unchanged input component that is kept, and every kept input component is in the output. |
| `Listen.FilterIsKeptOnly` | listen.py:12-32 | On a list of handled components the filter succeeds with exactly the kept components, in order and with every occurrence. |
| `Listen.FilterAppend` | listen.py:12-32 | When both halves filter, the filter of `a + b` is the filter of `a` followed by the filter of `b`. |
| `Listen.FilterOne` | listen.py:12-30 | A single component raises when it is not handled. Otherwise it is kept unchanged when its lower-cased type is plain, text, image or video, and dropped if not. |
| `Listen.ParseMessageComponents` | listen.py:4-12 | A list is filtered. An empty string or dict yields nothing. |
| `Listen.FilterKeepsOrder` | listen.py:12-26 | The output is a subsequence of the input. |
| `Listen.FilterIdempotent` | listen.py:19-30 | Filtering the output again gives the same output. |
| `Listen.OtherTypesDropped` | listen.py:13-30 | `record`, `forward` and a missing type (read as "unknown") are handled but dropped. |
| `Listen.UpperCaseTypesKept` | listen.py:13-26 | A component typed "Image" is kept as is. |
| `Plugin.AnyForward` | main.py:149-152 | Over dict components, the scan returns true exactly when some component has type forward. It raises only when some component is not a dict, and true always has a witness. |
| `Plugin.IsForwardMessage` | main.py:144-152 | False without a `message` key. Over a list, it is the component scan. |
| `Plugin.ForwardFoundAnywhere` | main.py:149-151 | A forward is found after any number of non-forward dict components, whatever follows it. |
| `Plugin.AcceptsGroup` | main.py:161-167 | An event without a group is never accepted. A listed group is always accepted. An unlisted group is accepted exactly when the monitor list is empty. |
| `Plugin.MonitorListOnlyWidens` | main.py:161-167 | Adding groups to a non-empty monitor list never drops an accepted group, and an empty list accepts every group id there is. |
| `Plugin.OnMessage` | main.py:156-188 | Ignored exactly when the group filter rejects (no group, or a non-empty list without the group). A fetched message goes to the forward path exactly when it holds a forward, and to the ordinary path exactly when it does not. |
| `Plugin.TextValues` | main.py:56-62 | At most one text per component, and every collected text is truthy. |
| `Plugin.TextValuesSound` | main.py:56-62 | Every collected text is the text of some `text` component. |
| `Plugin.TextValuesComplete` | main.py:56-62 | No truthy text of a `text` component is missed. |
| `Plugin.TextValuesAppend` | main.py:55-62 | The texts of `a + b` are the texts of `a` followed by those of `b`, so the joined text keeps the components' order and every repeated text. |
| `Plugin.TextValuesOne` | main.py:56-62 | A single component contributes its text exactly when it is a `text` component whose text is truthy, and nothing otherwise. |
| `Plugin.MediaFiles` | main.py:63-70 | At most one entry per component, each an image, video or voice item with a truthy url. |
| `Plugin.MediaFilesSound` | main.py:63-70 | Every media entry is the entry of some component. |
| `Plugin.MediaFilesComplete` | main.py:63-70 | No image, video or voice component with a truthy url is missed. |
| `Plugin.MediaFilesAppend` | main.py:55-70 | The media of `a + b` are the media of `a` followed by those of `b`, so downloads follow the components' order, one per occurrence. |
| `Plugin.MediaFilesOne` | main.py:63-70 | A single component is collected, as its type, url and data, exactly when it is an image, video or voice component with a truthy url. |
| `Plugin.JoinLines` | main.py:72 | The join succeeds exactly when every text is a string, and is then the newline join of those strings. |
| `Plugin.ProcessOrdinaryMessage` | main.py:39-74 | Nothing without a `message` key. Otherwise it succeeds exactly when filtering and joining succeed. The entry holds the filtered components, their joined text and their media, and is neither processed nor a forward. |
| `Plugin.NoVoiceMedia` | main.py:63-70 | After the filter, no voice item reaches the media list: only images and videos do. |
| `Plugin.JoinedTextEmpty` | main.py:72 | The newline join of non-empty texts is empty exactly when there are none. |
| `Plugin.TextLinesRoundTrip` | main.py:72 | Texts without line breaks come back from the joined text by splitting at newlines. |
| `Plugin.ImagePaths` | main.py:91-97 | Only non-empty download results are kept, and every successful image download is among them. |
| `Plugin.ImagePathsAppend` | main.py:91-97 | The image paths of `a + b` are those of `a` followed by those of `b`: media order is kept, and every downloaded image counts once per occurrence. |
| `Plugin.ImagePathsOne` | main.py:91-97 | A single media item adds its download result exactly when it is an image that downloaded. A video's or voice record's path never becomes an image. |
| `Plugin.NoDownloadsNoImages` | main.py:91-97 | With every download failed, there are no image paths. |
| `Plugin.FirstVideo` | main.py:98-100 | The first video whose download succeeded, with none before it, or none when no video downloaded. |
| `Plugin.Choose` | main.py:91-117 | There is always a sender call. When a video downloaded, the call is combined and carries the first video that downloaded. Without one, it is combined (with the text, the image paths and no video) exactly when an image downloaded, and otherwise it is the text alone. |
| `Plugin.DownloadAndForward` | main.py:76-119 | An unknown id or a forward does nothing. Otherwise the entry becomes processed, the sender is called exactly when there is text or media, and the call is the choice over the downloads. |
| `Plugin.Deliver` | main.py:105-117 | The ledger never shrinks, and no call means no send. A text-only call sends the text to every group, in order, without touching the ledger, and fails on empty text. A call with images and no video makes one send per group, in group order, and records the digests of the existing images. Either succeeds exactly when every send is delivered. |
| `Plugin.TextOnlyMessageReachesEveryGroup` | main.py:103-117 | A message with text and no media is delivered as one `[text]` chain per target group, in order, and the send ledger is untouched. |
| `Plugin.TextAndFreshImageDelivered` | main.py:89-117 | A message with text and one image that downloads to a new file: the first group gets `[text, image]`, every later group gets `[text]`, and the image's digest is recorded. |
| `Plugin.FailedDownloadsLeaveText` | main.py:91-119 | When every download fails, the call is the text alone and the entry is marked processed. Without text, nothing is sent. |
| `Plugin.ProcessForwardMessage` | main.py:121-142 | A duplicate changes nothing and relays nothing. Otherwise the bundle is recorded as `add_cache` does and relayed once to each target group, in list order. |
| `Plugin.SecondArrivalSkipped` | main.py:121-142 | A new bundle with a complete fingerprint is relayed to every target. The same bundle arriving again under any id relays nothing and leaves the registry unchanged. |
| `Download.IsTencentMultimediaUrl` | download.py:18-22 | The url test holds exactly when the url mentions the `.com` host. The `.com.cn` alternative and the emptiness test add nothing. |
| `Download.InferExtension` | download.py:103-123 | The extension is the default or an allowed type. Without a dot in the last `/` segment it is the default. With one, it is the lower-cased text after the url's last dot, cut at the first `?`, when that text is an allowed type; otherwise it is the default. |
| `Download.ExtensionOfFileName` | download.py:106-110 | A url naming `name.ext`, with or without a query, yields `ext` when `ext` is an allowed lower-case type. |
| `Download.MediaExtension` | download.py:103-128 | Images take the extension inferred from the url with default jpg, and videos the one with default mp4; a url whose last segment has no dot gets the default. Images always get an image type and videos a video type. Voice records get mp3. |
| `Download.MediaExtensionOfFileName` | download.py:103-123 | An image or video url naming `name.ext` of an allowed lower-case type of that kind, with or without a query, gets `ext`. |
| `Download.DownloadFile` | download.py:24-101 | A path exactly when the url is non-empty, the transfer completed, and the file exists with a positive size. The path is in the temp directory, named after the random name and the type. |
| `Download.SizeMismatchStillReturned` | download.py:75-82 | A file whose size differs from the reported count is still returned. |
| `Download.PathEndsInExtension` | download.py:33-34 | The returned path ends in the chosen extension. |
| `Download.DownloadMedia` | download.py:130-153 | A path exactly when the type is image, video or record, the url is a non-empty string, and the transfer produced a non-empty file. The path carries that type's extension. |
| `Cleaner.IsEvenDayTail` | cleaner.py:15-20 | The last-digit test holds exactly on even days of the month. |
| `Cleaner.SleepSeconds` | cleaner.py:39-50 | The sleep is positive and at most a day. It ends exactly at 01:00 UTC+8, and no earlier instant after now is 01:00. |
| `Cleaner.DailyAfterFirstRun` | cleaner.py:39-50 | Woken at 01:00, the loop sleeps exactly one day. |
| `Cleaner.ClearEntries` | cleaner.py:27-35 | Only the files listed are acted on, never directories. A file is truncated exactly when it is one of the two protected paths. Every listed file gets its action. |
| `Cleaner.ClearTempFiles` | cleaner.py:22-35 | No action when the directory is missing. Otherwise the actions over the listing. |
| `Cleaner.Tick` | cleaner.py:52-57 | Clean only on even-tailed days. |
| `Cleaner.SubdirectoryUntouched` | cleaner.py:27-29 | Joining a listed name to the directory never gives a path inside a subdirectory. |
| `Cleaner.LiveFilesNeverTouched` | cleaner.py:9-35 | With the plugin's temp directory, no tick ever acts on the registry or the ledger in `temp/shit`. |

## Left out

- File and JSON I/O is not modelled: `aiofiles`, `open`, `json.load` and `json.dump`, `os.makedirs`, `os.remove`, `os.listdir`. It is replaced by state passing, so the registry or ledger after an operation is the one saved. Failed saves are only logged in the source.
- The per-message cache files are not modelled. Neither are `get_waiting_messages` and `get_message_data`, which only read them back.
- The MD5 algorithm is not modelled: `Sender.CalcMd5` takes the digest function as a parameter.
- HTTP (`requests`, `asyncio.to_thread`), `uuid4` and the bot API are not modelled; they are foreign calls.
  - The transfer outcome and the file name are parameters of `Download.DownloadFile`.
  - `get_forward_msg` is the `fetch` parameter.
  - `get_msg` is the `fetched` parameter of `Plugin.OnMessage`.
  - The framework's acceptance of a send is the `delivered` parameter.
  - `forward_group_single_msg` is an emitted `Relay`; the per-group `try` makes one failed relay harmless to the others.
- Plugin.DownloadAndForward: the per-item download is a parameter rather than `Download.DownloadMedia` itself, because the HTTP outcome behind it is an oracle anyway.
- `asyncio` tasks, pacing sleeps and logging are not modelled. Neither is the adapter check at the top of `on_message`, which is a framework type test.
- The real clock is not modelled: time is whole seconds since the epoch, sub-second parts are ignored, and the day of the month is a parameter of `Cleaner.Tick`.
- Unicode behaviour of `str.isdigit`, `int` and `str.lower` is not modelled; digits and lower-casing are ASCII. `str.strip` uses Python's exact whitespace set.
- Target groups are plain integers: the `int(gid)` conversion and its `ValueError` are not modelled.
- Plugin.ProcessOrdinaryMessage: when the text join raises, the source leaves a partially filled `message_cache` entry behind; the model reports only the raise.
- ForwardManager.Iteration: iterating a dict yields its keys in insertion order; the model yields placeholder strings, since a string child is cut off or raises whatever its text.
- Download.IsTencentMultimediaUrl: it is stated as a boolean, while the source returns the truthy value of its `and`/`or` expression; the function has no caller.
- LocalCache.ExtractRawMessageContent: the unused `is_title` argument is dropped.
- Py.ScalarToString: it gives `str()` of numbers, booleans and `None`; containers (never a `user_id` in practice) get "" instead of their repr.
- No locking exists in the source, so no mutual exclusion or race is modelled.
