# armlib in Dafny

A verified model of the core of armlib, the Epimorphics library for
asynchronous report requests. A client submits a *batch request*: a URI plus
a multimap of parameters. The library derives a short key from the request,
queues the request, lets workers claim, finish, fail or abort it, and keeps
finished results in a cache. The request manager answers status queries from
the cache first and from the queue otherwise. For pending requests it also
reports a position in the queue and an ETA.

The model follows the Java classes one module at a time.

- `java_strings.dfy` (`JavaStrings`) holds the Java library behaviour the
  core relies on:
  - `String.compareTo` order and `Collections.sort`;
  - `String.replace`;
  - `String.split`, with trailing empty fields dropped;
  - joining with a separator;
  - UTF-8 encoding;
  - `Integer.toHexString`.
- `requests.dfy` (`Requests`) models `BatchRequest`:
  - the multimap, as a sequence of `Binding(name, values)` with distinct
    names, in key-set order;
  - the parameter string and its decoding;
  - the readable key, with `%2F` escaping and the final `_` stripped;
  - the MD5 fallback and its hex encoding;
  - `setKey` validation;
  - memoisation of `getKey`.
- `status.dfy` (`Status`) models `BatchStatus`: the
  five flags, a value view `StatusRecord` of the mutable class, the setters
  and the field-inclusion rules of `asJson`.
- `queue_entry.dfy` (`QueueEntries`) models `QueueEntry`.
- `mem_queue.dfy` (`MemQueue`) models `MemQueueManager`. It is a class whose
  `queue`, `completed` and `index` fields are updated in place. Its `Valid()`
  invariant holds on every operation:
  - each queue entry is `index[its key]`;
  - queue keys are distinct;
  - queue entries are Pending or InProgress.
- `file_cache.dfy` (`FileCache`) models `FileCacheManager` and the suffix rules
  of `BaseCacheManager`. The file system is a `map<string, seq<byte>>` from
  path to contents.
- `standard_request_manager.dfy` (`StandardManager`) models
  `StandardRequestManager`, composed from the two concrete managers above:
  - the cache-first fast path;
  - the Completed-but-lost rewrite, to resubmit or to Unknown;
  - the position and ETA loop of `getFullStatus`.
- `dyn_entries.dfy` (`DynEntries`) models the DynamoDB records `DynQueueEntry`
  and `DynCompletedEntry`: their conversions and field copies.
- `media_types.dfy` (`MediaTypes`) models the extension-to-media-type table.
- `wrappers.dfy` (`Wrappers`) holds `Option` and `Result`.

The environment is passed in as parameters:

- The clock (`System.currentTimeMillis()`) is a parameter `now`.
- MD5 is a parameter `md5` of type `Md5`: any function that returns 16 bytes.
  It is stored in the request, as `getKey` obtains it.
- Java exceptions become `Option`/`Result` results or a `false` flag.

All paths below are relative to the repository root.

Three Java methods have no row of their own, because their contracts would
only repeat their bodies:
- `QueueEntry.isFinished` is `QueueEntries.QueueEntry.IsFinished`. The
  `QueueHoldsNoFinished` row states what it is used for.
- `getStatus` of `DynQueueEntry` and `DynCompletedEntry` is
  `StatusFromString` applied to the stored status string. These are
  `DynEntries.DynQueueEntry.GetStatus` and
  `DynEntries.DynCompletedEntry.GetStatus`, and the `StatusFromString` row
  states their behaviour.

## Model

| member | source | states |
|---|---|---|
| JavaStrings.LessEqTotal | src/main/java/com/epimorphics/armlib/BatchRequest.java:194-198 | the string order used by `sorted` compares any two strings |
| JavaStrings.LessEqAntisymmetric | src/main/java/com/epimorphics/armlib/BatchRequest.java:194-198 | two strings each at most the other are equal |
| JavaStrings.LessEqTransitive | src/main/java/com/epimorphics/armlib/BatchRequest.java:194-198 | the string order is transitive |
| JavaStrings.Insert | src/main/java/com/epimorphics/armlib/BatchRequest.java:194-198 | inserting into a sorted list gives a sorted permutation of the list plus the new element |
| JavaStrings.Sort | src/main/java/com/epimorphics/armlib/BatchRequest.java:194-198 | `sorted` returns a sorted permutation of its input |
| JavaStrings.SortedUnique | src/main/java/com/epimorphics/armlib/BatchRequest.java:194-198 | two sorted lists with the same elements (as a multiset) are equal |
| JavaStrings.SortDeterminedByMultiset | src/main/java/com/epimorphics/armlib/BatchRequest.java:194-198 | sorting depends only on the multiset of elements, not their order |
| JavaStrings.DistinctSameElements | src/main/java/com/epimorphics/armlib/BatchRequest.java:146 | two duplicate-free lists with the same members are permutations of each other (key sets) |
| JavaStrings.Replace | src/main/java/com/epimorphics/armlib/BatchRequest.java:156 | replacing `c` by a text without `c` leaves no `c` |
| JavaStrings.ReplaceAppend | src/main/java/com/epimorphics/armlib/BatchRequest.java:156 | replacement distributes over concatenation |
| JavaStrings.FieldsWithoutSeparator | src/main/java/com/epimorphics/armlib/BatchRequest.java:97-98 | a string without the separator splits into itself |
| JavaStrings.FieldsConcat | src/main/java/com/epimorphics/armlib/BatchRequest.java:97-98 | splitting `a + c + b` at `c` gives the fields of `a` followed by those of `b` |
| JavaStrings.JoinSnoc | src/main/java/com/epimorphics/armlib/BatchRequest.java:85-89 | appending an item adds the separator only after a first item |
| JavaStrings.FieldsOfJoin | src/main/java/com/epimorphics/armlib/BatchRequest.java:97-98 | joined items free of the separator split back into the same items |
| JavaStrings.SplitOfJoin | src/main/java/com/epimorphics/armlib/BatchRequest.java:97-98 | with non-empty items, `String.split` (trailing empties dropped) inverts the join |
| JavaStrings.HexDigit | src/main/java/com/epimorphics/armlib/BatchRequest.java:172 | every digit is a lower-case hex digit |
| JavaStrings.PaddedByteValue | src/main/java/com/epimorphics/armlib/BatchRequest.java:172 | `(b & 0xFF) \| 0x100` is the unsigned byte plus 256 |
| JavaStrings.PaddedByteHex | src/main/java/com/epimorphics/armlib/BatchRequest.java:172 | its hex string has three digits, the first `1`, and characters 1 to 3 are the byte's two nibbles, high first |
| JavaStrings.Utf16Length | src/main/java/com/epimorphics/armlib/BatchRequest.java:131 | `String.length()` counts UTF-16 code units: at least one and at most two per character |
| JavaStrings.Utf16LengthBmp | src/main/java/com/epimorphics/armlib/BatchRequest.java:131 | the code units equal the characters exactly when every character lies in the Basic Multilingual Plane |
| JavaStrings.Utf16LengthSupplementary | src/main/java/com/epimorphics/armlib/BatchRequest.java:131 | characters outside the Basic Multilingual Plane count twice |
| Requests.Names | src/main/java/com/epimorphics/armlib/BatchRequest.java:83 | the key set lists each binding's name, in order |
| Requests.NamesDistinct | src/main/java/com/epimorphics/armlib/BatchRequest.java:83 | a multimap's key set has no duplicates |
| Requests.AddNames | src/main/java/com/epimorphics/armlib/BatchRequest.java:101-103 | `add` appends a name only when it is new |
| Requests.AddGet | src/main/java/com/epimorphics/armlib/BatchRequest.java:101-103 | `add` appends the value to that name's list and leaves every other name's list alone |
| Requests.AddKeepsDistinct | src/main/java/com/epimorphics/armlib/BatchRequest.java:101-103 | `add` keeps names distinct |
| Requests.PairStrings | src/main/java/com/epimorphics/armlib/BatchRequest.java:84-88 | one `name=value` item per value, in order |
| Requests.SplitPair | src/main/java/com/epimorphics/armlib/BatchRequest.java:98-99 | splitting `name=value` at `=` gives name and value, or only the name when the value is empty |
| Requests.DecodedDistinct | src/main/java/com/epimorphics/armlib/BatchRequest.java:95-107 | a decoded multimap names each parameter once |
| Requests.DecodePrefixFailure | src/main/java/com/epimorphics/armlib/BatchRequest.java:97-99 | decoding stops at the first binding that has no name part |
| Requests.DecodeAllPairs | src/main/java/com/epimorphics/armlib/BatchRequest.java:95-107 | decoding the `name=value` items of an encodable multimap rebuilds it exactly |
| Requests.EncodedSplitsIntoPairs | src/main/java/com/epimorphics/armlib/BatchRequest.java:80-97 | splitting the parameter string at `&` gives back its `name=value` items |
| Requests.DecodeEncoded | src/main/java/com/epimorphics/armlib/BatchRequest.java:80-107 | `decodeParameterString(getParameterString())` is the original multimap when names are non-empty, every name has a value, and no name or value holds `&` or `=` |
| Requests.DecodeEmptyString | src/main/java/com/epimorphics/armlib/BatchRequest.java:95-107 | the empty multimap encodes to "" and "" decodes to one empty name with an empty value, so the round trip needs a non-empty multimap |
| Requests.KeyText | src/main/java/com/epimorphics/armlib/BatchRequest.java:143-153 | the key text before escaping is non-empty and ends with `_` |
| Requests.ReplaceKeepsLength | src/main/java/com/epimorphics/armlib/BatchRequest.java:156 | escaping `/` as `%2F` never shortens the key |
| Requests.ReadableKeyStripsFinalUnderscore | src/main/java/com/epimorphics/armlib/BatchRequest.java:143-157 | the readable key is the key text without its final `_`, then escaped |
| Requests.HexByte | src/main/java/com/epimorphics/armlib/BatchRequest.java:171-173 | two hex digits per byte: the high nibble, then the low |
| Requests.Hex | src/main/java/com/epimorphics/armlib/BatchRequest.java:169-174 | the hex form has two characters per digest byte |
| Requests.HexDigits | src/main/java/com/epimorphics/armlib/BatchRequest.java:171-173 | characters `2i` and `2i+1` are byte `i`'s high and low nibble |
| Requests.HexIsLowerCase | src/main/java/com/epimorphics/armlib/BatchRequest.java:171-173 | the hex form is made of lower-case hex digits only |
| Requests.ComputeKeyShape | src/main/java/com/epimorphics/armlib/BatchRequest.java:155-178 | a computed key is at most 200 UTF-16 code units long and has no `/`; it is the readable key when that fits, otherwise the 32-character hex digest |
| Requests.SupplementaryKeyTooLong | src/main/java/com/epimorphics/armlib/BatchRequest.java:131-133 | `setKey` rejects 101 characters outside the Basic Multilingual Plane, which are 202 code units |
| Requests.SameMultimapSorted | src/main/java/com/epimorphics/armlib/BatchRequest.java:194-198 | multimaps with the same names and the same value multisets have equal sorted names and equal sorted value lists |
| Requests.KeyIgnoresInsertionOrder | src/main/java/com/epimorphics/armlib/BatchRequest.java:141-181 | the computed key does not depend on the order names or values were added |
| Requests.BatchRequest.KeyIsValid | src/main/java/com/epimorphics/armlib/BatchRequest.java:130-142 | the key `getKey` returns is always one `setKey` would accept |
| Requests.BatchRequest.constructor | src/main/java/com/epimorphics/armlib/BatchRequest.java:44-48 | stores URI, parameters and sticky flag; no key yet; estimate 60000 |
| Requests.BatchRequest.FromParameterString | src/main/java/com/epimorphics/armlib/BatchRequest.java:54-58 | the string constructor fails exactly when decoding fails, otherwise holds the decoded multimap |
| Requests.BatchRequest.DecodeParameterString | src/main/java/com/epimorphics/armlib/BatchRequest.java:95-107 | the loop computes the decoding: split at `&`, then at `=`; two parts add the value, one part adds "", none is an error |
| Requests.BatchRequest.GetParameterString | src/main/java/com/epimorphics/armlib/BatchRequest.java:80-93 | emits every (name, value) pair once as `name=value`, joined by `&`, in key-set then value order |
| Requests.BatchRequest.AppendPairs | src/main/java/com/epimorphics/armlib/BatchRequest.java:84-90 | the inner loop appends one name's pairs and keeps the `started` flag exact |
| Requests.BatchRequest.SetSticky | src/main/java/com/epimorphics/armlib/BatchRequest.java:118-120 | sets the flag |
| Requests.BatchRequest.SetEstimatedTime | src/main/java/com/epimorphics/armlib/BatchRequest.java:190-192 | sets the estimate |
| Requests.BatchRequest.SetKey | src/main/java/com/epimorphics/armlib/BatchRequest.java:130-135 | accepts exactly keys of at most 200 UTF-16 code units without `/`, and then `getKey` returns that key; otherwise nothing changes |
| Requests.BatchRequest.GetKey | src/main/java/com/epimorphics/armlib/BatchRequest.java:141-181 | returns the assigned key or the computed one and memoises it, so later calls return the same string |
| Requests.BatchRequest.KeyTextOf | src/main/java/com/epimorphics/armlib/BatchRequest.java:143-153 | the nested loops build the key text |
| Requests.BatchRequest.DigestInputOf | src/main/java/com/epimorphics/armlib/BatchRequest.java:162-168 | the bytes fed to MD5: the URI, then `name=value` for sorted names and sorted values, in UTF-8 |
| Requests.BatchRequest.ValueDigestOf | src/main/java/com/epimorphics/armlib/BatchRequest.java:164-167 | the inner digest loop feeds one name's sorted pairs |
| Requests.BatchRequest.HexOf | src/main/java/com/epimorphics/armlib/BatchRequest.java:170-174 | the loop builds the hex form of the digest |
| Status.FlagNameRoundTrip | src/main/java/com/epimorphics/armlib/BatchStatus.java:28 | `valueOf(toString(f)) == f`, and `valueOf` accepts exactly the five names |
| Status.FlagNamesDistinct | src/main/java/com/epimorphics/armlib/BatchStatus.java:28 | distinct flags have distinct names |
| Status.JsonOf | src/main/java/com/epimorphics/armlib/BatchStatus.java:139-154 | `key` and `status` always; `url`, `positionInQueue`, `eta` and `started` exactly when present; no other field |
| Status.JsonKeepsKeyAndStatus | src/main/java/com/epimorphics/armlib/BatchStatus.java:139-154 | the JSON gives back key and flag, and never includes `estimatedTime` |
| Status.BatchStatus.WithUrl | src/main/java/com/epimorphics/armlib/BatchStatus.java:38-42 | key, status and url stored, all optionals empty |
| Status.BatchStatus.constructor | src/main/java/com/epimorphics/armlib/BatchStatus.java:44-47 | key and status stored, url absent, all optionals empty |
| Status.BatchStatus.SetUrl | src/main/java/com/epimorphics/armlib/BatchStatus.java:85-87 | only the url changes |
| Status.BatchStatus.SetStatus | src/main/java/com/epimorphics/armlib/BatchStatus.java:74-76 | only the flag changes |
| Status.BatchStatus.SetStarted | src/main/java/com/epimorphics/armlib/BatchStatus.java:97-99 | only `started` changes, to the given time |
| Status.BatchStatus.SetPositionInQueue | src/main/java/com/epimorphics/armlib/BatchStatus.java:109-111 | only the position changes |
| Status.BatchStatus.SetEta | src/main/java/com/epimorphics/armlib/BatchStatus.java:124-126 | only the eta changes |
| Status.BatchStatus.SetEstimatedTime | src/main/java/com/epimorphics/armlib/BatchStatus.java:135-137 | only the estimate changes |
| Status.BatchStatus.AsJson | src/main/java/com/epimorphics/armlib/BatchStatus.java:139-154 | the conditional puts build exactly `JsonOf` of the state |
| QueueEntries.QueueEntry.constructor | src/main/java/com/epimorphics/armlib/impl/QueueEntry.java:27-31 | a new entry is Pending, not started, keyed by `request.getKey()` |
| QueueEntries.QueueEntry.SetStarted | src/main/java/com/epimorphics/armlib/impl/QueueEntry.java:33-36 | InProgress from the given time |
| QueueEntries.QueueEntry.SetStatus | src/main/java/com/epimorphics/armlib/impl/QueueEntry.java:38-40 | only the flag changes; `started` is kept |
| QueueEntries.QueueEntry.GetStatus | src/main/java/com/epimorphics/armlib/impl/QueueEntry.java:50-56 | key, flag and `started` if present; never url, estimate, eta or position |
| MemQueue.RemoveFirst | src/main/java/com/epimorphics/armlib/impl/MemQueueManager.java:56-57 | `List.remove(o)`: no change when absent, one element fewer when present |
| MemQueue.RemoveFirstMultiset | src/main/java/com/epimorphics/armlib/impl/MemQueueManager.java:56-57 | removal takes out exactly one occurrence |
| MemQueue.FirstPending | src/main/java/com/epimorphics/armlib/impl/MemQueueManager.java:119-126 | the index of the first Pending flag, or none exactly when no flag is Pending |
| MemQueue.ClaimAdvances | src/main/java/com/epimorphics/armlib/impl/MemQueueManager.java:114-126 | after a claim the next entry found lies further on, or there is none |
| MemQueue.AbortRestoresClaim | src/main/java/com/epimorphics/armlib/impl/MemQueueManager.java:140-142 | claiming and then aborting makes the same entry the next one found |
| MemQueue.RemoveFirstKeepsDistinctKeys | src/main/java/com/epimorphics/armlib/impl/MemQueueManager.java:135 | removing an entry keeps the queue keys distinct |
| MemQueue.RemoveFirstDropsKey | src/main/java/com/epimorphics/armlib/impl/MemQueueManager.java:56 | after removing a queued entry, its key is gone from the queue |
| MemQueue.IndexedAppend | src/main/java/com/epimorphics/armlib/impl/MemQueueManager.java:44-45 | indexing and queueing an entry for a new key keeps the index invariant |
| MemQueue.IndexedRemove | src/main/java/com/epimorphics/armlib/impl/MemQueueManager.java:56-58 | unindexing a key and removing its entry keeps the index invariant |
| MemQueue.MemQueueManager.constructor | src/main/java/com/epimorphics/armlib/impl/MemQueueManager.java:30-33 | empty queue, list and index; check interval 100; invariant holds |
| MemQueue.MemQueueManager.SetCheckInterval | src/main/java/com/epimorphics/armlib/impl/MemQueueManager.java:35-37 | sets the interval |
| MemQueue.MemQueueManager.Submit | src/main/java/com/epimorphics/armlib/impl/MemQueueManager.java:40-48 | a known key, whatever its flag, returns that entry's status and changes nothing; a new key gets one fresh Pending entry, indexed and appended at the end |
| MemQueue.MemQueueManager.Resubmit | src/main/java/com/epimorphics/armlib/impl/MemQueueManager.java:52-64 | any old entry leaves the queue, the finished list and the index, then one fresh Pending entry is indexed and appended |
| MemQueue.MemQueueManager.QueueHoldsNoFinished | src/main/java/com/epimorphics/armlib/impl/QueueEntry.java:62-64 | no entry in the queue is finished (Completed or Failed) |
| MemQueue.MemQueueManager.GetStatus | src/main/java/com/epimorphics/armlib/impl/MemQueueManager.java:67-74 | the indexed entry's status, or Unknown exactly for an unindexed key |
| MemQueue.MemQueueManager.GetQueue | src/main/java/com/epimorphics/armlib/impl/MemQueueManager.java:77-83 | one new status per queue entry, in queue order |
| MemQueue.MemQueueManager.FindRequest | src/main/java/com/epimorphics/armlib/impl/MemQueueManager.java:86-93 | the entry's request, or none exactly for an unindexed key |
| MemQueue.MemQueueManager.FindNext | src/main/java/com/epimorphics/armlib/impl/MemQueueManager.java:119-126 | the first Pending entry in queue order, or none |
| MemQueue.MemQueueManager.NextRequest | src/main/java/com/epimorphics/armlib/impl/MemQueueManager.java:96-117 | claims the first Pending entry (InProgress, started `now`) and returns its request; with none, sleeps the whole timeout and returns none; the lists and the index stay as they were, and every entry other than the claimed one keeps its flag and start time |
| MemQueue.MemQueueManager.Poll | src/main/java/com/epimorphics/armlib/impl/MemQueueManager.java:99-109 | the waiting loop sleeps `min(checkInterval, timeout - count)` until exactly `timeout` has passed, and terminates |
| MemQueue.MemQueueManager.Claim | src/main/java/com/epimorphics/armlib/impl/MemQueueManager.java:114 | only the claimed entry changes: InProgress, started `now`; every other queue entry keeps its flag and start time |
| MemQueue.MemQueueManager.FinishRequest | src/main/java/com/epimorphics/armlib/impl/MemQueueManager.java:129-137 | fails exactly for an unindexed key; otherwise the entry becomes Completed, leaves the queue, is appended to the finished list and stays indexed |
| MemQueue.MemQueueManager.FailRequest | src/main/java/com/epimorphics/armlib/impl/MemQueueManager.java:145-150 | as finishRequest, with Failed |
| MemQueue.MemQueueManager.AbortRequest | src/main/java/com/epimorphics/armlib/impl/MemQueueManager.java:140-142 | fails exactly for an unindexed key; otherwise that entry's flag is reset to Pending, its start time is kept, and every other queue entry keeps its flag |
| MemQueue.ClaimAbortReclaim | src/test/java/com/epimorphics/armlib/TestRequestManager.java:109-112 | over the methods: after `nextRequest`, `abortRequest` of the claimed key and `nextRequest` again, the second claim returns the same request as the first |
| MemQueue.MemQueueManager.Admit | src/main/java/com/epimorphics/armlib/impl/MemQueueManager.java:42-46 | a new key gets one fresh Pending entry, indexed and appended at the end of the queue, and a Pending status is returned |
| MemQueue.MemQueueManager.Enqueue | src/main/java/com/epimorphics/armlib/impl/MemQueueManager.java:44-45 | indexing and appending a Pending entry for a new key keeps the invariant |
| MemQueue.MemQueueManager.Forget | src/main/java/com/epimorphics/armlib/impl/MemQueueManager.java:54-59 | the key leaves the index, and its entry leaves the queue and the finished list |
| MemQueue.MemQueueManager.Finish | src/main/java/com/epimorphics/armlib/impl/MemQueueManager.java:129-137 | shared by finish and fail: fails exactly for an unindexed key; otherwise the entry gets the flag, leaves the queue and is appended to the finished list |
| MemQueue.MemQueueManager.Dequeue | src/main/java/com/epimorphics/armlib/impl/MemQueueManager.java:135 | removes the entry from the queue and keeps the invariant |
| FileCache.EnsureLastSlash | src/main/java/com/epimorphics/armlib/impl/FileCacheManager.java:38 | the result ends with `/`, extends the input by at most that `/`, and leaves a slash-terminated input alone |
| FileCache.EnsureLastSlashIdempotent | src/main/java/com/epimorphics/armlib/impl/FileCacheManager.java:38 | applying it twice is applying it once |
| FileCache.FileNameInSegment | src/main/java/com/epimorphics/armlib/impl/FileCacheManager.java:66-68 | a file name lies under the segment of its stickiness and not under the other, so the two names differ |
| FileCache.Lookup | src/main/java/com/epimorphics/armlib/impl/FileCacheManager.java:70-80 | the persistent file if present, else the cache file if present, else none |
| FileCache.PublishSpec | src/main/java/com/epimorphics/armlib/impl/FileCacheManager.java:115-127 | after writing to `fname + ".hide"` and renaming, `fname` holds exactly the data, the temporary name is gone, and no other file changed |
| FileCache.LookupAfterPublish | src/main/java/com/epimorphics/armlib/impl/FileCacheManager.java:70-80 | an upload is found for its key and suffix: a sticky one always, a non-sticky one unless a persistent file shadows it |
| FileCache.ClearDir | src/main/java/com/epimorphics/armlib/impl/FileCacheManager.java:140-143 | exactly the files under the directory are removed; the rest are untouched |
| FileCache.ClearSemantics | src/main/java/com/epimorphics/armlib/impl/FileCacheManager.java:129-138 | after `clear` nothing is found; after `clearNonSticky` exactly the persistent results are |
| FileCache.PipeSuffix | src/main/java/com/epimorphics/armlib/impl/BaseCacheManager.java:63 | `suffix + ".gz"` when compressing, `suffix` otherwise |
| FileCache.FileCacheManager.constructor | src/main/java/com/epimorphics/armlib/impl/FileCacheManager.java:34-35 | no cache directory, the default URL prefix, suffix `csv` |
| FileCache.FileCacheManager.SetCacheDir | src/main/java/com/epimorphics/armlib/impl/FileCacheManager.java:37-42 | the directory, with a trailing `/` |
| FileCache.FileCacheManager.SetUrlPrefix | src/main/java/com/epimorphics/armlib/impl/FileCacheManager.java:48-50 | the prefix, with a trailing `/` |
| FileCache.FileCacheManager.SetDefaultSuffix | src/main/java/com/epimorphics/armlib/impl/BaseCacheManager.java:27-31 | replaces the default suffix |
| FileCache.FileCacheManager.ResultURL | src/main/java/com/epimorphics/armlib/impl/FileCacheManager.java:57-60 | `urlPrefix + key + "." + defaultSuffix`, whether or not a file exists |
| FileCache.FileCacheManager.GetResultURL | src/main/java/com/epimorphics/armlib/impl/FileCacheManager.java:52-55 | the URL for the request's key |
| FileCache.FileCacheManager.IsReady | src/main/java/com/epimorphics/armlib/impl/FileCacheManager.java:82-85 | true exactly when a default-suffix file exists in either segment |
| FileCache.FileCacheManager.ReadResult | src/main/java/com/epimorphics/armlib/impl/FileCacheManager.java:92-103 | the contents of the file the lookup finds, none when there is none |
| FileCache.FileCacheManager.ReadDefaultResult | src/main/java/com/epimorphics/armlib/impl/FileCacheManager.java:87-90 | the default-suffix result, present exactly when `isReady` |
| FileCache.FileCacheManager.Upload | src/main/java/com/epimorphics/armlib/impl/FileCacheManager.java:114-127 | publishes the data under the request's file name for its stickiness |
| FileCache.FileCacheManager.UploadFile | src/main/java/com/epimorphics/armlib/impl/BaseCacheManager.java:33-36 | upload under the default suffix |
| FileCache.FileCacheManager.UploadThroughPipe | src/main/java/com/epimorphics/armlib/impl/BaseCacheManager.java:45-50 | the bytes written to the pipe are published under the suffix, `.gz` added when compressing |
| FileCache.FileCacheManager.UploadThroughDefaultPipe | src/main/java/com/epimorphics/armlib/impl/BaseCacheManager.java:40-43 | the pipe under the default suffix, uncompressed |
| FileCache.FileCacheManager.Clear | src/main/java/com/epimorphics/armlib/impl/FileCacheManager.java:129-133 | empties `persistent/` and `cache/` |
| FileCache.FileCacheManager.ClearNonSticky | src/main/java/com/epimorphics/armlib/impl/FileCacheManager.java:135-138 | empties `cache/` only |
| StandardManager.ReconciledCompletedIffReady | src/main/java/com/epimorphics/armlib/impl/StandardRequestManager.java:65-77 | Completed is reported exactly when the cache is ready, then with the result URL; a queue-side Completed becomes Unknown; other flags pass through |
| StandardManager.LastPosition | src/main/java/com/epimorphics/armlib/impl/StandardRequestManager.java:88-96 | the 1-based position of the last queue status with the key, 0 exactly when none has it |
| StandardManager.PlacedAtIndex | src/main/java/com/epimorphics/armlib/impl/StandardRequestManager.java:85-97 | with distinct keys, the entry at index `i` gets position `i+1` and the estimates of entries 1 to `i+1` summed |
| StandardManager.PlacedAbsent | src/main/java/com/epimorphics/armlib/impl/StandardRequestManager.java:93-96 | a key not in the queue gets no eta and no position |
| StandardManager.EtaMonotone | src/main/java/com/epimorphics/armlib/impl/StandardRequestManager.java:89-92 | with non-negative estimates the eta is non-negative and grows along the queue |
| StandardManager.EtaWithoutEstimates | src/main/java/com/epimorphics/armlib/impl/StandardRequestManager.java:90-92 | absent estimates count as 0 |
| StandardManager.RunningShape | src/main/java/com/epimorphics/armlib/impl/StandardRequestManager.java:98-106 | InProgress with start and estimate: position 0; eta is `expected - (now - started)` only when positive, otherwise unchanged; nothing else changes |
| StandardManager.RunningUnchanged | src/main/java/com/epimorphics/armlib/impl/StandardRequestManager.java:99 | without both values nothing is set |
| StandardManager.FullStatusCompletedIffReady | src/main/java/com/epimorphics/armlib/impl/StandardRequestManager.java:80-113 | the full status is Completed exactly when the cache is ready and has the flag `getStatus` reports |
| StandardManager.MemQueueEtaIsZero | src/main/java/com/epimorphics/armlib/impl/QueueEntry.java:50-56 | statuses from the in-memory queue carry no estimate, so their eta sums are 0 |
| StandardManager.MemQueueKeysDistinct | src/main/java/com/epimorphics/armlib/impl/MemQueueManager.java:77-83 | the in-memory queue's statuses have distinct keys, so the position found is the entry's own |
| StandardManager.StandardRequestManager.constructor | src/main/java/com/epimorphics/armlib/impl/StandardRequestManager.java:29-35 | stores the queue and cache managers |
| StandardManager.StandardRequestManager.Submit | src/main/java/com/epimorphics/armlib/impl/StandardRequestManager.java:48-62 | a ready cache answers Completed with the result URL and leaves the queue alone; otherwise the queue's answer, with a Completed-but-lost entry resubmitted as a fresh Pending entry |
| StandardManager.StandardRequestManager.CompletedNotQueued | src/main/java/com/epimorphics/armlib/impl/StandardRequestManager.java:54-57 | a Completed entry is not in the queue, so resubmitting it leaves the queue's other entries as they were |
| StandardManager.StandardRequestManager.GetStatus | src/main/java/com/epimorphics/armlib/impl/StandardRequestManager.java:65-77 | the reconciled status of cache and queue |
| StandardManager.StandardRequestManager.GetFullStatus | src/main/java/com/epimorphics/armlib/impl/StandardRequestManager.java:80-113 | the cache's Completed, or the queue's status refined by position/eta for Pending, remaining time for InProgress, Unknown for Completed |
| StandardManager.StandardRequestManager.Detail | src/main/java/com/epimorphics/armlib/impl/StandardRequestManager.java:84-111 | the queue-side refinement for any queue's status and queue listing |
| StandardManager.StandardRequestManager.Place | src/main/java/com/epimorphics/armlib/impl/StandardRequestManager.java:86-97 | the loop sets position and eta for the last entry with the key, the prefix sum of estimates up to it |
| StandardManager.StandardRequestManager.GetQueue | src/main/java/com/epimorphics/armlib/impl/StandardRequestManager.java:116-118 | the queue manager's list unchanged |
| StandardManager.StandardRequestManager.FindRequest | src/main/java/com/epimorphics/armlib/impl/StandardRequestManager.java:121-123 | the queue manager's answer unchanged |
| DynEntries.StatusFromString | src/main/java/com/epimorphics/armlib/impl/DynQueueEntry.java:50-52 | Pending for no status string, otherwise the flag with exactly that name, none where `valueOf` throws |
| DynEntries.StatusStringRoundTrip | src/main/java/com/epimorphics/armlib/impl/DynQueueEntry.java:50-52 | a stored flag name reads back as the flag |
| DynEntries.RebuildRoundTrip | src/main/java/com/epimorphics/armlib/impl/DynQueueEntry.java:67-72 | the stored parameter string of an encodable request with a valid key rebuilds the same multimap |
| DynEntries.CompareLongs | src/main/java/com/epimorphics/armlib/impl/DynQueueEntry.java:154 | `Long.compareTo` is -1, 0 or 1 with the sign of the difference |
| DynEntries.CompareLongsOrder | src/main/java/com/epimorphics/armlib/impl/DynQueueEntry.java:153-155 | the comparison is antisymmetric and transitive |
| DynEntries.DynQueueEntry.constructor | src/main/java/com/epimorphics/armlib/impl/DynQueueEntry.java:40-47 | copies URI, parameter string, key, estimate and sticky flag; created at `now`; no status, start or version |
| DynEntries.DynQueueEntry.NewEntryIsPending | src/main/java/com/epimorphics/armlib/impl/DynQueueEntry.java:50-52 | an entry without a status string is Pending |
| DynEntries.DynQueueEntry.SetStarted | src/main/java/com/epimorphics/armlib/impl/DynQueueEntry.java:75-78 | started at `now` and InProgress |
| DynEntries.DynQueueEntry.BatchStatusView | src/main/java/com/epimorphics/armlib/impl/DynQueueEntry.java:55-64 | key and flag, plus start and estimate only when stored |
| DynEntries.DynQueueEntry.GetBatchStatus | src/main/java/com/epimorphics/armlib/impl/DynQueueEntry.java:55-64 | builds that status, none exactly when the status string is unreadable |
| DynEntries.DynQueueEntry.GetBatchRequest | src/main/java/com/epimorphics/armlib/impl/DynQueueEntry.java:67-72 | a request whose key is the entry's key and whose estimate is the entry's, or the decode, `setKey` or null-estimate failure |
| DynEntries.DynQueueEntry.CompareTo | src/main/java/com/epimorphics/armlib/impl/DynQueueEntry.java:153-155 | orders entries by creation time |
| DynEntries.DynCompletedEntry.constructor | src/main/java/com/epimorphics/armlib/impl/DynCompletedEntry.java:27-37 | copies the request fields, created and started; Completed whatever the source status; finished at `now`; no version; reports Completed |
| DynEntries.DynCompletedEntry.SetFinished | src/main/java/com/epimorphics/armlib/impl/DynCompletedEntry.java:44-46 | sets the finish time |
| MediaTypes.MediaTypeForExtension | src/main/java/com/epimorphics/armlib/MediaTypes.java:24-36 | a type exactly for the seven registered extensions, none for any other |
| MediaTypes.RegisteredTypes | src/main/java/com/epimorphics/armlib/MediaTypes.java:25-31 | csv, txt, html, ttl, rdf, xlsx and xls map to their media types |
| MediaTypes.TypesDistinct | src/main/java/com/epimorphics/armlib/MediaTypes.java:24-32 | no two extensions share a media type |
| MediaTypes.UpperCaseUnregistered | src/main/java/com/epimorphics/armlib/MediaTypes.java:34-36 | the lookup is case-sensitive |

## Left out

- The in-memory queue, the DynamoDB and SQL queue managers, and the S3 cache
  are not interchangeable here. Dafny traits are not used, so
  `StandardRequestManager` composes the concrete `MemQueueManager` and
  `FileCacheManager`. Its queue-side refinement (`Detail`) is stated for any
  status and queue listing. `DynQueueManager`, `SqlQueueManager` and
  `S3CacheManager` are network and database clients and are not part of this
  model.
- StandardManager.StandardRequestManager.GetFullStatus: with the in-memory
  queue, the statuses from `getQueue` never carry an estimate (see
  src/main/java/com/epimorphics/armlib/impl/QueueEntry.java:50-56).
  - So the Pending eta is always 0 (`MemQueueEtaIsZero`).
  - The InProgress branch sets neither eta nor position.
  - src/test/java/com/epimorphics/armlib/TestRequestManager.java:86,132
    expects an eta of 150 and a position of 0. The model follows the code as
    written.
- StandardManager.StandardRequestManager.GetFullStatus: it reads
  `getQueue()` whatever the flag; the Java code reads it only for Pending.
  The read has no effect.
- StandardManager.StandardRequestManager.constructor: `setQueueManager` and
  `setCacheManager` are modelled as the constructor's two arguments.
  `getQueueManager`/`getCacheManager` are the two fields.
- Threads and locks:
  - `synchronized` is modelled as atomic sequential steps.
  - `InterruptedException` is not modelled.
  - The asynchronous upload `Pipe`, with its thread, piped streams, GZIP
    compression and `join`, is reduced to the bytes that reach the upload.
    `UploadThroughPipe` publishes them under the pipe's suffix.
- MemQueue.MemQueueManager.NextRequest:
  - `Thread.sleep` is a no-op whose durations are summed in the ghost
    result `slept`.
  - Because the lock is held while sleeping, no other operation can add work
    during the poll, and the model relies on that.
  - It requires a positive `checkInterval` when it has to wait: 0 would spin
    forever, and a negative value makes `Thread.sleep` throw.
- MemQueue.MemQueueManager.Finish: the Java code sets the flag before
  removing the entry from the queue. The model removes the entry first, which
  gives the same final state.
- The clock: `System.currentTimeMillis()` is the parameter `now`.
- Integer widths: the model uses unbounded integers. `long` overflow of
  eta sums and of `now - started`, and the `int` position, are not modelled.
- Java library code:
  - MD5 is an arbitrary function returning 16 bytes.
  - The JSON library and the `SimpleDateFormat` text of `started` are left
    out; `started` is carried as its millisecond value.
  - `String.compareTo` is modelled on code points, not UTF-16 code units,
    so it differs only for characters outside the Basic Multilingual Plane.
    `String.length()` in `setKey` and `getKey` does count UTF-16 code units
    (`Utf16Length`).
  - UTF-8 is encoded per code point.
- Jersey `MultivaluedStringMap`:
  - It stores `add(name, null)` as "". Decoding therefore adds "" for a
    binding that does not split into two parts.
  - `HashMap` key-set order is abstracted as the order of the binding
    sequence.
- File system calls:
  - `expandFileLocation`, `FileUtil.ensureDir` and stream copying are reduced
    to map updates on the path-to-contents map of files.
  - `NameUtils.ensureLastSlash` is `EnsureLastSlash`.
  - I/O errors (`EpiException`) are not modelled.
  - FileCache.Rename always succeeds and replaces the target. The Java code
    ignores the result of `File.renameTo`
    (src/main/java/com/epimorphics/armlib/impl/FileCacheManager.java:123), so
    a rename that the file system refuses fails silently there; that case is
    not modelled.
  - The File and InputStream overloads of `upload` are both `Upload` on the
    bytes.
- FileCache.FileCacheManager.Dir: a cache directory that was never set reads
  as the text `null`, as Java string concatenation gives.
- DynEntries: only the conversions and field copies are modelled.
  - The no-argument constructors used by the DynamoDB mapper are not
    modelled, and neither are the plain field getters and setters.
  - The mapper can leave fields null. The model keeps only `estimatedTime`,
    `statusStr`, `started`, `version` and `finished` optional.
  - DynCompletedEntry is its own class with the inherited fields, since
    Dafny classes do not inherit.
- Requests.BatchRequest.GetKey: the readable-key and digest loops are
  separate helper methods (`KeyTextOf`, `DigestInputOf`, `HexOf`).
  `EpiException` for a missing MD5 algorithm cannot happen here.
- Test and demonstration code (the `DynCheck` scratch programs and the test
  drivers) is not part of this model.
