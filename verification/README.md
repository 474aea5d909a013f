# chrome-takeout-to-firefox, modelled in Dafny

The program imports the "Browser History" list of a Chrome takeout into a
Firefox `places.sqlite`. It reads the entries in chunks of 1000 and runs
one SQLite transaction per chunk. For every entry it:

- maps an empty title to no title;
- skips the entry when a visit at the same microsecond time exists;
- finds the `moz_places` row of the URL, or creates it. A new row gets a
  reversed host, a random 12-character GUID, Firefox's 48-bit URL hash and
  the id of the URL's `moz_origins` row, which is found or created too;
- bumps the place's visit count and last visit date;
- inserts a `moz_historyvisits` row.

A failed entry is reported and skipped. An entry with no visit at its
time, whose URL has no place yet and no host, panics, which drops the open
transaction.

The model has three layers:

- **Pure parts.** `UrlHash` (`hash.dfy`, with the reference vectors in
  `hash_vectors.dfy`) is the URL hash. `Origins` (`origins.dfy`) is the
  origin key. `Guid` (`guid.dfy`) is GUID generation from injected random
  bytes, as URL-safe base64 (section 5 of RFC 4648).
- **Reference definitions on values.** `Places` (`places.dfy`) holds the
  three tables as values (`Tables`). It defines `ResolveOrigin`,
  `ResolvePlace` and `RecordVisit`, which state what `find_or_insert_origin`,
  `find_or_insert_place` and `insert_visit` do to the tables. `Takeout`
  (`takeout.dfy`) folds them over the entries:
  - `Replay` gives the tables after every entry;
  - `Run` also tracks the reported failures and the panic.
- **The imperative program.** `History` (`history.dfy`) has the class
  `FirefoxHistory`. Its fields are the tables seen by the open transaction
  and the last committed tables. Its methods change them row by row. The
  driver methods `ImportOne`, `ImportChunk` and `ImportTakeout` are proved
  against `Run`.

`Wrappers` (`wrappers.dfy`) holds `Option` and `Result`. `Utf8`
(`utf8.dfy`) holds the UTF-8 encoding through which Rust exposes the bytes
of a `str`.

Row ids come from one counter, `nextId`, shared by the three tables. Every
insertion takes the current value and advances it, so a new row's id is
fresh. SQLite's `RETURNING id` gives the same guarantee for each table
separately.

Two behaviours of the code are easy to misread:

- A URL without host is a panic that ends the import. It is not an error
  reported for one entry. It is reached only when no visit exists at the
  entry's time and no place has the URL. The transaction of the current
  chunk is dropped, which rolls it back, while the chunks before it stay
  committed.
- A visit at an already recorded time is logged and skipped: the entry
  succeeds without changing the tables. It is not an error.

## Model

| member | source | states |
|---|---|---|
| Utf8.EncodeChar | src/hash.rs:13 | A character is one to four bytes. It is one byte, its own code, exactly when it is ASCII; every byte of a longer encoding is at least 0x80. |
| Utf8.Utf8Bytes | src/hash.rs:13 | The bytes `str::bytes` yields, the characters' encodings in order. No contract of its own; stated by `AsciiBytes` and `UrlHash.Utf8HasColon`. |
| Utf8.AsciiBytes | src/hash.rs:13 | An ASCII string is one byte per character, each byte the character's code. |
| UrlHash.GoldenRatio | src/hash.rs:9 | The multiplier 0x9E3779B9 of every step; stated through the hashes it gives, in `HashVectors`. |
| UrlHash.Mix | src/hash.rs:14 | One pass of the loop body: rotate left by 5, xor the byte, multiply by the golden ratio modulo 2^32. No contract of its own; stated by `HashFromSnoc` and the test vectors. |
| UrlHash.HashFrom | src/hash.rs:12-15 | The loop from a given accumulator. No contract of its own; stated by `HashFromAppend`, `HashFromSnoc` and `HashSimple`. |
| UrlHash.SimpleHash | src/hash.rs:11-17 | `hash_simple` as a value, the fold from 0. No contract of its own; stated by `HashSimple`, `HashLayout` and the test vectors. |
| UrlHash.HashSimple | src/hash.rs:11-17 | The loop over the bytes returns the 32-bit fold (rotate left 5, xor the byte, multiply by the golden ratio modulo 2^32), zero-extended, so the result is below 2^32. |
| UrlHash.Hash | src/hash.rs:3-7 | Fails exactly when the URL has no ':'. |
| UrlHash.FirstColon | src/hash.rs:4 | Finds the index of the first ':' byte, and only that one: no ':' before it, None exactly when there is none. |
| UrlHash.FirstColonAt | src/hash.rs:4 | Any index holding a ':' with none before it is the index `find` returns. |
| UrlHash.HashLayout | src/hash.rs:3-7 | A successful hash is below 2^48. Its low 32 bits are the hash of the whole URL. Bits 32 to 47 are the low 16 bits of the hash of the text before the first ':'. |
| UrlHash.HashFailsWithoutProtocol | src/hash.rs:3-4 | On the UTF-8 bytes of a string, the hash fails exactly when the string has no ':'. |
| UrlHash.Utf8HasColon | src/hash.rs:4 | The ':' byte occurs in the UTF-8 bytes of a string exactly when ':' occurs in the string. |
| UrlHash.SameProtocolSameHighBits | src/hash.rs:5 | Two URLs with the same text up to and including the first ':' have the same bits 32 to 47. |
| UrlHash.HashFromAppend | src/hash.rs:13-15 | Folding a concatenation folds the first part, then the second from the accumulator reached. |
| UrlHash.HashFromSnoc | src/hash.rs:13-15 | One more byte is one more step of the loop. |
| HashVectors.HttpsPrefixHash | src/hash.rs:11-17 | The fold over the bytes of "https://" reaches 0x4D5A5F78. |
| HashVectors.HttpsSchemeHash | src/hash.rs:5 | The 32-bit hash of the scheme "https" is 0x83EE2B12. |
| HashVectors.HttpsProtocol | src/hash.rs:4 | In any text starting with "https://" the first ':' is at index 5, after "https". |
| HashVectors.HttpsFold | src/hash.rs:11-17 | The 32-bit hash of "https://" followed by a rest is the fold of the rest from 0x4D5A5F78. |
| HashVectors.HttpsHash | src/hash.rs:3-7 | The hash of "https://" followed by a rest is 0x2B12 above the 32-bit hash of the whole URL. |
| HashVectors.VaultBitwardenVector | src/hash.rs:26 | The hash of "https://vault.bitwarden.com/" is 47358609224710. |
| HashVectors.SearchNixosVector | src/hash.rs:27 | The hash of "https://search.nixos.org/" is 47360563686504. |
| HashVectors.WikiArchlinuxVector | src/hash.rs:28 | The hash of "https://wiki.archlinux.org/" is 47356434076161. |
| HashVectors.JavascriptBookmarkletVector | src/hash.rs:29 | The hash of the `javascript:` bookmarklet URL is 61198099442140. |
| HashVectors.MozillaAboutVector | src/hash.rs:30 | The hash of "https://www.mozilla.org/about/" is 47357608426557. |
| HashVectors.HttpsVectorsShareProtocolBits | src/hash.rs:25-31 | The four `https` vectors share bits 32 to 47. |
| Origins.DecimalString | src/main.rs:212 | The `{}` text of a port is one or more decimal digits. |
| Origins.DecimalRoundTrip | src/main.rs:212 | Reading back the decimal text of a port gives the port. |
| Origins.DecimalStringInjective | src/main.rs:212 | Different ports have different decimal texts. |
| Origins.OriginKeyOf | src/main.rs:208-220 | The key is None exactly when the origin is opaque or the URL has no host. Otherwise the prefix is the scheme followed by "://". The host is the bare host for https on 443 and http on 80, and "host:port" for any other port. |
| Origins.SameOriginIffSamePort | src/main.rs:210-218 | Same scheme and host give the same origin key exactly when the ports are equal. |
| Guid.GuidLength | src/main.rs:246 | A GUID is 12 characters; stated by `GenerateGuid`. |
| Guid.RequiredBytesLen | src/main.rs:248 | GUID length / 4 * 3 random bytes; stated by `RequiredBytes`. |
| Guid.Base64UrlEncode | src/main.rs:254 | The padded URL-safe base64 engine. No contract of its own; stated by `EncodeShape` and `DecodeEncode`. |
| Guid.Symbol | src/main.rs:254 | Every six-bit value maps to a character of the URL-safe alphabet. |
| Guid.SymbolRoundTrip | src/main.rs:254 | A six-bit value is read back from its character. |
| Guid.EncodeShape | src/main.rs:254 | The base64 text has four characters per started group of three bytes: alphabet characters for the first ceil(8n/6), '=' padding after. |
| Guid.DecodeEncode | src/main.rs:254 | Decoding the text of whole three-byte groups gives the bytes back. |
| Guid.RequiredBytes | src/main.rs:246-248 | The required byte count is 9, a whole number of three-byte groups. |
| Guid.GenerateGuid | src/main.rs:251-255 | A GUID is exactly 12 characters, all of the URL-safe alphabet, with no padding. |
| Guid.GuidDeterminesBytes | src/main.rs:251-255 | Different random bytes give different GUIDs. |
| Places.FindOrigin | src/main.rs:221-227 | Finds the first origin row with the key's host and prefix. None exactly when no row has them. |
| Places.FindOriginAppend | src/main.rs:221-231 | Appending rows does not change the row found for a key that already has one. |
| Places.NewOrigin | src/main.rs:233-241 | The inserted origin row: the key's prefix and host, frecency 0, `recalc_frecency` 1, `alt_frecency` NULL, `recalc_alt_frecency` 1. No contract of its own; stated by `ResolveOriginResult`. |
| Places.ResolveOrigin | src/main.rs:207-243 | `find_or_insert_origin`. No contract of its own; stated by `ResolveOriginResult`, `ResolveOriginTwice` and `ResolveOriginValid`. |
| Places.ResolveOriginResult | src/main.rs:207-243 | An opaque origin fails with nothing changed. Otherwise the row for the key carries the returned id. A row is appended, with frecency 0 and both recalculation flags set, exactly when the key had none. Places and visits are untouched. |
| Places.ResolveOriginTwice | src/main.rs:221-231 | Resolving an origin again, for a URL with the same key, returns the same id and changes nothing. |
| Places.ResolveOriginValid | src/main.rs:233-242 | Resolving an origin keeps the tables valid: ids unique, one origin row per key, one place row per URL, every reference to an existing row. |
| Places.AppendOriginValid | src/main.rs:233-242 | Appending an origin row with a fresh id and a new key keeps the tables valid. |
| Places.Reverse | src/main.rs:170-175 | Character i of the reversal is character n-1-i of the text. |
| Places.ReverseReverse | src/main.rs:170-175 | Reversing twice gives the text back. |
| Places.RevHost | src/main.rs:169-176 | The reversed host is the host's characters in reverse, then '.'. |
| Places.RevHostInverse | src/main.rs:169-176 | The host is recovered by reversing the reversed host without its final '.'. |
| Places.HasVisitAt | src/main.rs:102-107 | Whether a visit row has the time. No contract of its own; stated by `RecordVisitResult` and `RecordedTimeSkips`. |
| Places.FindPlace | src/main.rs:159-163 | Finds the first place row with the exact URL text. None exactly when no row has it. |
| Places.FindPlaceAppend | src/main.rs:159-167 | Appending rows does not change the row found for a URL that already has one. |
| Places.FindPlaceSameUrls | src/main.rs:159-163 | Lookups depend only on the URLs of the rows. |
| Places.NewPlace | src/main.rs:183-202 | The inserted place row: URL, title, reversed host, no last visit, GUID, hash, origin id, `recalc_frecency` 1, `alt_frecency` 0, `recalc_alt_frecency` 1. No contract of its own; stated by `ResolvePlaceCreates`. |
| Places.ResolvePlace | src/main.rs:154-205 | `find_or_insert_place`. No contract of its own; stated by `ResolvePlaceResult`, `ResolvePlaceErrors`, `ResolvePlaceCreates`, `ResolvePlaceTwice` and `ResolvePlaceValid`. |
| Places.ResolvePlaceResult | src/main.rs:154-205 | A known URL returns its row's id with nothing changed. A failure changes nothing. On success the URL's row carries the returned id. |
| Places.ResolvePlaceErrors | src/main.rs:169-182 | For a new URL, the checks come in the code's order. No host gives the `expect` panic. No ':' gives the hash error. An opaque origin gives the origin error. Creation fails exactly in these cases. |
| Places.ResolvePlaceCreates | src/main.rs:169-204 | A created place is appended with a fresh id. It has the URL, the title, the reversed host, the given GUID, the URL's hash and the id of the URL's origin row, with no last visit date, visit count 0, `recalc_frecency` 1, `alt_frecency` 0 and `recalc_alt_frecency` 1. Existing rows are kept. |
| Places.ResolvePlaceTwice | src/main.rs:159-167 | Resolving a URL again returns the same id and changes nothing, whatever title and GUID are passed. |
| Places.ResolvePlaceValid | src/main.rs:183-202 | Resolving a place keeps the tables valid. |
| Places.AppendPlaceValid | src/main.rs:183-202 | Appending a place row with a fresh id, a new URL and an existing origin keeps the tables valid. |
| Places.LastVisitOrZero | src/main.rs:125 | `ifnull(last_visit_date, 0)`. No contract of its own; stated by `MarkVisited`. |
| Places.Visited | src/main.rs:120-131 | One row after the update. No contract of its own; stated by `MarkVisited`. |
| Places.MarkVisited | src/main.rs:120-131 | Every row with the place's id gets visit count + 1, last visit date = max(old or 0, time) and `recalc_frecency` set, its other columns kept. Every other row is kept. |
| Places.MarkVisitedOnly | src/main.rs:120-131 | With unique ids, the one row is updated: count + 1, last visit date = max(old or 0, time), `recalc_frecency` set. Every other row is unchanged. |
| Places.MarkVisitedGrows | src/main.rs:123-126 | Visit counts and last visit dates never decrease. Ids, URLs and origins are unchanged. |
| Places.MarkVisitedValid | src/main.rs:120-131 | The update keeps the tables valid and the set of place ids. |
| Places.NewVisit | src/main.rs:133-142 | The inserted visit row: from visit 0, the place, the time, type 1 (link), session 0, source 0, no triggering place. No contract of its own; stated by `RecordVisitResult`. |
| Places.VisitPlace | src/main.rs:120-142 | The update followed by the visit insert. No contract of its own; stated by `VisitPlaceValid`, `RecordVisitUnfold` and `RecordVisitKnownPlace`. |
| Places.VisitPlaceValid | src/main.rs:120-142 | Updating a place and inserting its visit keeps the tables valid. |
| Places.AppendVisitValid | src/main.rs:133-142 | Appending a visit with a fresh id and an existing place keeps the tables valid. |
| Places.RecordVisit | src/main.rs:96-146 | `insert_visit`. No contract of its own; stated by `RecordVisitResult`, `RecordVisitValid`, `RecordVisitGrows` and the lemmas after it. |
| Places.RecordVisitResult | src/main.rs:96-146 | A recorded time is skipped with nothing changed. A failure is the place resolver's error, with nothing changed. On success a visit at that time exists. When none existed before, exactly one visit row is appended: the URL's place, the time, `from_visit` 0, type 1 (link), session 0, source 0, no triggering place, a fresh id. |
| Places.RecordVisitUnfold | src/main.rs:109-142 | When no visit has the time and the place resolves, recording is: resolve the place, then update it and insert the visit. |
| Places.RecordVisitValid | src/main.rs:96-146 | Recording a visit keeps the tables valid. |
| Places.RecordVisitUniqueDates | src/main.rs:102-115 | Recording keeps visit times unique, because a recorded time is skipped. |
| Places.RecordVisitGrows | src/main.rs:96-146 | Recording only adds rows and bumps aggregates. Existing visits and origins stay as prefixes. Place ids, URLs and origins stay. Counts and dates never decrease. A new place row is for the URL. |
| Places.RecordVisitKnownPlace | src/main.rs:118-142 | For a known URL: success, count + 1, last visit date = max(old or 0, time), title kept, every other place unchanged. |
| Places.RecordVisitNewPlace | src/main.rs:118-142 | For a new URL: success exactly when creation can succeed. The new place then has count 1, last visit date = time and the entry's title, and older places are unchanged. |
| Places.NewPlaceVisited | src/main.rs:120-131 | A just-created place, once visited, has count 1 and the visit time as last visit date. |
| Places.RecordedTimeSkips | src/main.rs:102-115 | After a visit is recorded at a time, any later entry at that time changes nothing and succeeds. |
| Places.TwoVisitsOnePlace | src/main.rs:118-142 | Two visits at different times to a known URL add two visit rows. The place's count rises by 2 and its last visit date is the max of the old value and both times. |
| Takeout.TitleOf | src/main.rs:28-32 | No title exactly when the entry's title is empty; otherwise the title itself. |
| Takeout.ImportEntry | src/main.rs:27-33 | One entry of the loop: its title mapped, then `insert_visit`. No contract of its own; stated by `ImportEntryTitle`, `ImportEntryValid` and `ImportEntryPanics`. |
| Takeout.ImportEntryTitle | src/main.rs:28-33 | A place created for an entry has no title exactly when the entry's title is empty. |
| Takeout.GuidsOf | src/main.rs:178 | One GUID per entry's random bytes. |
| Takeout.GuidsOfAt | src/main.rs:178 | The GUID for entry i is generated from entry i's random bytes. |
| Takeout.Replay | src/main.rs:25-43 | The tables after importing every entry in order. No contract of its own; stated by `ReplaySnoc`, `ReplayValid`, `ReplaySettles` and `ReplayIdempotent`. |
| Takeout.Step | src/main.rs:33-40 | One entry after the progress so far: nothing after a panic, a panic on a URL without host, a reported failure otherwise. No contract of its own; stated by `StepPanic` and `RunSnoc`. |
| Takeout.Run | src/main.rs:25-43 | The progress of the whole loop. No contract of its own; stated by `RunReplays`, `RunPanics`, `RunValid` and `RunIdempotent`. |
| Takeout.ReplaySnoc | src/main.rs:25-43 | Importing one more entry imports it into the tables the earlier entries left. |
| Takeout.RunSnoc | src/main.rs:25-43 | One more entry is one more step of the run. |
| Takeout.StepPanic | src/main.rs:172 | After a panic nothing happens. A panicking step keeps the tables and reports it had. |
| Takeout.RunAfterPanic | src/main.rs:172 | Once an entry has panicked, the entries after it change nothing. |
| Takeout.RunPrefixStops | src/main.rs:25-43 | A prefix run that panicked at k is the run of the first k entries stopped at k. |
| Takeout.RunStopsAtPanic | src/main.rs:25-43 | A run that panics at k is the run of the first k entries, which did not panic, stopped at entry k. |
| Takeout.RunReportsEntries | src/main.rs:35-40 | Every reported index is an index of the takeout. |
| Takeout.RunReplays | src/main.rs:25-43 | A run without panic leaves the tables `Replay` describes. |
| Takeout.RunPanics | src/main.rs:169-176 | A panicking run stops at an entry whose URL has no host, with the tables of the entries before it. |
| Takeout.ImportEntryValid | src/main.rs:33 | Importing one entry keeps the tables valid and the visit times unique. |
| Takeout.ReplayPrefixValid | src/main.rs:25-43 | Importing any prefix of the takeout keeps the tables valid and the visit times unique. |
| Takeout.ReplayValid | src/main.rs:25-43 | The whole import keeps the tables valid and the visit times unique. |
| Takeout.RunValid | src/main.rs:25-43 | The run, whether it completes or panics, keeps the tables valid and the visit times unique. |
| Takeout.SettledUnchanged | src/main.rs:102-115 | Importing an entry that has a visit at its time, or whose URL cannot get a place, changes nothing. |
| Takeout.SettledStays | src/main.rs:96-146 | An entry stays settled whatever other entry is imported after it. |
| Takeout.ImportedSettled | src/main.rs:96-146 | An entry is settled once imported. |
| Takeout.SettledStep | src/main.rs:25-43 | Importing the next entry settles it and keeps the earlier entries settled. |
| Takeout.ReplayPrefixSettles | src/main.rs:25-43 | After importing the first m entries, each of them is settled. |
| Takeout.ReplaySettles | src/main.rs:25-43 | After an import, every entry is settled. |
| Takeout.ReplaySettledUnchanged | src/main.rs:25-43 | Importing entries that are all settled changes nothing. |
| Takeout.ReplayIdempotent | src/main.rs:25-43 | Importing the same takeout a second time changes nothing, whatever GUIDs the second import draws. |
| Takeout.ImportEntryPanics | src/main.rs:102-172 | Importing an entry panics exactly when no visit has its time, no place has its URL and the URL has no host. |
| Takeout.NoHostStaysAway | src/main.rs:96-146 | An entry that has a visit at its time, a place for its URL or a host keeps one whatever entry is imported next. |
| Takeout.RunPrefixAvoidsNoHost | src/main.rs:25-43 | After a run of the first m entries without panic, none of them would panic if imported again. |
| Takeout.RunSettledUnchanged | src/main.rs:25-43 | A run of entries that are all settled and none of which would panic does not panic and leaves the tables unchanged. |
| Takeout.RunIdempotent | src/main.rs:25-43 | Running the import again on the tables a completed import left completes too and changes nothing, whatever GUIDs it draws. |
| History.ChunkSize | src/main.rs:25 | Chunks of 1000 entries; stated by `ChunkStartRoundsDown` and `ImportTakeout`. |
| History.FirefoxHistory.Open | src/main.rs:77-82 | An opened database sees its tables, with nothing uncommitted. |
| History.FirefoxHistory.FindOrInsertOrigin | src/main.rs:207-243 | Updates the open transaction exactly as `ResolveOrigin` says and returns its result. The committed tables are untouched. |
| History.FirefoxHistory.FindOrInsertPlace | src/main.rs:154-205 | Updates the open transaction exactly as `ResolvePlace` says, with the GUID generated from the given random bytes, and returns its result. The committed tables are untouched. |
| History.FirefoxHistory.InsertVisit | src/main.rs:96-146 | Updates the open transaction exactly as `RecordVisit` says and returns its result. The committed tables are untouched. |
| History.FirefoxHistory.Commit | src/main.rs:148-151 | The open transaction's tables become the committed ones and stay as they are. |
| History.FirefoxHistory.Rollback | src/main.rs:26 | Dropping the transaction returns the tables to the last commit. |
| History.ChunkStartOf | src/main.rs:25 | The chunk holding entry i starts at or before i. |
| History.ChunkStartRoundsDown | src/main.rs:25 | Entry i is in the chunk that starts at i rounded down to a multiple of 1000, and that chunk holds it. |
| History.ChunkStart | src/main.rs:25 | Every entry of the chunk starting at a chunk start belongs to that chunk. |
| History.PanicEnds | src/main.rs:25-43 | A panic inside a chunk is the panic of the whole run, with the same reported failures, and lies in that chunk. |
| History.ImportOne | src/main.rs:27-40 | One entry, inserted on the open transaction, is one step of the run. A failure is added to the report, a missing host is the panic at its index, and nothing is committed. |
| History.ImportChunk | src/main.rs:26-42 | The chunk runs on one transaction. Without panic it is committed and matches the run up to its end. On a panic at index k, the run of the first k+1 entries panics at k, the reports match it, and the tables are back at the chunk's start. |
| History.ImportTakeout | src/main.rs:25-43 | The reported indices are those of the run's failures. The import completes exactly when the run does not panic, leaving the run's tables committed. On a panic at k, the tables are those the run left at the start of k's chunk: every earlier chunk committed, the panicking chunk rolled back. |

## Left out

- Errors of SQLite itself (`prepare_cached`, `query_row`, `execute`, `commit`, `begin` and the pragmas in `open_file`) are not modelled: every statement succeeds. So `?` on a database call never returns an error, and a failed `commit` never ends the import.
- The `moz_places.guid` UNIQUE constraint is not modelled. Two places drawing the same GUID would make the insert fail; `Guid.GuidDeterminesBytes` shows this needs equal random bytes.
- Integer widths of the database columns are not modelled. The time is a `u64` bound as a SQLite integer, and ids are read as `u32`. Times and ids are unbounded naturals.
- URL parsing by the `url` crate is not modelled. `Origins.Url` holds the parts the import reads: scheme, host, origin port with the default filled in, opacity and text. That two entries with the same text parse alike is the assumption `Takeout.ParsedUrls`.
- Reading and deserialising the takeout file (`serde_json`, `File`, `BufReader`) and command-line parsing (`clap`) are left out: the entries are a parameter.
- The `eprintln!` messages are left out. A reported failure is its index in the run's `failed` list. The message logged for a skipped existing visit has no effect on the tables and is not modelled.
- Randomness is a parameter. `rand::thread_rng` bytes are passed in, one 9-byte draw per entry, used only when that entry creates a place. The program draws for every new URL that has a host, before the hash and origin checks. Which draw a place gets differs, but every lemma about the tables holds for any draws.
- Commit durability, WAL mode and crash recovery are not modelled. A commit makes the open tables the committed ones, and a dropped transaction returns to them.
- Row ids come from one counter shared by the three tables. SQLite allocates them per table. Only freshness is used, which both give.
- Columns the import does not write are left out, apart from `visit_count`, which starts at its default 0.
- Origins.OriginKeyOf: a URL without a host gives None, like an opaque origin. The `url` crate gives some such URLs a tuple origin, a `blob:` URL for one, whose key the source would build from the inner URL. This is not observable: `find_or_insert_origin` is only called after the `expect` at src/main.rs:170-172 has required a host, as `Places.ResolvePlaceErrors` states.
- Places.ResolvePlace: the panic of `expect("URL must have a host.")` is the error value `NoHost`, which the driver turns into the end of the import. Unwinding is not modelled beyond the rollback it causes.
