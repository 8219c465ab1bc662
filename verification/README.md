# Deblob, modelled and proved in Dafny

Deblob gives every JSON record a permanent structural identity and carries it through a cache, a
schema vault in Redis and a transactional Kafka relay. This project models the five parts of that
path and proves what each promises.

**Reading and identity.** A bounded JSON parser with two walkers (one that builds, one that skips),
the shape of a document, and the canonical text whose hash is the identity. `Grammar` gives JSON as
syntax trees, `Recognition` shows that the parser accepts exactly those within its limits,
`Verdicts` what every text is answered, reasons included, `Spelling` that it does not matter how a string is
spelled, and `Fingerprint` that the canonical text is prefix-free and identifies a document up to field order,
element order and repetition, and scalar values. `Description` reads that text back, `Orders` says which
orders it lists keys and shapes in, and `Alphabet` spells out characters and layouts. `ParserImpl` and `Printer` are the imperative code,
proved equal to the specification the theorems speak of.

**Profiles.** Mergeable statistics of what was observed at each position of many documents.
`Counting` says what a merged profile means: at every path, exactly the numbers of observations made
there. `Optionality` and `GeneralizedIdentity` derive what the generalized view says and when two
profiles share it; `GeneralizedMeaning` reads the generalized text back against the documents.

**The vault.** Publication and semantic annotation as atomic transitions (`Publication`,
`Annotations`), runs of any transitions in any order (`VaultRuns`), the derived index
(`StructuralIndex`), what every record, revision, posting and audit event owes to the calls of a run
(`VaultHistory`), and the object whose methods are the scripts and sweeps (`Vault`).

**The relay.** What one record and one batch produce (`Routing`), the loop's code (`Relay`), runs with
aborts, crashes and restarts (`Delivery` over the books of `Ledger`), headers (`Headers`), and
settle-and-sample (`Settle`).

**The matcher.** The fingerprint cache in front of the index, over any interleaving with publishes,
rebuilds and outages (`Matcher`); where a document belongs in that index, read off the document
(`Placement`), and what the cache holds, read off its uses (`Recency`).

**All together.** `Pipeline` runs relay, matcher and vault as one system, where each record of a batch is
classified through the cache against whatever the index holds at that moment. `Provenance` traces every
committed tag back to the classifications it rests on, and those to what was filed. `Replay` says when two
runs over one index must agree.

Where code and comments disagree the model follows the code:

- `crates/deblob-redis/src/lua.rs:161-171` speaks of the fullest set of variants any publish supplied,
  but each publish overwrites the field. `VaultRuns.RebuildLosesVariant` shows the loss,
  `StructuralIndex.RebuildExactly` says exactly which publish keeps the index one that a rebuild gives back,
  and `VaultRuns.RebuildsExactly` exactly in which runs a rebuild is faithful at every moment.
- `crates/deblob-kafka/src/relay.rs:17-22` says a batch is committed or reprocessed, but after an abort
  inside the process the loop goes on without taking the consumer back
  (`crates/deblob-kafka/src/relay.rs:504-525`). `Delivery.AbortAndContinueLoses` shows the loss,
  `Delivery.DeliveredOrSkipped` says exactly which records have no output, and
  `Delivery.ExactlyOnce` proves exactly-once delivery when each aborted batch is followed by a restart.
- The optional flag of array elements compares element and array counts, so it is not monotone
  (`Optionality.ElementFlagReturns`), unlike that of object fields (`Optionality.OptionalStays`).
- Skipped objects are not checked for duplicate keys or field counts
  (`crates/deblob-fingerprint/src/parse.rs:142-172`), which is why acceptance is kept when the array
  inspection bound is lowered (`Recognition.LowerInspection`) but not when it is raised
  (`Inspection.RaisingRejects`): then it is kept exactly when the newly inspected objects bear the two
  checks (`Inspection.RaiseInspection`).
- `crates/deblob-redis/src/index.rs:271-280` calls a rebuild always safe to run, online, at any time. One
  that follows a republish with fewer variants can leave the cache naming a schema that no bucket files
  (`Matcher.RebuildForgets`). It is safe exactly when every cached entry is filed by its own schema's
  current record: `Matcher.RebuildKeepsCache` for one rebuild, `Matcher.RebuildsSafeExactly` for all answers
  over whole runs. Fullest republishes alone ensure that (`Matcher.FullestLosesNothing`).
- A bucket may hold two schemas under one fingerprint, and a lookup takes whichever it meets first
  (`crates/deblob-redis/src/index.rs:123-160`), so replaying a topic reproduces its tags exactly when
  no two schemas recorded the record's shape (`Replay.ReplayDeterministic`, `Replay.TwoSchemasOneShape`).

Text that Rust keeps as `String` is a sequence of bytes with a UTF-8 predicate where its bytes matter,
and a Dafny string where only equality does.

## Model

| member | source | states |
|---|---|---|
| Recognition.ParsesExactly | crates/deblob-fingerprint/src/parse.rs:28-359 | Parsing succeeds with document n exactly when the input is a JSON text of RFC 8259 sections 2 to 7 (paired surrogates, decoded strings UTF-8) that meets every limit, with distinct keys and bounded field counts in inspected objects, and n is what it denotes: exact number text, arrays cut to the inspection bound. |
| Recognition.LowerInspection | crates/deblob-fingerprint/src/parse.rs:174-228 | Lowering the array inspection bound never rejects an accepted input; the result is the same document with every array cut, at every depth. |
| Inspection.RaiseInspection | crates/deblob-fingerprint/src/parse.rs:112-228 | Raising the bound keeps an accepted input accepted exactly when every object that comes to be inspected, in whichever syntax tree spells the input, has distinct keys and no more fields than allowed; the old result is the new one, cut; otherwise the input is rejected as a duplicate key or for its field count. |
| Inspection.RaisingRejects | crates/deblob-fingerprint/src/parse.rs:112-172 | So acceptance is not kept upwards: an array of one object that repeats a key is accepted while no element is inspected and rejected once one is. |
| Walkers.SkipSimulatesParse | crates/deblob-fingerprint/src/parse.rs:70-99 | From any position and depth, if the inspecting walker succeeds the skipping one ends at the same place; if it fails, the skipping one fails with the same reason, unless the reason is a duplicate key or a field count, which only inspected objects are held to. |
| Walkers.MembersSimulate | crates/deblob-fingerprint/src/parse.rs:100-172 | The same, for the member loops of inspected and skipped objects, from any state of the loop. |
| Walkers.ElementsSimulate | crates/deblob-fingerprint/src/parse.rs:174-228 | The same, for the element loops, where an inspected array itself goes over to skipping. |
| Bounds.ParsedBounds | crates/deblob-fingerprint/src/parse.rs:28-315 | What an accepted input denotes nests no deeper than the bound, its inspected containers, keys and strings obey theirs, and its node count and total decoded text are each at most the input length. (The recursion bound on all inputs is that of ParseValue and SkipValue below.) |
| Utf8.DecodeEncode | crates/deblob-fingerprint/src/parse.rs:254-301 | Encoding a scalar and decoding it, whatever follows, gives the scalar and its length back. |
| Utf8.EncodeDecode | crates/deblob-fingerprint/src/parse.rs:254-301 | No scalar has two well-formed spellings: encoding the first scalar of a text gives back its bytes. |
| Orders.CodePointOrder | crates/deblob-fingerprint/src/shape.rs:57-60 | Texts are ordered by their bytes exactly as they are by their code points, the first that differs deciding. |
| Utf8.ValidConcat | crates/deblob-fingerprint/src/parse.rs:254-284 | UTF-8 well-formedness composes, so a decoded buffer may be checked once at the end. |
| Verdicts.AnswersText | crates/deblob-fingerprint/src/parse.rs:28-359 | What any JSON text is answered, its limits met or not: too long an input by its size; otherwise what a left-to-right reading of its syntax tree meets first, be it nesting past the depth bound, a string or a key past its length, a key seen before in an inspected object or one field too many, each with its own reason; and the denoted document when it meets none. |
| Spelling.ShortEscapes | crates/deblob-fingerprint/src/parse.rs:261-275 | The short escapes are exactly b, f, n, r, t, quote, backslash and slash, and each stands for the same bytes as the four digits 0008, 000c, 000a, 000d, 0009, 0022, 005c and 002f. |
| Spelling.ByNumberOrRaw | crates/deblob-fingerprint/src/parse.rs:261-301 | A scalar value may be written as its UTF-8 bytes, as four digits or, above 0xFFFF, as a surrogate pair; all stand for the same bytes. |
| Spelling.SpellingIrrelevant | crates/deblob-fingerprint/src/parse.rs:28-318 | Two texts whose trees differ only in how strings and keys spell the same bytes are answered alike, with the same document or the same reason, whenever both obey the size limit. |
| Spelling.EscapesWrittenOut | crates/deblob-fingerprint/src/parse.rs:254-318 | So writing every short escape of a text out in four digits changes nothing about its answer. |
| Spelling.NotUtf8 | crates/deblob-fingerprint/src/parse.rs:277-284 | An input that starts with a string whose pieces are well spelled but decode to no UTF-8 is refused for that, whatever follows. |
| Spelling.LoneSurrogate | crates/deblob-fingerprint/src/parse.rs:286-301 | An input that starts with a string holding half a surrogate pair is refused: as no UTF-8 if it is the second half, as a syntax error if it is the first without its second. |
| Alphabet.ValuesInText | crates/deblob-fingerprint/src/parse.rs:70-98 | The tree text of each kind of value, its words and brackets as literal characters. |
| Alphabet.NumbersInText | crates/deblob-fingerprint/src/parse.rs:320-359 | The parts of a number: an optional minus, digits without a leading zero, a point and digits, e or E with an optional sign and digits. |
| Alphabet.HexDigit | crates/deblob-fingerprint/src/parse.rs:303-318 | A hexadecimal digit stands for its place in the list of sixteen, in either case. |
| KeyOrder.BinarySearch | crates/deblob-fingerprint/src/parse.rs:112-125 | The sorted key vector: found exactly when present, otherwise an index that keeps it sorted after insertion. |
| ParserImpl.ParseBounded | crates/deblob-fingerprint/src/parse.rs:28-43 | The whole entry point computes the specification the theorems above are about: size check first, then the value, then nothing but whitespace. |
| ParserImpl.Parser.constructor | crates/deblob-fingerprint/src/parse.rs:45-50 | A parser starts at the first byte. |
| ParserImpl.Parser.SkipWs | crates/deblob-fingerprint/src/parse.rs:64-68 | Stops at the first byte that is no JSON whitespace. |
| ParserImpl.Parser.ReadHex4 | crates/deblob-fingerprint/src/parse.rs:303-318 | Reads four hexadecimal digits into 16 bits without overflow, or fails. |
| ParserImpl.Parser.ReadUnicodeEscape | crates/deblob-fingerprint/src/parse.rs:286-301 | Reads an escape or a surrogate pair; the pair arithmetic stays inside the scalar range. |
| ParserImpl.Parser.ScanRawString | crates/deblob-fingerprint/src/parse.rs:254-284 | Decodes a string up to its closing quote, escape by escape, and checks UTF-8 once at the end. |
| ParserImpl.Parser.ParseNumber | crates/deblob-fingerprint/src/parse.rs:320-359 | Scans sign, integer, fraction and exponent and keeps the exact text. |
| ParserImpl.Parser.ParseValue | crates/deblob-fingerprint/src/parse.rs:70-84 | Dispatches on the first byte; result and end position are the specified ones. Its depth never exceeds the bound, and the measure that proves termination of the six mutually recursive walks is the depth still left: on any input, accepted or not, at most 2 * (max_depth + 1) of their calls are open. |
| ParserImpl.Parser.SkipValue | crates/deblob-fingerprint/src/parse.rs:86-98 | The same dispatch without building anything, within the same recursion bound, so elements that are only skipped cannot nest deeper either. |
| ParserImpl.Parser.ParseObject | crates/deblob-fingerprint/src/parse.rs:100-140 | Depth check before descending, duplicate keys through the sorted vector, the field count checked after each push. |
| ParserImpl.Parser.SkipObject | crates/deblob-fingerprint/src/parse.rs:142-172 | Same syntax and depth, no duplicate or count check. |
| ParserImpl.Parser.ParseArray | crates/deblob-fingerprint/src/parse.rs:174-205 | Elements up to the inspection bound are kept, the rest is skipped and the array marked truncated. |
| ParserImpl.Parser.SkipArray | crates/deblob-fingerprint/src/parse.rs:207-229 | Walks every element without keeping any. |
| Shapes.StrictTotalOrder | crates/deblob-fingerprint/src/shape.rs:21-45 | The derived order on shapes, nested sets and maps included, is a strict total order. |
| Orders.ShapesBelow | crates/deblob-fingerprint/src/shape.rs:22-45 | Which order it is: by kind as declared; arrays by the first element that differs and then by emptiness; objects by the first field that differs, its key before its value. |
| Shapes.SortedSetUnique | crates/deblob-fingerprint/src/shape.rs:86-104 | A set of shapes has one sorted listing, so equal sets are equal sequences. |
| Shapes.SortedFieldsUnique | crates/deblob-fingerprint/src/shape.rs:105-111 | A map of shapes has one sorted listing. |
| Identity.SameShape | crates/deblob-fingerprint/src/shape.rs:86-111 | Two documents have one shape exactly when they differ only in field order, in order and repetition of array elements and in scalar values of one type, emptiness and truncation agreeing. |
| Identity.Collected | crates/deblob-fingerprint/src/shape.rs:89-104 | Collecting element shapes yields exactly the set of their shapes, sorted. |
| Identity.CollectedFields | crates/deblob-fingerprint/src/shape.rs:105-111 | Collecting fields yields one entry per key, holding the last value given to it. |
| RoundTrip.ParsesCanonical | crates/deblob-fingerprint/src/canon.rs:22-107 | For every well-formed shape the parser accepts its canonical text, under limits that hold it and a depth of twice the shape's, and reads exactly the document that spells it, escaped and non-ASCII keys included. |
| RoundTrip.SpelledInjective | crates/deblob-fingerprint/src/canon.rs:38-77 | Different shapes are spelled by different documents. |
| Description.CanonicalDescribes | crates/deblob-fingerprint/src/canon.rs:22-107 | Read back, the canonical text of a document describes that document: it names the kind of every value, says of each array whether it was empty, cut or neither and describes each element once, and gives for each key, in order, a description of its value; the fingerprint hashes the version tag, a zero byte and that text. |
| Alphabet.CanonicalLayout | crates/deblob-fingerprint/src/canon.rs:38-89 | The text has no blanks and its members stand in the order t, e, of or t, f. |
| Alphabet.EscapedByte | crates/deblob-fingerprint/src/canon.rs:91-107 | In a key only quote, backslash and control characters are escaped, the last as four digits in lower case. |
| Fingerprint.PrefixFree | crates/deblob-fingerprint/src/canon.rs:38-107 | If one canonical text followed by x equals another followed by y, the shapes are equal and x is y. |
| Fingerprint.ReadsPrefix | crates/deblob-fingerprint/src/canon.rs:38-107 | Whatever follows it, a canonical text is read as the document that spells its shape, and reading stops at its end. |
| Fingerprint.SameFingerprint | crates/deblob-fingerprint/src/canon.rs:30-36 | Two documents have one fingerprint, and one canonical text, exactly when they are alike in the sense above. |
| Fingerprint.ParsedIdentity | crates/deblob-fingerprint/src/shape.rs:65-111 | The same for any two accepted inputs under any limits; the shape of an accepted input is no deeper than the depth bound plus one. |
| Printer.CanonicalBytes | crates/deblob-fingerprint/src/canon.rs:22-26 | The printer starts from an empty buffer and returns the canonical text. |
| Printer.WriteShape | crates/deblob-fingerprint/src/canon.rs:38-66 | Appends exactly the canonical text of the shape to the buffer. |
| Printer.WriteShapeSet | crates/deblob-fingerprint/src/canon.rs:68-77 | Appends the elements in order with commas between them. |
| Printer.WriteJsonString | crates/deblob-fingerprint/src/canon.rs:91-107 | Walks the key scalar by scalar and appends the same bytes as escaping it byte by byte. |
| Members.BandIsLeast | crates/deblob-fingerprint/src/bucket.rs:27-34 | The band is 0 only for 0 fields and otherwise the least power of two not below the count. |
| Members.PrefixFinds | crates/deblob-fingerprint/src/bucket.rs:45-66 | A band-and-depth prefix matches exactly the bucket keys of that band and depth, whatever their key hash. |
| Members.BucketKeyInjective | crates/deblob-fingerprint/src/bucket.rs:45-54 | Bucket keys of different bands, depths or key hashes differ. |
| Members.BucketKeyHasNoEquals | crates/deblob-fingerprint/src/bucket.rs:45-54 | No bucket key holds an equals sign, which the variants field relies on, and every one lies under the prefix the index sweeps scan. |
| Placement.BucketOfDocument | crates/deblob-match/src/matcher.rs:115-166 | An accepted document is looked up under the key of its band, depth and key hash, where the band is that of its number of distinct top-level keys (0 if it is no object), the depth the least within which it nests (1 for a scalar or an empty container) and the hash that of those keys in order; and its postings are the members that start with the base32 of the hash of its canonical text. |
| Placement.AnswerOfDocument | crates/deblob-match/src/matcher.rs:106-181 | Malformed with the parser's reason if it cannot be parsed; the schema cached under the hash of its canonical text; else what the registry found, a candidate of this source and hash where it found nothing, and no answer while it is unavailable. |
| Profiles.MonoidLaws | crates/deblob-monoid/src/merge.rs:11-95 | Merging profiles is associative and commutative and the identity profile is neutral, for every profile. |
| Profiles.MergeChildren | crates/deblob-monoid/src/merge.rs:71-84 | Folding the right map into a copy of the left one merges exactly the shared keys and keeps all others. |
| Profiles.Observe | crates/deblob-monoid/src/profile.rs:154-188 | Building a node field by field, its items merged in order, its fields collected with the last duplicate winning. |
| Counting.ProfileCounts | crates/deblob-monoid/src/profile.rs:154-188 | For any documents merged in any bracketing, the node at each path exists exactly when something was observed there, and its counts and flags are exactly the numbers of matching observations. |
| Counting.MergeOrderIrrelevant | crates/deblob-monoid/src/merge.rs:23-95 | Two ways of merging the same documents, in any order and bracketing, give one and the same profile. |
| Counting.AtMerge | crates/deblob-monoid/src/merge.rs:38-95 | The node of a merge at a path is the merge of the nodes there. |
| Alphabet.NumberSpelling | crates/deblob-monoid/src/profile.rs:306-314 | A number counts as no integer exactly when it is written with a fraction or an exponent, and as a negative zero exactly when it is zero and written with a minus. |
| Optionality.OptionalExactly | crates/deblob-monoid/src/profile.rs:322-363 | A field under an object is optional exactly when some object observed at its parent lacked it. |
| Optionality.RootRequired | crates/deblob-monoid/src/profile.rs:286-290 | The root of any observed profile is required. |
| Optionality.OptionalStays | crates/deblob-monoid/src/merge.rs:38-82 | More evidence never makes an optional object field required. |
| Optionality.MoreEvidenceKeeps | crates/deblob-monoid/src/merge.rs:38-95 | More evidence removes no position and no type. |
| Optionality.ElementOptionalExactly | crates/deblob-monoid/src/profile.rs:364-367 | Array elements are called optional exactly when fewer elements than arrays were seen. |
| Optionality.ElementFlagReturns | crates/deblob-monoid/src/profile.rs:364-367 | So for elements the flag is not monotone: a concrete sequence of documents turns it on and off again. |
| Generalized.ViewsAgree | crates/deblob-monoid/src/profile.rs:322-363 | Two positions have one generalized view exactly when every path below them carries the same optional flag and types. |
| GeneralizedText.TreeSpells | crates/deblob-monoid/src/profile.rs:322-370 | The generalized text is JSON: it is spelled by the syntax tree built from the view. |
| GeneralizedMeaning.GeneralizedMeans | crates/deblob-monoid/src/profile.rs:322-391 | For documents merged in any bracketing and any path: read back, the generalized text has the position exactly when something was observed there; its types array then holds "number" exactly when a number was observed, and so for all six words, sorted and with no other entry; and its flag is true exactly when the field was ever missing, or there were fewer elements than arrays. |
| Alphabet.GeneralizedLayout | crates/deblob-monoid/src/profile.rs:322-370 | Without blanks and in the order optional, types, children, elem. |
| GeneralizedMeaning.GeneralizedFramed | crates/deblob-monoid/src/profile.rs:265-290 | What is printed and hashed frames that text with the version name, and the hash also starts with it. |
| GeneralizedIdentity.GenTextPrefixFree | crates/deblob-monoid/src/profile.rs:322-391 | From a text that starts with a generalized view, the view and the rest are determined. |
| GeneralizedIdentity.SameGeneralized | crates/deblob-monoid/src/profile.rs:265-290 | Two profiles have one generalized text, and one generalized fingerprint, exactly when optional flags, types, child keys and element presence agree at every path. |
| GeneralizedIdentity.SelfMergeSameText | crates/deblob-monoid/src/profile.rs:265-290 | Merging a profile with itself changes neither. |
| GeneralizedIdentity.GenTextValid | crates/deblob-monoid/src/profile.rs:286-290 | The generalized text is always UTF-8, so the conversion to a string never fails. |
| GeneralizedIdentity.ObservedKeysValid | crates/deblob-monoid/src/profile.rs:154-188 | Profiles built from parsed documents have UTF-8 keys throughout. |
| GeneralizedPrinter.WriteGeneralizedField | crates/deblob-monoid/src/profile.rs:322-370 | Appends exactly the generalized text of the position, keys in map order. |
| GeneralizedPrinter.GeneralizedCanonicalJson | crates/deblob-monoid/src/profile.rs:286-290 | Returns the generalized text of the root against the document count. |
| Members.SplitJoined | crates/deblob-redis/src/index.rs:65-67 | Splitting a member at its first equals sign gives its halves back exactly when the left half holds none. |
| Members.IdHolds32Bytes | crates/deblob-core/src/id.rs:28-41 | A schema id is sch_ and 52 base32 digits, in either case, that as one number of 260 bits leave the last four bits clear, so that they spell 32 bytes. |
| Members.VariantsRoundTrip | crates/deblob-redis/src/index.rs:76-100 | The variants field reads back exactly as written precisely when no bucket key holds an equals sign. |
| Publication.PublishKeepsInv | crates/deblob-redis/src/lua.rs:90-182 | Every publish, granted or refused, keeps the vault invariant. |
| Publication.AfterPublish | crates/deblob-redis/src/lua.rs:110-158 | After a granted publish the stored canonical identity, the alias and the published marker are the ones asked for, and the version returned is the marker's. |
| Publication.Republish | crates/deblob-redis/src/lua.rs:110-182 | A publish granted once is granted at any later time with its first version; at most the variants field and the schema's own postings are written again. |
| Publication.PublishExtends | crates/deblob-redis/src/lua.rs:110-158 | No publish changes a canonical form, family, version, recorded bucket, alias or published marker already written, or removes a posting. |
| VaultRuns.FamilyVersions | crates/deblob-redis/src/lua.rs:128-158 | In every reachable state, for each family, version numbers 1 to the counter and the schemas of that family are in one-to-one correspondence, agreeing with each schema's version and published marker. |
| VaultRuns.NeverChanges | crates/deblob-redis/src/lua.rs:90-182 | Over any run, whatever was written once, the audit log included, is still there unchanged at the end. |
| VaultRuns.RepeatedPublish | crates/deblob-redis/src/lua.rs:110-182 | A publish granted anywhere in a run is granted again after it with the same version; without a rebuild or another publish of that schema in between only the audit log changes. |
| VaultRuns.FirstPublish | crates/deblob-redis/src/lua.rs:132-142 | Over any run the granted first publishes into a family are numbered 1, 2, 3 and so on in their order: each gets one more than the number of those granted into it before. |
| VaultRuns.NextVersionFollows | crates/deblob-redis/src/lua.rs:132-142 | So of two first publishes into one family with none between, the later gets the next version, whatever repeated, refused or foreign publishes, appends and rebuilds came in between. |
| VaultRuns.GrantedByHistory | crates/deblob-redis/src/lua.rs:110-158 | Over any run of publishes, appends and rebuilds: a publish is granted exactly when every publish granted before agrees with it, in canonical identity if it named the same schema and in schema if it named the same candidate; a refused one changes nothing, not even the audit log. |
| VaultHistory.RecordsByHistory | crates/deblob-redis/src/lua.rs:132-158 | Over any run a schema has a record, and is listed, exactly when a publish of it was granted; record text, canonical form, canonicalizer, family and bucket are those of the first such publish, the variants field those of the last, each written as bucket, equals sign, fingerprint. |
| VaultHistory.AliasesByHistory | crates/deblob-redis/src/lua.rs:116-158 | Over any run a candidate has an alias exactly when a publish of it was granted, and it names the schema of that publish. |
| VaultHistory.IndexByHistory | crates/deblob-redis/src/index.rs:283-356 | Over any lawful run, rebuilds included: the index holds a posting exactly when some granted publish filed it and every rebuild since has filed it again, by the bucket of the first publish and the variants of the last one granted before that rebuild. |
| VaultHistory.AuditByHistory | crates/deblob-redis/src/lua.rs:175-182 | Over any run the audit log has one event for each granted call, in their order, saying who did what to which schema, why and when. |
| VaultRuns.Reachable | crates/deblob-redis/src/lua.rs:90-502 | Every state reachable by any sequence of publishes, appends and rebuilds satisfies the invariants of both halves of the vault. |
| Vault.RedisVault.Publish | crates/deblob-redis/src/lua.rs:90-182 | The script as a method: the new state and the reply are those of the specified transition. |
| Vault.RedisVault.IndexMembers | crates/deblob-redis/src/lua.rs:149-177 | The schema's own member and then each variant's are added, each to its own bucket. |
| StructuralIndex.RebuildIncluded | crates/deblob-redis/src/index.rs:283-356 | Rebuilding from the schema records alone yields at most what publishing maintained. |
| StructuralIndex.RebuildExactly | crates/deblob-redis/src/lua.rs:161-177 | A publish keeps the index equal to what a rebuild would give exactly when it keeps the recorded bucket (or names it among its variants) and names every variant recorded before. |
| StructuralIndex.NothingToReport | crates/deblob-redis/src/index.rs:367-455 | The consistency check finds nothing in any state that satisfies the invariant. |
| StructuralIndex.PostingsReported | crates/deblob-redis/src/index.rs:384-418 | In any store, whatever it has drifted to: a posting is reported as malformed exactly when it lies under the index prefix and holds no equals sign, and as dangling exactly when what follows the first one is no stored schema. |
| StructuralIndex.SchemasReported | crates/deblob-redis/src/index.rs:420-455 | In any store: a schema is reported as having no bucket, or an invalid id, or as missing from its bucket, exactly when it has that problem and none of the earlier ones. |
| StructuralIndex.SilentExactly | crates/deblob-redis/src/index.rs:367-455 | In any store the check is silent exactly when every posting under the prefix splits and names a stored schema and every stored schema has a valid id and a recorded bucket that holds its own member. |
| StructuralIndex.RebuildFiles | crates/deblob-redis/src/index.rs:283-356 | In any store with valid ids, what a rebuild leaves: sets under other keys, and for each record with a bucket its own member there and one for each recorded variant that reads back. |
| VaultRuns.IndexSound | crates/deblob-redis/src/index.rs:283-455 | In every reachable state the check reports nothing, before and after a rebuild, and a rebuild adds no posting. |
| VaultRuns.RebuildsExactly | crates/deblob-redis/src/index.rs:283-356 | Over any lawful run: a rebuild would change nothing at any moment of it exactly when every granted republish was such a fullest one. |
| VaultRuns.RebuildLosesVariant | crates/deblob-redis/src/lua.rs:161-177 | Otherwise it can lose: after a republish that names no variants, a rebuild drops the posting of any variant published first. |
| Vault.RedisVault.RebuildIndex | crates/deblob-redis/src/index.rs:283-356 | The sweep leaves exactly the postings of all records and lists all schemas, or stops at a key that is no schema id, in which case it reports that. |
| Vault.RedisVault.VerifyIndex | crates/deblob-redis/src/index.rs:367-455 | On any store the sweep reports exactly the problems above, and nothing exactly when every posting under the prefix splits and names a stored schema and every stored schema has a valid id and a recorded bucket that holds its own member. |
| Vault.RedisVault.Resolve | crates/deblob-redis/src/index.rs:123-160 | Finds a member of the bucket filed under the fingerprint, and misses only if there is none. |
| Vault.MembersAreSchemas | crates/deblob-redis/src/index.rs:123-160 | In a reachable state every member so found names a published schema, so no lookup meets a corrupt one. |
| Annotations.AppendKeepsInv | crates/deblob-redis/src/lua.rs:375-502 | Every append, whatever its outcome, keeps the annotation invariant. |
| Annotations.LaterEtag | crates/deblob-redis/src/lua.rs:394-440 | Of two granted appends to one schema the later gets the larger etag, and they cannot have expected the same one. |
| VaultRuns.AppendedByHistory | crates/deblob-redis/src/lua.rs:394-424 | Over any run an append is answered by its schema's granted appends alone: one that repeats the bytes of the last of them gets that one back, whatever its reason and etag; then a missing reason is refused; then the expected etag must be their number, and the append takes the next. What is not granted changes nothing, not even the audit log. |
| VaultRuns.OneWinner | crates/deblob-redis/src/lua.rs:394-440 | Over any run each etag is granted to at most one append, so of writers that share an expected etag at most one succeeds. |
| VaultRuns.RevisionChain | crates/deblob-redis/src/lua.rs:432-470 | In every reachable state a schema's etag is the number of its stored revisions, and the links back from the active one visit each exactly once and end at the empty id. |
| VaultHistory.RevisionsByHistory | crates/deblob-redis/src/lua.rs:379-502 | Over any lawful run the revisions of a schema are its granted appends: one each, carrying everything that was asked and the id of the one before; each expected the number of those before it; the last is active under their number with the features of its metadata. |
| VaultRuns.SemanticIndexesExact | crates/deblob-redis/src/lua.rs:464-501 | In every reachable state the reverse index, the feature postings and the population are the exact inverse of the active pointers, no frequency exceeds the population, and a semantic rebuild changes nothing. |
| Annotations.FrequencyBounded | crates/deblob-redis/src/lua.rs:512-519 | A document frequency is the number of annotated schemas with that feature. |
| Annotations.RebuildChangesNothing | crates/deblob-redis/src/semantic.rs:494-594 | Rebuilding the semantic indexes from the active pointers agrees with what the appends maintained. |
| Annotations.RebuildRepairs | crates/deblob-redis/src/semantic.rs:494-595 | In any store, whatever its indexes had drifted to: afterwards they follow from the active pointers and their revisions' metadata alone, and of a pointer only the feature list is refreshed, where its revision exists. |
| Vault.RedisVault.RebuildSemanticIndex | crates/deblob-redis/src/semantic.rs:494-595 | The sweep over the active pointers in any order leaves exactly that and counts them. |
| Vault.RedisVault.AppendRevision | crates/deblob-redis/src/lua.rs:375-502 | The script as a method: replay, reason and etag checks in order, then all writes of the specified transition. |
| Vault.RedisVault.SwapPostings | crates/deblob-redis/src/lua.rs:486-494 | The old features' postings go out before the new ones come in, so a shared feature stays. |
| Vault.RedisVault.IdfStats | crates/deblob-redis/src/lua.rs:512-519 | Replies with the population and then each frequency, in the order asked. |
| Routing.OneMainOutput | crates/deblob-kafka/src/relay.rs:736-980 | Every record leads to exactly one tagged or quarantined output, the last thing it calls for, on its own partition and with its key, its origin and its own headers without the reserved ones. |
| Routing.AllOrNothing | crates/deblob-kafka/src/relay.rs:581-722 | A committed batch adds exactly one such output per record, in order; any other outcome leaves the visible outputs and offsets alone. |
| Routing.OutcomeExactly | crates/deblob-kafka/src/relay.rs:581-722 | The outcome of a batch on the broker's answers alone: it commits exactly when it reaches no fault point, the queue took every output, every single delivery was acknowledged and the offsets were accepted, and then it commits all that its records called for, in order; the fault points are reached exactly past evidence that the queue took, or past the last delivery; in all other cases it is aborted. |
| Routing.MainRouting | crates/deblob-kafka/src/relay.rs:736-980 | Where a record's output goes and what it says: a tombstone is tagged as such, what does not fit with a margin of 16 KiB is quarantined without its payload, anything else keeps its payload and carries the settled schema or the classification, a malformed one to quarantine with its reason. |
| Routing.EvidenceExactly | crates/deblob-kafka/src/relay.rs:736-980 | Discovery evidence goes ahead of it exactly when the record was classified as provisional and its evidence fits. |
| Routing.CountersFollow | crates/deblob-kafka/src/relay.rs:736-980 | The settle counters move exactly as one event of the record's topic moves them, and not at all for a tombstone or what is too large. |
| Routing.MaxIsLargest | crates/deblob-kafka/src/relay.rs:593-616 | The offset kept for a partition is the largest the batch holds of it. |
| Delivery.CommitOffsets | crates/deblob-kafka/src/relay.rs:676-709 | A commit sets each partition of the batch to one past its largest offset there, and no other partition. |
| Delivery.AllAcknowledged | crates/deblob-kafka/src/relay.rs:640-722 | Over every run, each committed output is one that its batch called for, in a flush whose every output the queue took and whose every delivery was acknowledged, and whose offsets were accepted. |
| Delivery.AtMostOnce | crates/deblob-kafka/src/relay.rs:443-722 | Over every run of batches, aborts, crashes and restarts, no raw record has two committed outputs, outputs keep each partition's order, and each stems from a record below the committed offset. |
| Delivery.DeliveredOrSkipped | crates/deblob-kafka/src/relay.rs:495-525 | Over every run, a raw record below the committed offset lacks its output exactly when some aborted batch held it and no later restart found the committed offset at or below it. |
| Delivery.ExactlyOnce | crates/deblob-kafka/src/relay.rs:443-722 | When every aborted batch is followed by a restart before the next one, a raw record has its committed output exactly when it lies below the committed offset. |
| Delivery.AbortAndContinueLoses | crates/deblob-kafka/src/relay.rs:504-525 | Without that restart a record can be lost: a concrete run aborts a batch, goes on, and commits past it. |
| Provenance.CommittedTagsBacked | crates/deblob-kafka/src/relay.rs:443-980 | Over every joint run of relay, matcher and vault, publishes, rebuilds, aborts, crashes and restarts included: each committed Known tag was the answer to its own record or, on the fast path of a listed source, the answer to every classified record of that source in an unbroken stretch of at least max(2, settle_after) before it, all by the relay process that tagged it; and it names a published schema. |
| Provenance.ClassifiedSound | crates/deblob-match/src/matcher.rs:106-181 | Every classification of such a run is of a record read from the log, and one that names a schema names one that had been filed by then under the bucket and fingerprint of that record's own document. |
| Provenance.ClassifiedStillFiled | crates/deblob-match/src/matcher.rs:136-160 | If no rebuild lost a posting, it is filed there still. |
| Pipeline.AlwaysReady | crates/deblob-kafka/src/relay.rs:443-722 | No reachable system is stuck: the condition its steps are taken under holds of each; while the relay is up the next record of its batch can be classified; and a batch with all its answers can be committed, without skipping anything, unless a fault is configured. |
| Pipeline.ResolveStructural | crates/deblob-redis/src/index.rs:123-160 | A lookup in the vault is an honest reply: a hit names a filed member, a miss means there is none, and in any state of the vault invariant it does reply. |
| Replay.ReplayDeterministic | crates/deblob-kafka/src/relay.rs:736-980 | With settling off and a registry that is up and whose index stays as it is, all runs of relay and matcher that commit an output for a raw record commit the same one exactly when at most one schema is filed under its document's bucket and fingerprint. |
| Replay.CommitsAllowed | crates/deblob-match/src/matcher.rs:106-181 | Whatever the batches, aborts, crashes, restarts and the state of the cache, a committed output is one the fixed index allows for its raw record. |
| Replay.TwoSchemasOneShape | crates/deblob-redis/src/index.rs:123-160 | Two schemas published with one observed variant break determinism: a lookup returns whichever member it meets first, so two runs tag the same record differently. |
| Relay.ProcessBatch | crates/deblob-kafka/src/relay.rs:581-722 | The loop over records, the loop over deliveries and the commit or abort leave the broker, the counters and the outcome as specified. |
| Relay.RunTransactionBody | crates/deblob-kafka/src/relay.rs:736-980 | One record: what it enqueues, in order, and how the settle counters move. |
| Relay.CollectBatch | crates/deblob-kafka/src/relay.rs:443-491 | A batch is the shortest prefix of the arriving records that fills it, or all there are; only its last record can exceed the byte bound. |
| Headers.OneTagOut | crates/deblob-kafka/src/headers.rs:36-130 | Whatever reserved headers come in, in any case and number, exactly one schema id and one origin go out, and a reason only where the relay put it. |
| Headers.HeadersOut | crates/deblob-kafka/src/headers.rs:36-130 | What goes out is exactly the inbound headers whose keys do not start with deblob- in any case, in their order, then the schema id, the origin and, for a quarantined record, the reason, under those literal names. |
| Headers.OriginReads | crates/deblob-kafka/src/headers.rs:64-70 | The origin header reads topic, partition and offset, in that order, the numbers in decimal without leading zeros. |
| Headers.OriginInjective | crates/deblob-kafka/src/headers.rs:64-70 | The origin header names one raw record. |
| Settle.DecidesByHistory | crates/deblob-kafka/src/relay.rs:152-214 | After any records the next decision for a source is exactly what its own history of classifications calls for. |
| Settle.FastPathBacked | crates/deblob-kafka/src/relay.rs:152-174 | A fast-pathed record carries the schema that at least max(2, settle_after) latest classifications of its source agreed on without interruption, and fewer than sample_rate records in a row escape classification. |
| Settle.SettledExactly | crates/deblob-kafka/src/relay.rs:177-214 | A source is settled exactly while its latest max(2, settle_after) classifications are one known schema. |
| Settle.SourcesIndependent | crates/deblob-kafka/src/relay.rs:152-214 | Records of other sources never change a source's decision. |
| Settle.NeverSettles | crates/deblob-kafka/src/relay.rs:146-155 | A source that is not listed, or any while settling or sampling is off, is always classified and leaves no trace. |
| Settle.StepTracks | crates/deblob-kafka/src/relay.rs:152-214 | Both counters hold what the history says and stay inside 32 bits at every step. |
| Settle.SettleState.NextDecision | crates/deblob-kafka/src/relay.rs:152-174 | The in-place update before a record. |
| Settle.SettleState.Feed | crates/deblob-kafka/src/relay.rs:177-214 | The in-place update after a classification. |
| Matcher.AnswersWereFiled | crates/deblob-match/src/matcher.rs:106-181 | Over any interleaving of messages, publishes, rebuilds and outages and for every capacity: Known only for a schema that was, at some moment, filed under the document's own bucket and fingerprint, Provisional only when the index holds none now and the registry is up, Unresolved only in an outage. |
| Matcher.CachedRefinesIndex | crates/deblob-match/src/matcher.rs:106-181 | While no rebuild loses a posting, each answer is one the index allows at that very moment. |
| Matcher.FullestLosesNothing | crates/deblob-redis/src/index.rs:283-356 | No rebuild does, if every granted republish kept the bucket and named all variants recorded before: rebuilds then change nothing. |
| Matcher.RebuildForgets | crates/deblob-match/src/matcher.rs:136-160 | Otherwise the cache can outlive the index: after a republish without variants and a rebuild, a document is still answered Known although nothing files it any more. |
| Matcher.RebuildKeepsCache | crates/deblob-redis/src/index.rs:271-356 | A rebuild leaves every cached entry filed exactly when each entry is filed by the current record of its own schema, which can be looked up before the rebuild. |
| Matcher.AnswersHoldExactly | crates/deblob-match/src/matcher.rs:136-160 | Whatever document comes next, and whether the registry replies or is down, the answer is one the index allows exactly when every cached entry is filed in that index. |
| Matcher.RebuildsSafeExactly | crates/deblob-redis/src/index.rs:271-280 | Over any interleaving of messages, publishes, rebuilds and outages: at every moment every answer is one the index of that moment allows exactly when at each rebuild every cached entry is filed by its own schema's current record. |
| Matcher.VariantsResolve | crates/deblob-match/src/matcher.rs:136-166 | After a granted publish, while no rebuild loses a posting, every variant shape it recorded is answered Known, unless the registry is down and the answer is not cached. |
| Matcher.CacheAlwaysSound | crates/deblob-match/src/matcher.rs:136-160 | The cache stays within its capacity, and every entry was filed at some moment of the run. |
| Recency.CacheIsRecent | crates/deblob-match/src/matcher.rs:136-160 | Over any interleaving the cache holds the most recently used fingerprints in the order of their last use, each with the schema of that use, and lacks one that was used only if the cache is full and every entry was used since. |
| Matcher.FiledIsPublished | crates/deblob-match/src/matcher.rs:150-160 | No answer names a schema that was never published. |
| Matcher.HotMatcher.ClassifyMessage | crates/deblob-match/src/matcher.rs:106-181 | Parse, shape, fingerprint, cache, registry, in that order, with the specified answer and cache. |

## Left out

- SHA-256 is a constructor whose equal digests have equal preimages; base32 and the hash of the top-level keys are parameters. Freshness of revision ids is a precondition of an append.
- Floating-point reading of number text (`classify_numeric_bucket`, `is_neg_zero`) is a pair of function values; only what is done with their answers is modelled.
- Profiles.Observe: `from_shape`, the other constructor of a profile, is not modelled; nothing in the relay or the vault calls it.
- Counters, versions, etags, offsets, depths and lengths are natural numbers, except for the settle counters and the parser's 16-bit escapes, whose widths are kept. A version's cast to 32 bits and a band's cast to 32 bits are not modelled.
- Shapes: `BTreeSet` and `BTreeMap` are sorted sequences, and a profile's children are a map listed in key order, so the trees inside those containers are not modelled.
- Matcher.HotMatcher.ClassifyMessage: metrics, latency and logging are not modelled; the `lru` crate is a sequence ordered by recency.
- Pipeline: the classifications of one batch interleave with the vault's transitions in every order, but a lookup reads its bucket in one step.
- Replay.ReplayDeterministic: the fault point between delivery and commit, which only tests set, is excluded, since nothing is ever committed then.
- Delivery.ExactlyOnce: one relay instance owns all partitions; rebalance callbacks, fencing of a second instance and errors of the abort call itself are not modelled, and a failed commit call counts as a crash before or after the commit.
- Relay: the live-stream tap, metrics, SASL, timeouts, the linger clock (when it fires is a parameter) and the JSON text of discovery messages (its length is a function value).
- Headers: values are text, and the mapping of a schema reference to its header text is not modelled.
- Vault: SCAN and SSCAN cursors, and writers that run during a rebuild or a check; both sweeps take keys in any order on a quiet store. Redis key strings are separate maps, so callers that would pass a wrong key are not modelled.
- Vault.RedisVault.RebuildSemanticIndex: the id checks of the semantic rebuild and its check that a revision's metadata is JSON, which can only stop it on values no append writes, are not modelled.
- The variants field and the feature list are the strings of the JSON array; that array's own JSON text is not modelled.
- Candidates: `SET_STATE_SCRIPT`, `evidence.rs`, `SET_NAME_SCRIPT`, feedback, health probes and the health gate in front of a publish.
- Listing of families by bucket or band (`list_families_*`), beyond which bucket keys a band-and-depth prefix finds.
- The crates deblob-http, deblob-bench, deblob-eval, deblob-experiment, deblob-dlp, deblob-slm and deblob-coldlane, and the console.
