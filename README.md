# cidni storage engine and file-type sniffers, in Dafny

This project models the core of cidni, a content-addressed data store.

**The storage engine.** `FileBasedDataService` keeps payloads under their content
identifier (CID). A CID is the base-58 text of a payload's multihash digest. A payload
goes to one of two places:
- a file tree, sharded by the last characters of the CID;
- a small-object table (`pickle.db`) in the same shard directory, when the payload is
  below `size_limit` bytes.

The same class keeps a triple store: a sqlite table `kb` of (subject, property, value)
facts, each identified by the digest of its text.

**The sniffers.** `typers.py` holds magic-byte sniffers that recognise PDF, ZIP, JPEG,
PNG, tar and gzip streams, and the two tables that register them.

## Modules

- `Streams` (streams.dfy): bytes, and a binary stream as its content, a cursor, and
  whether `read` and `seek` succeed.
- `Codec` (codec.dfy): the `encoder`, `decoder` and `hasher` the service is built with.
  They are constructor parameters, modelled as function-valued fields. `ValidCodec`
  is the round-trip law. The module also holds UTF-8 encoding (RFC 3629, section 3).
- `Sharding` (sharding.dfy): the shard directory, the object path and the table path,
  and the file name a tree walk reports.
- `Storage` (storage.dfy): each storage operation as a function from the store's state
  to its result and new state, with the lemmas about placement, deduplication, lookup
  order, round trips, deletion and listing.
- `Lexing` (lexing.dfy): the whitespace word splitter that sqlite's tokenizer amounts to
  for the statements `inquire` builds.
- `Knowledge` (knowledge.dfy): `believe` and `inquire` as functions of the `kb` table.
  The meaning of the SELECT statement is given by a grammar
  `col = ? (AND col = ?)*` over those words.
- `Typers` (typers.dfy): the six sniffers, and the `typers` / `archive_typers` tables.
- `FileBasedDs` (filebasedds.dfy): the class `FileBasedDataService`.
  - Its fields are the file tree, the tables and `kb`.
  - Its methods follow the Python code: the shard loop, the two `while True` read loops
    of `know_file`, and the step-by-step assembly of the query in `inquire`.
  - Each method is proved equal to the `Storage` or `Knowledge` function that specifies
    it, and the properties are proved about those functions.

Behaviours of the code that the model keeps, though a reader might not expect them:
- `know_file` checks only the file tree, not the small-object table, for an existing
  object.
- `forget` raises `KeyError` for an identifier stored nowhere, taking `del` on a
  `PickleDB` to raise for a missing key. It is not a no-op.
- `inquire` with neither a subject nor a value sends a statement sqlite rejects. It
  does not return every triple.
- `list_known_cids` lists an identifier stored both ways twice.
- The store/recall round trip fails for a small payload whose encoding is empty.

## Model

| member | source | states |
|---|---|---|
| FileBasedDs.FileBasedDataService.constructor | cidnilib/python/cidnilib/filebasedds.py:54-74 | the service keeps the root, codec, size limit (default 256) and level count (default 2) it was given, over the given file tree, tables and `kb` |
| FileBasedDs.FileBasedDataService.ShardSubdir | cidnilib/python/cidnilib/filebasedds.py:78-80 | the loop builds the last, second-to-last, ... character of the id, each followed by "/", one per level; IndexError when the id is shorter than the level count |
| FileBasedDs.FileBasedDataService.ResolvePath | cidnilib/python/cidnilib/filebasedds.py:76-84 | the object file is root + "/" + shard directory + id + ".bin", or IndexError |
| FileBasedDs.FileBasedDataService.ResolveDb | cidnilib/python/cidnilib/filebasedds.py:94-101 | the table file is root + "/" + the same shard directory + "pickle.db", or IndexError |
| FileBasedDs.FileBasedDataService.FileStore | cidnilib/python/cidnilib/filebasedds.py:86-92 | the new state and result are those of `Storage.FileStore` |
| FileBasedDs.FileBasedDataService.Know | cidnilib/python/cidnilib/filebasedds.py:132-151 | the new state and result are those of `Storage.Know` |
| FileBasedDs.FileBasedDataService.KnowFile | cidnilib/python/cidnilib/filebasedds.py:103-126 | new state and result as `Storage.KnowFile`; the stream is left at its end after a copy, and after hashing otherwise |
| FileBasedDs.FileBasedDataService.Known | cidnilib/python/cidnilib/filebasedds.py:128-130 | the answer is `Storage.Known` of the current state |
| FileBasedDs.FileBasedDataService.Recall | cidnilib/python/cidnilib/filebasedds.py:153-166 | the answer is `Storage.Recall` of the current state |
| FileBasedDs.FileBasedDataService.RecallStream | cidnilib/python/cidnilib/filebasedds.py:168-177 | a fresh readable, seekable stream at offset 0 over what `Storage.RecallStream` finds, or its error |
| FileBasedDs.FileBasedDataService.RecallBinary | cidnilib/python/cidnilib/filebasedds.py:179-180 | `recall` of the encoded raw identifier |
| FileBasedDs.FileBasedDataService.Forget | cidnilib/python/cidnilib/filebasedds.py:182-189 | the new state and result are those of `Storage.Forget` |
| FileBasedDs.FileBasedDataService.ForgetBinary | cidnilib/python/cidnilib/filebasedds.py:191-192 | as written: the state is unchanged and the result is `recall` of the encoded identifier |
| FileBasedDs.FileBasedDataService.ListKnownCids | cidnilib/python/cidnilib/filebasedds.py:194-204 | the identifiers yielded are exactly those of the object files plus every key of every table |
| FileBasedDs.FileBasedDataService.Believe | cidnilib/python/cidnilib/filebasedds.py:207-224 | the new `kb`, id and flag are those of `Knowledge.Believe` |
| FileBasedDs.FileBasedDataService.Inquire | cidnilib/python/cidnilib/filebasedds.py:226-244 | the statement built step by step is the one `Knowledge.Inquire` runs; the rows are those matching every given filter, or a syntax error when neither subject nor value is given |
| FileBasedDs.ReadChunks | cidnilib/python/cidnilib/filebasedds.py:105-110 | reading 100 MiB chunks until an empty read collects exactly what was left of the stream, and leaves the cursor at the end |
| FileBasedDs.ChunkStep | cidnilib/python/cidnilib/filebasedds.py:105-108 | one round keeps collected + left equal to what was left at the start; an empty read means the end was reached |
| FileBasedDs.ObjectFileCids | cidnilib/python/cidnilib/filebasedds.py:196-199 | the walk over files yields exactly the names of ".bin" files without the suffix |
| FileBasedDs.ReportedStep | cidnilib/python/cidnilib/filebasedds.py:197-199 | one more file adds its identifier, if it is an object file, and nothing else |
| FileBasedDs.TableKeys | cidnilib/python/cidnilib/filebasedds.py:201-204 | the walk over tables yields exactly the keys of every table |
| FileBasedDs.TablesStep | cidnilib/python/cidnilib/filebasedds.py:201-204 | taking one table's keys keeps yielded + still to visit equal to all keys |
| FileBasedDs.Keys | cidnilib/python/cidnilib/filebasedds.py:204 | `getall()` yields exactly the keys of one table |
| Streams.ReadAt | cidnilib/python/cidnilib/filebasedds.py:106 | `read(n)` returns the next min(n, bytes left) bytes after the cursor |
| Streams.ReadAdvances | cidnilib/python/cidnilib/filebasedds.py:106-108 | what a read returns followed by what is left after it is what was left before; an empty read of a positive count means nothing was left |
| Codec.EncodeInjective | cidnilib/python/cidnilib/filebasedds.py:56-57 | given the round trip, two byte strings with the same encoding are equal, and conversely |
| Codec.CidIffSameDigest | cidnilib/python/cidnilib/filebasedds.py:133-135 | two payloads get the same CID exactly when their digests are equal |
| Codec.EncodeChar | cidnilib/python/cidnilib/filebasedds.py:214 | UTF-8 gives one to four bytes, one byte exactly for ASCII and equal to it, otherwise a lead byte of at least 0xC0 |
| Codec.Utf8Concat | cidnilib/python/cidnilib/filebasedds.py:214 | the encoding of a concatenation is the concatenation of the encodings |
| Codec.Utf8Ascii | cidnilib/python/cidnilib/filebasedds.py:214 | ASCII text is encoded byte for byte |
| Sharding.ShardDir | cidnilib/python/cidnilib/filebasedds.py:78-80 | the shard directory has two characters per level, none for a non-positive level count |
| Sharding.ShardDirAt | cidnilib/python/cidnilib/filebasedds.py:79-80 | segment i of the shard directory is the i-th character of the id counted from its end, followed by "/" |
| Sharding.SameShardIff | cidnilib/python/cidnilib/filebasedds.py:79-80 | two ids share a shard directory exactly when their last `levels` characters agree |
| Sharding.ObjectPathInjective | cidnilib/python/cidnilib/filebasedds.py:83 | distinct ids never share an object file, and equal ids always do |
| Sharding.SameTableIff | cidnilib/python/cidnilib/filebasedds.py:101 | two ids share a `pickle.db` exactly when their last `levels` characters agree |
| Sharding.LastSeparator | cidnilib/python/cidnilib/filebasedds.py:196-197 | the position of the last "/" of a path, with no "/" after it |
| Sharding.FileNameAfterSeparator | cidnilib/python/cidnilib/filebasedds.py:196-197 | the walk reports a file by the name it was created with |
| Sharding.CidOfObjectPath | cidnilib/python/cidnilib/filebasedds.py:198-199 | the walk reports an object file under the id it was stored for |
| Storage.FileStoreNoOverwrite | cidnilib/python/cidnilib/filebasedds.py:86-92 | `file_store` never overwrites an existing object file and touches no other file or table |
| Storage.KnowSmall | cidnilib/python/cidnilib/filebasedds.py:136-144 | below the size limit only the shard's table entry for the id may change, it is written exactly when no truthy entry was there, it decodes to the payload, and otherwise the store is unchanged |
| Storage.KnowLarge | cidnilib/python/cidnilib/filebasedds.py:145-151 | at or above the size limit the file tree gains exactly the object file holding the payload when it was missing, and otherwise the store is unchanged; tables are untouched |
| Storage.KnowAtSizeLimit | cidnilib/python/cidnilib/filebasedds.py:136 | a payload of exactly `size_limit` bytes goes to the file tree and never into a table |
| Storage.KnowIdempotent | cidnilib/python/cidnilib/filebasedds.py:139-151 | a second `know` of the same payload returns the same id, reports it as known and changes nothing (empty encodings excepted) |
| Storage.EmptyEncodingNeverDeduplicates | cidnilib/python/cidnilib/filebasedds.py:139 | a small payload whose encoding is "" is reported new on every call and cannot be recalled |
| Storage.RecallAfterKnowUnknown | cidnilib/python/cidnilib/filebasedds.py:132-166 | storing an unknown payload and recalling its id gives back the payload |
| Storage.RecallAfterKnow | cidnilib/python/cidnilib/filebasedds.py:132-166 | on a consistent store, recall of the id `know` returns yields a payload with the same digest |
| Storage.KnowLeavesOtherIds | cidnilib/python/cidnilib/filebasedds.py:132-151 | `know` changes neither `recall` nor `known` of any other id |
| Storage.KnowFileTargetsFileTree | cidnilib/python/cidnilib/filebasedds.py:103-126 | `know_file` never touches tables, is new exactly when the object file was missing, and a new object recalls as the whole stream |
| Storage.KnowFileNeverTouchesTables | cidnilib/python/cidnilib/filebasedds.py:103-126 | for any stream, `know_file` leaves the tables as they were, changes nothing unless it reports new, and then adds only the object file holding the whole stream |
| Storage.KnowThenKnowFile | cidnilib/python/cidnilib/filebasedds.py:103-151 | a small payload stored by `know` and then by `know_file` is reported new again and ends up in both places |
| Storage.KnownIffRecallable | cidnilib/python/cidnilib/filebasedds.py:128-166 | `known` fails exactly when `recall` fails, and is true exactly when `recall` finds a payload |
| Storage.RecallStreamAgrees | cidnilib/python/cidnilib/filebasedds.py:153-177 | `recall_stream` reads what `recall` finds; where `recall` finds nothing it raises, or decodes an empty entry |
| Storage.ForgetAsymmetric | cidnilib/python/cidnilib/filebasedds.py:182-189 | the exact new store: with an object file only that file goes; otherwise only the id's entry leaves its table; with no entry KeyError and nothing changes |
| Storage.ForgetLeavesOtherIds | cidnilib/python/cidnilib/filebasedds.py:182-189 | `forget` changes neither `recall` nor `known` of any other id |
| Storage.KnownAfterForget | cidnilib/python/cidnilib/filebasedds.py:182-189 | after `forget` an id stays known exactly when it had both an object file and a truthy table entry |
| Storage.ForgetBinaryForgetsNothing | cidnilib/python/cidnilib/filebasedds.py:191-192 | as written, a known id is still known after `forget_binary`, and its payload is returned |
| Storage.ForgetBinaryForgets | cidnilib/python/cidnilib/filebasedds.py:191-192 | as intended, after `forget_binary` the id is no longer known unless it was stored both ways |
| Storage.KnowPreservesConsistent | cidnilib/python/cidnilib/filebasedds.py:132-151 | `know` keeps every object filed under the CID of its content |
| Storage.KnowFilePreservesConsistent | cidnilib/python/cidnilib/filebasedds.py:103-126 | `know_file` from offset 0 keeps every object filed under the CID of its content |
| Storage.ForgetPreservesConsistent | cidnilib/python/cidnilib/filebasedds.py:182-189 | `forget` keeps every object filed under the CID of its content |
| Storage.FileCidsInsert | cidnilib/python/cidnilib/filebasedds.py:197-199 | one more file adds at most its own identifier to the listing |
| Storage.TableCidsRemove | cidnilib/python/cidnilib/filebasedds.py:201-204 | the listed table keys are those of one table plus those of the others |
| Storage.KnownAreListed | cidnilib/python/cidnilib/filebasedds.py:194-204 | every known id is listed by `list_known_cids` |
| Knowledge.ParseConds | cidnilib/python/cidnilib/filebasedds.py:242 | a parsed WHERE clause has 4k-1 words and its k columns are the words at positions 0, 4, 8, ... |
| Knowledge.ParseCondWords | cidnilib/python/cidnilib/filebasedds.py:242 | a conjunction of column comparisons parses back to its columns |
| Knowledge.WordsOfWhere | cidnilib/python/cidnilib/filebasedds.py:229-240 | the WHERE clause `inquire` appends lexes fragment by fragment |
| Knowledge.FiltersAreConds | cidnilib/python/cidnilib/filebasedds.py:232-240 | with a subject or a value, those words are the conjunction of the compared columns |
| Knowledge.NoFilterDoesNotParse | cidnilib/python/cidnilib/filebasedds.py:229-240 | with neither, the clause is empty or begins with AND and does not parse |
| Knowledge.PrefixedQuery | cidnilib/python/cidnilib/filebasedds.py:229 | a statement with the fixed SELECT prefix is run by its WHERE clause |
| Knowledge.SatisfiesWanted | cidnilib/python/cidnilib/filebasedds.py:232-240 | a row passes the bound comparisons exactly when it agrees with every given filter |
| Knowledge.SelectedIsMatching | cidnilib/python/cidnilib/filebasedds.py:232-244 | the rows selected by those comparisons are exactly the rows matching the filters |
| Knowledge.InquireMeaning | cidnilib/python/cidnilib/filebasedds.py:226-244 | `inquire` yields exactly the rows matching every given filter when a subject or value is given, and a syntax error otherwise |
| Knowledge.BelieveAppendOnly | cidnilib/python/cidnilib/filebasedds.py:207-224 | `believe` returns the triple id, keeps every row, adds exactly one row iff the id was absent, and reports that |
| Knowledge.BelieveIdempotent | cidnilib/python/cidnilib/filebasedds.py:217-219 | believing a triple again returns the same id, not new, with `kb` unchanged |
| Knowledge.SameTextSameRow | cidnilib/python/cidnilib/filebasedds.py:211-219 | triples with the same text share an id and only the first is kept |
| Knowledge.CommaCollision | cidnilib/python/cidnilib/filebasedds.py:211 | ("a,b", "c") and ("a", "b,c") about one subject are the same triple |
| Knowledge.BelieveThenInquire | cidnilib/python/cidnilib/filebasedds.py:207-244 | a triple just believed is found by a query on its subject |
| Knowledge.TwoAssertionsOneSubject | cidnilib/python/cidnilib/filebasedds.py:207-244 | two new assertions about a fresh subject are exactly what a query by that subject returns |
| Typers.HeaderIsRest | cidnilib/python/cidnilib/typers.py:5-47 | checking a signature of at most n bytes on `read(n)` is checking it on everything after the cursor |
| Typers.IsPdfIff | cidnilib/python/cidnilib/typers.py:5-10 | `is_pdf` holds iff the stream is readable and the bytes from the cursor start with "%PDF-" |
| Typers.IsZipIff | cidnilib/python/cidnilib/typers.py:12-17 | `is_zip` holds iff the bytes from the cursor start with "PK\x03\x04" |
| Typers.IsJpgIff | cidnilib/python/cidnilib/typers.py:19-24 | `is_jpg` holds iff the bytes from the cursor start with FF D8 |
| Typers.IsPngIff | cidnilib/python/cidnilib/typers.py:27-32 | `is_png` holds iff the next 8 bytes are the PNG signature; fewer than 8 bytes left gives false |
| Typers.IsTarIff | cidnilib/python/cidnilib/typers.py:34-40 | `is_tar` holds iff bytes 257..264 are either ustar magic, whatever the cursor; shorter streams give false |
| Typers.IsGzIff | cidnilib/python/cidnilib/typers.py:42-47 | `is_gz` holds iff the bytes from the cursor start with 1F 8B |
| Typers.UnreadableHasNoType | cidnilib/python/cidnilib/typers.py:9-47 | a stream whose read raises is of no type |
| Typers.PrefixTypesExclusive | cidnilib/python/cidnilib/typers.py:5-47 | at most one of the five prefix sniffers accepts a stream |
| Typers.TypersTable | cidnilib/python/cidnilib/typers.py:74-81 | `typers` has the six extensions as keys, with the tar sniffer under "tar" only |
| Typers.ArchiveTypers | cidnilib/python/cidnilib/typers.py:83-87 | `archive_typers` is `typers` restricted to zip, tar and gz, with the same sniffers |

## Findings

| source | as written | input that shows it | evidently intended | confidence | as-written member | corrected member |
|---|---|---|---|---|---|---|
| cidnilib/python/cidnilib/filebasedds.py:191-192 | `forget_binary` returns `recall` of the encoded id and deletes nothing | any id already stored, e.g. after `know(b"abc")`, given as its raw digest | delete the object like `forget` of the encoded id, as `recall_binary` mirrors `recall` | high; not executed | Storage.ForgetBinaryForgetsNothing | Storage.ForgetBinaryForgets |

The class method `FileBasedDataService.ForgetBinary` keeps the behaviour as written.
`Storage.ForgetBinary` is the corrected definition.

## Left out

- Filesystem and database mechanics are not modelled:
  - directory creation (`os.mkdir`);
  - opening and closing files;
  - `PickleDB` persistence and `save()`;
  - the sqlite connection, the schema script, the indexes, pragmas and `commit`.

  The file tree, the tables and `kb` are plain maps.
- The constructor's `ValueError` for a missing root directory is left out. The constructor
  takes the root and the store's initial contents as they are.
- The hash algorithm and the base-58 encoder and decoder are parameters, because their
  code is not part of this model. Hashing is taken to depend only on the bytes absorbed,
  not on the chunking. A decoder that rejects its input is not modelled.
- Progress dots on standard error are output only, and are left out.
- Concurrency is left out: the race between an existence check and a write is outside a
  single-writer model.
- Storage.Forget: assumes that deleting a table entry lasts beyond the call and that
  deleting a missing key raises `KeyError`. `forget` never calls `save()` on the
  `PickleDB` that `resolve_db` opens afresh, so both depend on `PickleDB`'s own code.
  That code is not part of this model.
- FileBasedDs.FileBasedDataService.Believe: does not model the `UnicodeEncodeError` that
  UTF-8 encoding raises on a lone surrogate in the property or value. A Dafny `char`
  cannot hold a surrogate, so every modelled text encodes.
- FileBasedDs.FileBasedDataService.Known: returns a bool. The source returns the stored
  entry itself when it is truthy; only the truthiness is kept.
- FileBasedDs.FileBasedDataService.ListKnownCids: states which identifiers are listed,
  as a set. It does not state the traversal order, and it does not state how many times
  an identifier appears. An identifier stored both as a file and in a table appears
  twice.
- Knowledge.InquireMeaning: the rows are a set, because sqlite's row order is
  unspecified. `inquire` is a generator in the source; the model returns all rows at
  once.
- Typers.IsPdfIff: the sniffers are predicates of the stream. The cursor they move is
  not modelled, for any of the six.
- Sqlite's tokenizer is modelled only as far as the statements `inquire` can build. It
  is a split on blanks, and the SELECT prefix is compared literally.
- `extract_generic`, the `extractors` table and the two command-line programs run shell
  commands and do I/O. They are not part of this model.
