/** The content-addressed half of FileBasedDataService, as functions of the store's
    state: what `know`, `know_file`, `file_store`, `known`, `recall`,
    `recall_stream`, `recall_binary`, `forget` and `list_known_cids` return and
    what they leave behind. The class in module FileBasedDs is proved against
    these functions. */
module Storage {
  import opened Wrappers
  import opened Streams
  import opened Codec
  import opened Sharding

  /** The exceptions the operations raise. */
  datatype Error =
    | IndexError   // resolve_path / resolve_db: `id[-i-1]` with more levels than characters
    | KeyError     // forget: `del db[id]` of a key the shard's table lacks
    | ReadError    // know_file: the stream's `read` raises
    | SeekError    // know_file: `fp.seek(0)` on a stream that cannot seek
    | DecodeError  // recall_stream: `decode(db[id])` of a missing entry (None)

  /** Constructor arguments: root directory, codec, `size_limit`, `levels`. */
  datatype Config = Config(root: string, codec: Codec, sizeLimit: int, levels: int)

  /** One shard's `pickle.db`: identifier -> encoded payload. */
  type Table = map<string, string>

  /** What is on disk: the file tree (path -> content) and the small-object table of
      every shard that has one (path of its `pickle.db` -> table). */
  datatype Store = Store(files: map<string, Bytes>, tables: map<string, Table>)

  /** The store after an operation, and what the operation returned or raised. */
  datatype Step<T> = Step(after: Store, out: Result<T, Error>)

  /** The table a fresh `PickleDB(path)` sees: empty when no such file exists. */
  function TableAt(s: Store, db: string): Table
  {
    if db in s.tables then s.tables[db] else map[]
  }

  /** `db.get(id)` tested for truthiness: an entry that is not the empty string. */
  predicate Present(t: Table, id: string)
  {
    id in t && t[id] != ""
  }

  /** `resolve_path(id)` and `resolve_db(id)` succeed. */
  predicate Resolvable(cfg: Config, id: string)
  {
    cfg.levels <= |id|
  }

  function ObjectFile(cfg: Config, id: string): string
    requires Resolvable(cfg, id)
  {
    ObjectPath(cfg.root, cfg.levels, id)
  }

  function TableFile(cfg: Config, id: string): string
    requires Resolvable(cfg, id)
  {
    DbPath(cfg.root, cfg.levels, id)
  }

  /** `file_store(id, data)`: write `data` to the object file of `id` unless that
      file exists. */
  function FileStore(cfg: Config, s: Store, id: string, data: Bytes): Step<()>
  {
    if !Resolvable(cfg, id) then Step(s, Err(IndexError))
    else
      var p := ObjectFile(cfg, id);
      if p !in s.files then Step(s.(files := s.files[p := data]), Ok(()))
      else Step(s, Ok(()))
  }

  /** `know(data)`: below `size_limit` bytes the payload goes, encoded, into its
      shard's table unless a truthy entry is there; otherwise into the file tree
      unless the object file exists. Returns the identifier and whether it wrote. */
  function Know(cfg: Config, s: Store, data: Bytes): Step<(string, bool)>
  {
    var id := Cid(cfg.codec, data);
    if !Resolvable(cfg, id) then Step(s, Err(IndexError))
    else if |data| < cfg.sizeLimit then
      var db := TableFile(cfg, id);
      var t := TableAt(s, db);
      if !Present(t, id) then Step(s.(tables := s.tables[db := t[id := cfg.codec.encode(data)]]), Ok((id, true)))
      else Step(s, Ok((id, false)))
    else if ObjectFile(cfg, id) !in s.files then Step(FileStore(cfg, s, id, data).after, Ok((id, true)))
    else Step(s, Ok((id, false)))
  }

  /** `know_file(fp)`: hash what is left of the stream, then, unless the object file
      exists, rewind to offset 0 and copy the whole stream into it. The small-object
      table is never consulted. */
  function KnowFile(cfg: Config, s: Store, fp: Stream): Step<(string, bool)>
  {
    if !fp.readable then Step(s, Err(ReadError))
    else
      var id := Cid(cfg.codec, Rest(fp.data, fp.pos));
      if !Resolvable(cfg, id) then Step(s, Err(IndexError))
      else if ObjectFile(cfg, id) in s.files then Step(s, Ok((id, false)))
      else if !fp.seekable then Step(s, Err(SeekError))
      else Step(s.(files := s.files[ObjectFile(cfg, id) := fp.data]), Ok((id, true)))
  }

  /** `known(id)`: a truthy table entry, or an object file. */
  function Known(cfg: Config, s: Store, id: string): Result<bool, Error>
  {
    if !Resolvable(cfg, id) then Err(IndexError)
    else Ok(Present(TableAt(s, TableFile(cfg, id)), id) || ObjectFile(cfg, id) in s.files)
  }

  /** `recall(id)`: the object file if there is one, else the decoded table entry,
      else None (also for an entry that is the empty string). */
  function Recall(cfg: Config, s: Store, id: string): Result<Option<Bytes>, Error>
  {
    if !Resolvable(cfg, id) then Err(IndexError)
    else if ObjectFile(cfg, id) in s.files then Ok(Some(s.files[ObjectFile(cfg, id)]))
    else
      var t := TableAt(s, TableFile(cfg, id));
      if !Present(t, id) then Ok(None) else Ok(Some(cfg.codec.decode(t[id])))
  }

  /** `recall_stream(id)`: the same lookup order, but a missing entry is decoded
      as None, which raises, while an empty entry is decoded like any other. */
  function RecallStream(cfg: Config, s: Store, id: string): Result<Bytes, Error>
  {
    if !Resolvable(cfg, id) then Err(IndexError)
    else if ObjectFile(cfg, id) in s.files then Ok(s.files[ObjectFile(cfg, id)])
    else
      var t := TableAt(s, TableFile(cfg, id));
      if id in t then Ok(cfg.codec.decode(t[id])) else Err(DecodeError)
  }

  /** `forget(id)`: delete the object file if there is one; only otherwise delete
      the table entry, raising when it is missing. */
  function Forget(cfg: Config, s: Store, id: string): Step<()>
  {
    if !Resolvable(cfg, id) then Step(s, Err(IndexError))
    else if ObjectFile(cfg, id) in s.files then Step(s.(files := s.files - {ObjectFile(cfg, id)}), Ok(()))
    else
      var db := TableFile(cfg, id);
      var t := TableAt(s, db);
      if id in t then Step(s.(tables := s.tables[db := t - {id}]), Ok(()))
      else Step(s, Err(KeyError))
  }

  /** Identifiers a walk of the tree reports for object files. */
  ghost function FileCids(files: set<string>): set<string>
  {
    set p | p in files && CidOfFile(p).Some? :: CidOfFile(p).value
  }

  /** Every key of every table. */
  ghost function TableCids(tables: map<string, Table>): set<string>
  {
    set db, k | db in tables && k in tables[db] :: k
  }

  /** One more file adds at most its identifier. */
  lemma FileCidsInsert(fs: set<string>, f: string)
    ensures FileCids(fs + {f}) == FileCids(fs) + (if CidOfFile(f).Some? then {CidOfFile(f).value} else {})
  {
  }

  /** Setting one table aside sets aside at most its keys. */
  lemma TableCidsRemove(tables: map<string, Table>, db: string)
    requires db in tables
    ensures TableCids(tables) == TableCids(tables - {db}) + tables[db].Keys
  {
    var m := tables - {db};
    forall k | k in TableCids(m) ensures k in TableCids(tables) {
      var d :| d in m && k in m[d];
      assert d in tables && k in tables[d];
    }
    forall k | k in tables[db].Keys ensures k in TableCids(tables) {
      assert db in tables && k in tables[db];
    }
    forall k | k in TableCids(tables) ensures k in TableCids(m) + tables[db].Keys {
      var d :| d in tables && k in tables[d];
      if d != db {
        assert d in m && k in m[d];
      }
    }
  }

  /** What `list_known_cids()` yields, as a set. */
  ghost function ListedCids(s: Store): set<string>
  {
    FileCids(s.files.Keys) + TableCids(s.tables)
  }

  /** Every stored object is filed under the identifier of its content. */
  ghost predicate Consistent(cfg: Config, s: Store)
  {
    && (forall id | Resolvable(cfg, id) && ObjectFile(cfg, id) in s.files ::
          Cid(cfg.codec, s.files[ObjectFile(cfg, id)]) == id)
    && (forall id | Resolvable(cfg, id) && Present(TableAt(s, TableFile(cfg, id)), id) ::
          Cid(cfg.codec, cfg.codec.decode(TableAt(s, TableFile(cfg, id))[id])) == id)
  }

  // ---------------------------------------------------------------------------
  // file_store

  /** `file_store` never overwrites: an existing object file keeps its content and
      the store is unchanged; a missing one is created with `data`. Either way no
      other file and no table changes. */
  lemma FileStoreNoOverwrite(cfg: Config, s: Store, id: string, data: Bytes)
    requires Resolvable(cfg, id)
    ensures var f, p := FileStore(cfg, s, id, data), ObjectFile(cfg, id);
      && f.out.Ok?
      && f.after.tables == s.tables
      && p in f.after.files
      && f.after.files[p] == (if p in s.files then s.files[p] else data)
      && (forall q | q != p :: q in f.after.files <==> q in s.files)
      && (forall q | q != p && q in s.files :: f.after.files[q] == s.files[q])
  {
  }

  // ---------------------------------------------------------------------------
  // know: placement

  /** A payload below the size limit is written to its shard's table only when the
      table has no truthy entry for it, where it then reads back as the payload;
      no object file appears and no other table changes. */
  lemma KnowSmall(cfg: Config, s: Store, data: Bytes)
    requires ValidCodec(cfg.codec)
    requires Resolvable(cfg, Cid(cfg.codec, data)) && |data| < cfg.sizeLimit
    ensures var id, k := Cid(cfg.codec, data), Know(cfg, s, data);
      && k.out == Ok((id, !Present(TableAt(s, TableFile(cfg, id)), id)))
      && k.after.files == s.files
      && (forall db | db != TableFile(cfg, id) :: TableAt(k.after, db) == TableAt(s, db))
      && TableAt(k.after, TableFile(cfg, id)) - {id} == TableAt(s, TableFile(cfg, id)) - {id}
      && (k.out.value.1 ==> cfg.codec.decode(TableAt(k.after, TableFile(cfg, id))[id]) == data)
      && (!k.out.value.1 ==> k.after == s)
  {
  }

  /** A payload of at least the size limit goes to the file tree only: the tables
      are untouched, and the object file is created exactly when it was missing. */
  lemma KnowLarge(cfg: Config, s: Store, data: Bytes)
    requires Resolvable(cfg, Cid(cfg.codec, data)) && |data| >= cfg.sizeLimit
    ensures var id, k := Cid(cfg.codec, data), Know(cfg, s, data);
      && k.out == Ok((id, ObjectFile(cfg, id) !in s.files))
      && k.after.tables == s.tables
      && ObjectFile(cfg, id) in k.after.files
      && (k.out.value.1 ==> k.after.files == s.files[ObjectFile(cfg, id) := data])
      && (!k.out.value.1 ==> k.after == s)
  {
  }

  /** The boundary: a payload of exactly `size_limit` bytes never enters a table. */
  lemma KnowAtSizeLimit(cfg: Config, s: Store, data: Bytes)
    requires Resolvable(cfg, Cid(cfg.codec, data)) && |data| == cfg.sizeLimit
    ensures Know(cfg, s, data).after.tables == s.tables
    ensures ObjectFile(cfg, Cid(cfg.codec, data)) in Know(cfg, s, data).after.files
  {
    KnowLarge(cfg, s, data);
  }

  // ---------------------------------------------------------------------------
  // know: deduplication

  /** A second `know` of the same payload returns the same identifier, reports it
      as already known and changes nothing, unless the payload is small and
      encodes to the empty string. */
  lemma KnowIdempotent(cfg: Config, s: Store, data: Bytes)
    requires Know(cfg, s, data).out.Ok?
    requires |data| >= cfg.sizeLimit || cfg.codec.encode(data) != ""
    ensures var k := Know(cfg, s, data);
      Know(cfg, k.after, data) == Step(k.after, Ok((k.out.value.0, false)))
  {
  }

  /** The truthiness test does not recognise an empty encoding: a small payload that
      encodes to "" and was not known is reported new on every call, and `recall`
      still cannot find it. */
  lemma EmptyEncodingNeverDeduplicates(cfg: Config, s: Store, data: Bytes)
    requires Known(cfg, s, Cid(cfg.codec, data)) == Ok(false) && |data| < cfg.sizeLimit
    requires cfg.codec.encode(data) == ""
    ensures var id, k := Cid(cfg.codec, data), Know(cfg, s, data);
      && k.out == Ok((id, true))
      && Know(cfg, k.after, data).out == Ok((id, true))
      && Recall(cfg, k.after, id) == Ok(None)
  {
  }

  // ---------------------------------------------------------------------------
  // recall after know

  /** Round trip: a payload stored under an identifier that was not known comes back
      byte for byte (an empty encoding excepted, see above). */
  lemma RecallAfterKnowUnknown(cfg: Config, s: Store, data: Bytes)
    requires ValidCodec(cfg.codec)
    requires Known(cfg, s, Cid(cfg.codec, data)) == Ok(false)
    requires |data| >= cfg.sizeLimit || cfg.codec.encode(data) != ""
    ensures Know(cfg, s, data).out == Ok((Cid(cfg.codec, data), true))
    ensures Recall(cfg, Know(cfg, s, data).after, Cid(cfg.codec, data)) == Ok(Some(data))
  {
  }

  /** Round trip on a consistent store: whatever was there before, `recall` of the
      identifier `know` returns yields a payload with the same digest. */
  lemma RecallAfterKnow(cfg: Config, s: Store, data: Bytes)
    requires ValidCodec(cfg.codec) && Consistent(cfg, s)
    requires Know(cfg, s, data).out.Ok?
    requires |data| >= cfg.sizeLimit || cfg.codec.encode(data) != ""
    ensures var r := Recall(cfg, Know(cfg, s, data).after, Cid(cfg.codec, data));
      r.Ok? && r.value.Some? && cfg.codec.hash(r.value.value) == cfg.codec.hash(data)
  {
    var id, k := Cid(cfg.codec, data), Know(cfg, s, data);
    var r := Recall(cfg, k.after, id);
    KnowPreservesConsistent(cfg, s, data);
    assert r.Ok? && r.value.Some?;
    assert Cid(cfg.codec, r.value.value) == id;
    CidIffSameDigest(cfg.codec, r.value.value, data);
  }

  /** `know` stores nothing under another identifier's name. */
  lemma {:induction false} KnowLeavesOtherIds(cfg: Config, s: Store, data: Bytes, other: string)
    requires Know(cfg, s, data).out.Ok? && other != Cid(cfg.codec, data)
    ensures Recall(cfg, Know(cfg, s, data).after, other) == Recall(cfg, s, other)
    ensures Known(cfg, Know(cfg, s, data).after, other) == Known(cfg, s, other)
  {
    var id := Cid(cfg.codec, data);
    if Resolvable(cfg, other) {
      ObjectPathInjective(cfg.root, cfg.levels, id, other);
    }
  }

  // ---------------------------------------------------------------------------
  // know_file

  /** `know_file` always targets the file tree, whatever the size: tables are never
      touched, it reports the identifier as new exactly when the object file was
      missing, and a new object reads back as the whole stream. */
  lemma KnowFileTargetsFileTree(cfg: Config, s: Store, fp: Stream)
    requires fp.readable && fp.seekable && Resolvable(cfg, Cid(cfg.codec, Rest(fp.data, fp.pos)))
    ensures var id, k := Cid(cfg.codec, Rest(fp.data, fp.pos)), KnowFile(cfg, s, fp);
      && k.after.tables == s.tables
      && k.out == Ok((id, ObjectFile(cfg, id) !in s.files))
      && (k.out.value.1 ==> Recall(cfg, k.after, id) == Ok(Some(fp.data)))
  {
  }

  /** Whatever the stream and whatever the outcome, `know_file` leaves every table
      as it was and at most adds the object file of the stream's identifier. */
  lemma KnowFileNeverTouchesTables(cfg: Config, s: Store, fp: Stream)
    ensures var k := KnowFile(cfg, s, fp);
      && k.after.tables == s.tables
      && (k.out.Err? ==> k.after == s)
      && (k.out.Ok? && !k.out.value.1 ==> k.after == s)
      && (k.out.Ok? && k.out.value.1 ==>
            k.after.files == s.files[ObjectFile(cfg, k.out.value.0) := fp.data])
  {
  }

  /** Since `know_file` ignores the tables, a small payload stored by `know` and then
      by `know_file` ends up in both places, and `know_file` reports it as new. */
  lemma KnowThenKnowFile(cfg: Config, s: Store, data: Bytes)
    requires Known(cfg, s, Cid(cfg.codec, data)) == Ok(false)
    requires |data| < cfg.sizeLimit && cfg.codec.encode(data) != ""
    ensures var id := Cid(cfg.codec, data);
      var k1 := Know(cfg, s, data);
      var k2 := KnowFile(cfg, k1.after, Stream(data, 0, true, true));
      && k2.out == Ok((id, true))
      && Present(TableAt(k2.after, TableFile(cfg, id)), id)
      && k2.after.files[ObjectFile(cfg, id)] == data
  {
    assert Rest(data, 0) == data;
  }

  // ---------------------------------------------------------------------------
  // lookup

  /** `known` agrees with `recall`: an identifier is known exactly when recall
      finds something for it. */
  lemma KnownIffRecallable(cfg: Config, s: Store, id: string)
    ensures Known(cfg, s, id).Err? <==> Recall(cfg, s, id).Err?
    ensures Known(cfg, s, id) == Ok(true) <==> Recall(cfg, s, id).Ok? && Recall(cfg, s, id).value.Some?
  {
  }

  /** `recall_stream` reads what `recall` returns wherever `recall` finds something;
      where it does not, the stream raises, except for an empty entry, which it
      decodes. */
  lemma RecallStreamAgrees(cfg: Config, s: Store, id: string)
    ensures forall d :: Recall(cfg, s, id) == Ok(Some(d)) ==> RecallStream(cfg, s, id) == Ok(d)
    ensures Recall(cfg, s, id) == Ok(None) ==>
      RecallStream(cfg, s, id) == Err(DecodeError) ||
      RecallStream(cfg, s, id) == Ok(cfg.codec.decode(""))
  {
  }

  // ---------------------------------------------------------------------------
  // forget

  /** The asymmetric `forget`: with an object file present only that file goes and
      every table stays as it was; otherwise only the entry for `id` leaves its
      shard's table, and when there is no such entry KeyError is raised and nothing
      changes. */
  lemma ForgetAsymmetric(cfg: Config, s: Store, id: string)
    requires Resolvable(cfg, id)
    ensures var f, p, db := Forget(cfg, s, id), ObjectFile(cfg, id), TableFile(cfg, id);
      if p in s.files then
        f == Step(Store(s.files - {p}, s.tables), Ok(()))
      else if id in TableAt(s, db) then
        f == Step(Store(s.files, s.tables[db := TableAt(s, db) - {id}]), Ok(()))
      else
        f == Step(s, Err(KeyError))
  {
  }

  /** `forget` removes nothing stored under another identifier's name. */
  lemma {:induction false} ForgetLeavesOtherIds(cfg: Config, s: Store, id: string, other: string)
    requires Forget(cfg, s, id).out.Ok? && other != id
    ensures Recall(cfg, Forget(cfg, s, id).after, other) == Recall(cfg, s, other)
    ensures Known(cfg, Forget(cfg, s, id).after, other) == Known(cfg, s, other)
  {
    if Resolvable(cfg, other) {
      ObjectPathInjective(cfg.root, cfg.levels, id, other);
    }
  }

  /** After a successful `forget`, an identifier is still known exactly when it had
      both an object file and a truthy table entry. */
  lemma KnownAfterForget(cfg: Config, s: Store, id: string)
    requires Forget(cfg, s, id).out.Ok?
    ensures Known(cfg, Forget(cfg, s, id).after, id) == Ok(true) <==>
      ObjectFile(cfg, id) in s.files && Present(TableAt(s, TableFile(cfg, id)), id)
  {
  }

  // ---------------------------------------------------------------------------
  // forget_binary

  /** `forget_binary(id)` as written: it calls `recall` on the encoded identifier,
      so it returns the payload and forgets nothing. */
  function ForgetBinaryAsWritten(cfg: Config, s: Store, id: Bytes): Step<Option<Bytes>>
  {
    Step(s, Recall(cfg, s, cfg.codec.encode(id)))
  }

  /** The discrepancy: an identifier known before `forget_binary` is still known
      after it, and its payload is handed back. */
  lemma ForgetBinaryForgetsNothing(cfg: Config, s: Store, id: Bytes)
    requires Known(cfg, s, cfg.codec.encode(id)) == Ok(true)
    ensures var f := ForgetBinaryAsWritten(cfg, s, id);
      f.after == s && Known(cfg, f.after, cfg.codec.encode(id)) == Ok(true) &&
      f.out.Ok? && f.out.value.Some?
  {
    KnownIffRecallable(cfg, s, cfg.codec.encode(id));
  }

  /** `forget_binary(id)` as evidently intended, the binary counterpart of `forget`
      the way `recall_binary` is of `recall`. */
  function ForgetBinary(cfg: Config, s: Store, id: Bytes): Step<()>
  {
    Forget(cfg, s, cfg.codec.encode(id))
  }

  /** The intended behaviour: after a successful `forget_binary` the identifier is
      no longer known, unless it was stored both as a file and in a table. */
  lemma ForgetBinaryForgets(cfg: Config, s: Store, id: Bytes)
    requires ForgetBinary(cfg, s, id).out.Ok?
    ensures var t := cfg.codec.encode(id);
      Known(cfg, ForgetBinary(cfg, s, id).after, t) == Ok(true) <==>
        ObjectFile(cfg, t) in s.files && Present(TableAt(s, TableFile(cfg, t)), t)
  {
    KnownAfterForget(cfg, s, cfg.codec.encode(id));
  }

  // ---------------------------------------------------------------------------
  // consistency is kept

  lemma {:induction false} KnowPreservesConsistent(cfg: Config, s: Store, data: Bytes)
    requires ValidCodec(cfg.codec) && Consistent(cfg, s)
    ensures Consistent(cfg, Know(cfg, s, data).after)
  {
    var id, k := Cid(cfg.codec, data), Know(cfg, s, data);
    if Resolvable(cfg, id) {
      forall other | Resolvable(cfg, other) && ObjectFile(cfg, other) in k.after.files
        ensures Cid(cfg.codec, k.after.files[ObjectFile(cfg, other)]) == other
      {
        ObjectPathInjective(cfg.root, cfg.levels, id, other);
      }
    }
  }

  /** A stream stored from offset 0 is filed under the identifier of its content. */
  lemma {:induction false} KnowFilePreservesConsistent(cfg: Config, s: Store, fp: Stream)
    requires Consistent(cfg, s) && fp.pos == 0
    ensures Consistent(cfg, KnowFile(cfg, s, fp).after)
  {
    var k := KnowFile(cfg, s, fp);
    if fp.readable {
      var id := Cid(cfg.codec, Rest(fp.data, fp.pos));
      assert Rest(fp.data, fp.pos) == fp.data;
      if Resolvable(cfg, id) {
        forall other | Resolvable(cfg, other) && ObjectFile(cfg, other) in k.after.files
          ensures Cid(cfg.codec, k.after.files[ObjectFile(cfg, other)]) == other
        {
          ObjectPathInjective(cfg.root, cfg.levels, id, other);
        }
      }
    }
  }

  lemma ForgetPreservesConsistent(cfg: Config, s: Store, id: string)
    requires Consistent(cfg, s)
    ensures Consistent(cfg, Forget(cfg, s, id).after)
  {
  }

  // ---------------------------------------------------------------------------
  // listing

  /** Every known identifier is listed (identifiers hold no "/"). The converse fails:
      table keys with empty entries are listed but not known. */
  lemma KnownAreListed(cfg: Config, s: Store, id: string)
    requires Known(cfg, s, id) == Ok(true) && '/' !in id
    ensures id in ListedCids(s)
  {
    if ObjectFile(cfg, id) in s.files {
      CidOfObjectPath(cfg.root, cfg.levels, id);
      assert id == CidOfFile(ObjectFile(cfg, id)).value;
    } else {
      assert TableFile(cfg, id) in s.tables;
    }
  }
}
