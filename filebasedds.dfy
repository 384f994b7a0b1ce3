/** FileBasedDataService itself: the object whose methods read and update the file
    tree, the per-shard small-object tables and the triple table. Each method is
    proved to do what the functions of modules Storage and Knowledge say. */
module FileBasedDs {
  import opened Wrappers
  import opened Streams
  import opened Codec
  import opened Sharding
  import opened Storage
  import opened Knowledge

  /** The chunk size of the two copy loops of `know_file` (100 MiB). */
  const ChunkSize: nat := 104857600

  /** The elements of a sequence. */
  function Elems<T>(r: seq<T>): set<T>
  {
    set x | x in r
  }

  /** The loop `know_file` runs twice: `read(104857600)` until a read comes back
      empty, collecting what was read. It collects exactly what was left of the
      stream and leaves the cursor at the end (or where it was, if already past it). */
  method ReadChunks(fp: Stream) returns (got: Bytes, after: Stream)
    requires fp.readable
    ensures got == Rest(fp.data, fp.pos)
    ensures after == fp.(pos := if fp.pos < |fp.data| then |fp.data| else fp.pos)
  {
    got := [];
    var pos := fp.pos;
    while true
      invariant fp.pos <= pos
      invariant got + Rest(fp.data, pos) == Rest(fp.data, fp.pos)
      invariant fp.pos < |fp.data| ==> pos <= |fp.data|
      invariant fp.pos >= |fp.data| ==> pos == fp.pos
      decreases |Rest(fp.data, pos)|
    {
      var chunk := ReadAt(fp.data, pos, ChunkSize);
      ChunkStep(fp.data, fp.pos, pos, got);
      if chunk == [] {
        break;
      }
      got := got + chunk;
      pos := pos + |chunk|;
    }
    after := fp.(pos := pos);
  }

  /** One round of the loop keeps what was collected followed by what is left equal
      to what was left at the start; an empty read ends it with the cursor at the end
      of the data. */
  lemma ChunkStep(data: Bytes, start: nat, pos: nat, got: Bytes)
    requires got + Rest(data, pos) == Rest(data, start)
    ensures var chunk := ReadAt(data, pos, ChunkSize);
      (got + chunk) + Rest(data, pos + |chunk|) == Rest(data, start) &&
      (chunk == [] ==> got == Rest(data, start) && pos >= |data|) &&
      (chunk != [] ==> pos + |chunk| <= |data| && |Rest(data, pos + |chunk|)| < |Rest(data, pos)|)
  {
    var chunk := ReadAt(data, pos, ChunkSize);
    ReadAdvances(data, pos, ChunkSize);
    assert (got + chunk) + Rest(data, pos + |chunk|) == got + (chunk + Rest(data, pos + |chunk|));
  }

  lemma ElemsConcat<T>(a: seq<T>, b: seq<T>)
    ensures Elems(a + b) == Elems(a) + Elems(b)
  {
    assert forall x :: x in a + b <==> x in a || x in b;
  }

  /** What the walk reports for one file: its identifier, if it is an object file. */
  function Reported(f: string): seq<string>
  {
    var c := CidOfFile(f);
    if c.Some? then [c.value] else []
  }

  lemma ReportedStep(r: seq<string>, done: set<string>, f: string)
    requires Elems(r) == FileCids(done)
    ensures Elems(r + Reported(f)) == FileCids(done + {f})
  {
    FileCidsInsert(done, f);
    ElemsConcat(r, Reported(f));
    assert Elems(Reported(f)) == if CidOfFile(f).Some? then {CidOfFile(f).value} else {};
  }

  lemma TablesStep(r: seq<string>, rest: map<string, Table>, db: string, keys: seq<string>)
    requires db in rest && Elems(keys) == rest[db].Keys
    ensures Elems(r + keys) + TableCids(rest - {db}) == Elems(r) + TableCids(rest)
  {
    ElemsConcat(r, keys);
    TableCidsRemove(rest, db);
  }

  /** The files half of the walk: every file whose name ends in ".bin", reported
      without that suffix. */
  method ObjectFileCids(paths: set<string>) returns (r: seq<string>)
    ensures Elems(r) == FileCids(paths)
  {
    r := [];
    var todo := paths;
    ghost var done: set<string> := {};
    while todo != {}
      invariant todo + done == paths && todo !! done
      invariant Elems(r) == FileCids(done)
      decreases |todo|
    {
      var f :| f in todo;
      ReportedStep(r, done, f);
      r := r + Reported(f);
      todo := todo - {f};
      done := done + {f};
    }
  }

  /** The tables half of the walk: `getall()` of every `pickle.db`. */
  method TableKeys(tables: map<string, Table>) returns (r: seq<string>)
    ensures Elems(r) == TableCids(tables)
  {
    r := [];
    var rest := tables;
    while rest != map[]
      invariant Elems(r) + TableCids(rest) == TableCids(tables)
      decreases |rest|
    {
      var db :| db in rest;
      var keys := Keys(rest[db]);
      TablesStep(r, rest, db, keys);
      r := r + keys;
      rest := rest - {db};
    }
    assert TableCids(rest) == {};
  }

  /** `getall()`: the keys of one table. */
  method Keys(t: Table) returns (r: seq<string>)
    ensures Elems(r) == t.Keys
  {
    r := [];
    var todo := t.Keys;
    while todo != {}
      invariant todo <= t.Keys
      invariant Elems(r) + todo == t.Keys
      decreases |todo|
    {
      var k :| k in todo;
      ElemsConcat(r, [k]);
      assert Elems([k]) == {k};
      r := r + [k];
      todo := todo - {k};
    }
  }

  /** Appending four pieces one after the other builds the same text as appending
      the last three grouped from the right. */
  lemma ConcatAssoc4(a: string, b: string, c: string, d: string)
    ensures a + b + c + d == a + (b + (c + d))
  {
  }

  class FileBasedDataService {
    const path: string
    const codec: Codec
    const sizeLimit: int
    const levels: int

    /** Object files under `path`: full path -> content. */
    var files: map<string, Bytes>
    /** Every shard's `pickle.db`: full path -> table. */
    var tables: map<string, Table>
    /** The `kb` table of `fbds-kb.db`. */
    var kb: Kb

    function Cfg(): Config
    {
      Config(path, codec, sizeLimit, levels)
    }

    function State(): Store
      reads this
    {
      Store(files, tables)
    }

    /** A service opened on a directory with the given contents; the size limit
        defaults to 256 bytes and the shard depth to 2 levels. */
    constructor (path: string, codec: Codec, files: map<string, Bytes>, tables: map<string, Table>,
                 kb: Kb, sizeLimit: int := 256, levels: int := 2)
      ensures this.path == path && this.codec == codec
      ensures this.sizeLimit == sizeLimit && this.levels == levels
      ensures this.files == files && this.tables == tables && this.kb == kb
    {
      this.path := path;
      this.codec := codec;
      this.sizeLimit := sizeLimit;
      this.levels := levels;
      this.files := files;
      this.tables := tables;
      this.kb := kb;
    }

    /** `resolve_path(id)`: the object file of `id`, one directory per level taken
        from the end of `id`; IndexError when `id` has fewer characters than levels. */
    method ResolvePath(id: string) returns (r: Result<string, Error>)
      ensures r == if Resolvable(Cfg(), id) then Ok(ObjectFile(Cfg(), id)) else Err(IndexError)
    {
      var subdir := ShardSubdir(id);
      if subdir.Err? {
        return Err(IndexError);
      }
      return Ok(path + "/" + subdir.value + id + ObjectSuffix);
    }

    /** `resolve_db(id)`: the `pickle.db` of the shard `id` belongs to. */
    method ResolveDb(id: string) returns (r: Result<string, Error>)
      ensures r == if Resolvable(Cfg(), id) then Ok(TableFile(Cfg(), id)) else Err(IndexError)
    {
      var subdir := ShardSubdir(id);
      if subdir.Err? {
        return Err(IndexError);
      }
      return Ok(path + "/" + subdir.value + TableName);
    }

    /** The loop shared by `resolve_path` and `resolve_db`: `subdir += id[-i-1] + '/'`
        for `i` in `range(levels)`. */
    method ShardSubdir(id: string) returns (r: Result<string, Error>)
      ensures r == if levels <= |id| then Ok(ShardDir(id, levels)) else Err(IndexError)
    {
      var subdir := "";
      var i := 0;
      while i < levels
        invariant 0 <= i <= |id| && (levels >= 0 ==> i <= levels) && (levels < 0 ==> i == 0)
        invariant subdir == ShardDir(id, i)
        decreases levels - i
      {
        if i >= |id| {
          // `id[-i-1]` is out of range
          return Err(IndexError);
        }
        subdir := subdir + [id[|id| - i - 1], '/'];
        i := i + 1;
      }
      return Ok(subdir);
    }

    /** `file_store(id, data)`: create the object file unless it exists. */
    method FileStore(id: string, data: Bytes) returns (r: Result<(), Error>)
      modifies this`files
      ensures Step(State(), r) == Storage.FileStore(Cfg(), old(State()), id, data)
    {
      var p := ResolvePath(id);
      if p.Err? {
        return Err(p.error);
      }
      if p.value !in files {
        files := files[p.value := data];
      }
      return Ok(());
    }

    /** `know(data)`. */
    method Know(data: Bytes) returns (r: Result<(string, bool), Error>)
      modifies this`files, this`tables
      ensures Step(State(), r) == Storage.Know(Cfg(), old(State()), data)
    {
      var id := codec.encode(codec.hash(data));
      if |data| < sizeLimit {
        var db := ResolveDb(id);
        if db.Err? {
          return Err(db.error);
        }
        var t := if db.value in tables then tables[db.value] else map[];
        if !(id in t && t[id] != "") {
          tables := tables[db.value := t[id := codec.encode(data)]];
          return Ok((id, true));
        }
        return Ok((id, false));
      } else {
        var p := ResolvePath(id);
        if p.Err? {
          return Err(p.error);
        }
        if p.value !in files {
          var _ := FileStore(id, data);
          return Ok((id, true));
        }
        return Ok((id, false));
      }
    }

    /** `know_file(fp)`: feed the hasher what is left of the stream, then, if the
        object file is missing, rewind and copy the whole stream into it. Also
        returns the stream as the call leaves it. */
    method KnowFile(fp: Stream) returns (r: Result<(string, bool), Error>, after: Stream)
      modifies this`files
      ensures Step(State(), r) == Storage.KnowFile(Cfg(), old(State()), fp)
      ensures after.data == fp.data && after.readable == fp.readable && after.seekable == fp.seekable
      ensures r.Ok? && r.value.1 ==> after.pos == |fp.data|
      ensures r.Ok? && !r.value.1 ==> after.pos == if fp.pos < |fp.data| then |fp.data| else fp.pos
    {
      if !fp.readable {
        return Err(ReadError), fp;
      }
      var hashed;
      hashed, after := ReadChunks(fp);
      var id := codec.encode(codec.hash(hashed));
      var p := ResolvePath(id);
      if p.Err? {
        return Err(p.error), after;
      }
      if p.value in files {
        return Ok((id, false)), after;
      }
      if !fp.seekable {
        return Err(SeekError), after;
      }
      var written;
      written, after := ReadChunks(after.(pos := 0));
      files := files[p.value := written];
      return Ok((id, true)), after;
    }

    /** `known(id)`. */
    method Known(id: string) returns (r: Result<bool, Error>)
      ensures r == Storage.Known(Cfg(), State(), id)
    {
      var db := ResolveDb(id);
      if db.Err? {
        return Err(db.error);
      }
      var t := if db.value in tables then tables[db.value] else map[];
      if id in t && t[id] != "" {
        return Ok(true);
      }
      var p := ResolvePath(id);
      if p.Err? {
        // resolve_db has just succeeded on the same identifier
        assert false;
      }
      return Ok(p.value in files);
    }

    /** `recall(id)`. */
    method Recall(id: string) returns (r: Result<Option<Bytes>, Error>)
      ensures r == Storage.Recall(Cfg(), State(), id)
    {
      var p := ResolvePath(id);
      if p.Err? {
        return Err(p.error);
      }
      if p.value in files {
        return Ok(Some(files[p.value]));
      }
      var db := ResolveDb(id);
      if db.Err? {
        // resolve_path has just succeeded on the same identifier
        assert false;
      }
      var t := if db.value in tables then tables[db.value] else map[];
      if !(id in t && t[id] != "") {
        return Ok(None);
      }
      return Ok(Some(codec.decode(t[id])));
    }

    /** `recall_stream(id)`: a fresh stream, at offset 0, over what is stored. */
    method RecallStream(id: string) returns (r: Result<Stream, Error>)
      ensures r.Ok? <==> Storage.RecallStream(Cfg(), State(), id).Ok?
      ensures r.Ok? ==> r.value == Stream(Storage.RecallStream(Cfg(), State(), id).value, 0, true, true)
      ensures r.Err? ==> r.error == Storage.RecallStream(Cfg(), State(), id).error
    {
      var p := ResolvePath(id);
      if p.Err? {
        return Err(p.error);
      }
      if p.value in files {
        return Ok(Stream(files[p.value], 0, true, true));
      }
      var db := ResolveDb(id);
      if db.Err? {
        // resolve_path has just succeeded on the same identifier
        assert false;
      }
      var t := if db.value in tables then tables[db.value] else map[];
      if id !in t {
        // `decode(None)`
        return Err(DecodeError);
      }
      return Ok(Stream(codec.decode(t[id]), 0, true, true));
    }

    /** `recall_binary(id)`: `recall` of the encoded raw identifier. */
    method RecallBinary(id: Bytes) returns (r: Result<Option<Bytes>, Error>)
      ensures r == Storage.Recall(Cfg(), State(), codec.encode(id))
    {
      r := Recall(codec.encode(id));
    }

    /** `forget(id)`. */
    method Forget(id: string) returns (r: Result<(), Error>)
      modifies this`files, this`tables
      ensures Step(State(), r) == Storage.Forget(Cfg(), old(State()), id)
    {
      var p := ResolvePath(id);
      if p.Err? {
        return Err(p.error);
      }
      if p.value in files {
        files := files - {p.value};
        return Ok(());
      }
      var db := ResolveDb(id);
      if db.Err? {
        // resolve_path has just succeeded on the same identifier
        assert false;
      }
      var t := if db.value in tables then tables[db.value] else map[];
      if id !in t {
        return Err(KeyError);
      }
      tables := tables[db.value := t - {id}];
      return Ok(());
    }

    /** `forget_binary(id)` as written: it calls `recall`, so nothing is forgotten. */
    method ForgetBinary(id: Bytes) returns (r: Result<Option<Bytes>, Error>)
      ensures Step(State(), r) == ForgetBinaryAsWritten(Cfg(), State(), id)
    {
      r := Recall(codec.encode(id));
    }

    /** `list_known_cids()`: the identifiers of the object files and the keys of
        every table; an identifier stored both ways is listed twice. */
    method ListKnownCids() returns (r: seq<string>)
      ensures Elems(r) == ListedCids(State())
    {
      var fromFiles := ObjectFileCids(files.Keys);
      var fromTables := TableKeys(tables);
      r := fromFiles + fromTables;
      ElemsConcat(fromFiles, fromTables);
    }

    /** `believe(subject, property, value)`. */
    method Believe(subject: Bytes, property: string, value: string) returns (id: Bytes, isNew: bool)
      modifies this`kb
      ensures Belief(kb, id, isNew) == Knowledge.Believe(codec, old(kb), subject, property, value)
    {
      var tripleText := codec.encode(subject) + "," + property + "," + value;
      id := codec.hash(Utf8(tripleText));
      if id in kb {
        return id, false;
      }
      kb := kb[id := Triple(subject, property, value)];
      return id, true;
    }

    /** `inquire(subject, property, value)`: assemble the statement and its bindings
        filter by filter, then run it. The rows are the ones agreeing with every
        given filter, provided a subject or a value is given; otherwise the
        statement does not parse. */
    method Inquire(subject: Option<Bytes>, property: Option<string>, value: Option<string>)
      returns (r: Result<set<Row>, SqlError>)
      ensures r == Knowledge.Inquire(kb, subject, property, value)
      ensures r == if subject.None? && value.None? then Err(SyntaxError)
                   else Ok(MatchingRows(kb, subject, property, value))
    {
      ghost var S, V, P := subject.Some?, value.Some?, property.Some?;
      var query := SelectPrefix;
      var params: seq<Param> := [];
      if subject.Some? {
        query := query + SubjectCond;
        params := params + [Blob(subject.value)];
      }
      assert query == SelectPrefix + SubjectPart(S);
      if value.Some? {
        var cond := (if subject.Some? then AndSep else "") + ValueCond;
        query := query + cond;
        params := params + [Text(value.value)];
      }
      assert query == SelectPrefix + SubjectPart(S) + ValuePart(S, V);
      if property.Some? {
        query := query + PropertyCond;
        params := params + [Text(property.value)];
      }
      assert query == SelectPrefix + SubjectPart(S) + ValuePart(S, V) + PropertyPart(P);
      ConcatAssoc4(SelectPrefix, SubjectPart(S), ValuePart(S, V), PropertyPart(P));
      assert params == WhereParams(subject, property, value);
      InquireMeaning(kb, subject, property, value);
      r := Execute(query, params, kb);
    }
  }
}
