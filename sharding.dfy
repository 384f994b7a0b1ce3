/** Where an identifier lives on disk (`resolve_path` and `resolve_db`): a chain of
    one-character directories taken from the end of the identifier, holding both
    the object file `<id>.bin` and that shard's small-object table `pickle.db`. */
module Sharding {
  import opened Wrappers

  const ObjectSuffix: string := ".bin"
  const TableName: string := "pickle.db"

  /** The shard subdirectory after `levels` rounds of the loop: the last, the
      second-to-last, ... character of `id`, each followed by "/". A non-positive
      level count gives the empty subdirectory. */
  function ShardDir(id: string, levels: int): (r: string)
    requires levels <= |id|
    ensures |r| == if levels <= 0 then 0 else 2 * levels
    decreases levels
  {
    if levels <= 0 then "" else ShardDir(id, levels - 1) + [id[|id| - levels], '/']
  }

  function ShardPath(root: string, levels: int, id: string): string
    requires levels <= |id|
  {
    root + "/" + ShardDir(id, levels)
  }

  /** The file that holds `id` in the file tree. */
  function ObjectPath(root: string, levels: int, id: string): string
    requires levels <= |id|
  {
    ShardPath(root, levels, id) + id + ObjectSuffix
  }

  /** The small-object table of the shard `id` belongs to. */
  function DbPath(root: string, levels: int, id: string): string
    requires levels <= |id|
  {
    ShardPath(root, levels, id) + TableName
  }

  /** Segment `i` of the shard path is the `i`-th character of `id` counted from
      its end. */
  lemma {:induction false} ShardDirAt(id: string, levels: int, i: int)
    requires 0 <= i < levels <= |id|
    ensures ShardDir(id, levels)[2 * i] == id[|id| - 1 - i]
    ensures ShardDir(id, levels)[2 * i + 1] == '/'
  {
    if i < levels - 1 {
      ShardDirAt(id, levels - 1, i);
    }
  }

  /** Two identifiers get the same shard directory exactly when their last `levels`
      characters agree. */
  lemma {:induction false} SameShardIff(a: string, b: string, levels: int)
    requires 0 <= levels <= |a| && levels <= |b|
    ensures ShardDir(a, levels) == ShardDir(b, levels) <==> a[|a| - levels..] == b[|b| - levels..]
    decreases levels
  {
    if levels > 0 {
      SameShardIff(a, b, levels - 1);
      var sa, sb := ShardDir(a, levels - 1), ShardDir(b, levels - 1);
      var ca, cb := a[|a| - levels], b[|b| - levels];
      assert a[|a| - levels..] == [ca] + a[|a| - (levels - 1)..];
      assert b[|b| - levels..] == [cb] + b[|b| - (levels - 1)..];
      if ShardDir(a, levels) == ShardDir(b, levels) {
        assert sa == ShardDir(a, levels)[..|sa|];
        assert sb == ShardDir(b, levels)[..|sb|];
        assert ca == ShardDir(a, levels)[|sa|];
      }
    }
  }

  /** The object file name embeds the whole identifier, so distinct identifiers
      never share a file, even within one shard. */
  lemma ObjectPathInjective(root: string, levels: int, a: string, b: string)
    requires levels <= |a| && levels <= |b|
    ensures ObjectPath(root, levels, a) == ObjectPath(root, levels, b) <==> a == b
  {
    if ObjectPath(root, levels, a) == ObjectPath(root, levels, b) {
      var n := |ShardPath(root, levels, a)|;
      assert n == |ShardPath(root, levels, b)|;
      assert ObjectPath(root, levels, a)[n..] == a + ObjectSuffix;
      assert ObjectPath(root, levels, b)[n..] == b + ObjectSuffix;
      assert a == (a + ObjectSuffix)[..|a|];
      assert b == (b + ObjectSuffix)[..|b|];
    }
  }

  /** Identifiers share a small-object table exactly when their last `levels`
      characters agree. */
  lemma SameTableIff(root: string, levels: int, a: string, b: string)
    requires 0 <= levels <= |a| && levels <= |b|
    ensures DbPath(root, levels, a) == DbPath(root, levels, b) <==> a[|a| - levels..] == b[|b| - levels..]
  {
    SameShardIff(a, b, levels);
    var da, db := ShardDir(a, levels), ShardDir(b, levels);
    if DbPath(root, levels, a) == DbPath(root, levels, b) {
      var n := |root + "/"|;
      assert da == DbPath(root, levels, a)[n..n + |da|];
      assert db == DbPath(root, levels, b)[n..n + |db|];
    }
  }

  /** The position of the last "/" in `p`, or -1 when there is none. */
  function LastSeparator(p: string): (i: int)
    ensures -1 <= i < |p|
    ensures i >= 0 ==> p[i] == '/'
    ensures forall k | i < k < |p| :: p[k] != '/'
    decreases |p|
  {
    if p == [] then -1
    else if p[|p| - 1] == '/' then |p| - 1
    else LastSeparator(p[..|p| - 1])
  }

  /** The last path segment: everything after the final "/". */
  function FileName(p: string): string
  {
    p[LastSeparator(p) + 1..]
  }

  /** The name of a file placed in a directory is the name it was given, as long as
      that name holds no "/". */
  lemma {:induction false} FileNameAfterSeparator(dir: string, name: string)
    requires '/' !in name
    ensures FileName(dir + "/" + name) == name
    decreases |name|
  {
    var p := dir + "/" + name;
    if name == [] {
      assert p[|p| - 1] == '/';
    } else {
      var last := name[|name| - 1];
      assert p[|p| - 1] == last;
      assert p[..|p| - 1] == dir + "/" + name[..|name| - 1];
      FileNameAfterSeparator(dir, name[..|name| - 1]);
      assert LastSeparator(p) == LastSeparator(p[..|p| - 1]);
    }
  }

  /** The identifier a walk of the tree reports for a file: its name without
      ".bin", if it has that suffix. */
  function CidOfFile(p: string): Option<string>
  {
    var f := FileName(p);
    if |f| >= |ObjectSuffix| && f[|f| - |ObjectSuffix|..] == ObjectSuffix
    then Some(f[..|f| - |ObjectSuffix|]) else None
  }

  /** A walk reports an object file under the identifier it was stored for, as long
      as the identifier holds no "/" (true of every base-58 text). */
  lemma CidOfObjectPath(root: string, levels: int, id: string)
    requires levels <= |id| && '/' !in id
    ensures CidOfFile(ObjectPath(root, levels, id)) == Some(id)
  {
    var dir := root + "/" + ShardDir(id, levels);
    assert '/' !in id + ObjectSuffix;
    assert ObjectPath(root, levels, id) == dir[..|dir| - 1] + "/" + (id + ObjectSuffix);
    FileNameAfterSeparator(dir[..|dir| - 1], id + ObjectSuffix);
  }
}
