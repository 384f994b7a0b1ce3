/** Binary file objects as the storage engine and the type sniffers see them:
    the whole content, a cursor, and whether `read` and `seek` succeed. */
module Streams {

  newtype Byte = x: int | 0 <= x < 0x100
  type Bytes = seq<Byte>

  /** An open binary stream. `readable` is false when `read` raises,
      `seekable` is false when `seek` raises. */
  datatype Stream = Stream(data: Bytes, pos: nat, readable: bool, seekable: bool)

  /** What is left of `data` from `pos` on (nothing once the cursor is past the end). */
  function Rest(data: Bytes, pos: nat): Bytes
  {
    if pos >= |data| then [] else data[pos..]
  }

  /** `read(n)`: at most `n` bytes from the cursor, fewer at the end of the data. */
  function ReadAt(data: Bytes, pos: nat, n: nat): (r: Bytes)
    ensures |r| == if |Rest(data, pos)| < n then |Rest(data, pos)| else n
    ensures r == Rest(data, pos)[..|r|]
  {
    if pos >= |data| then []
    else if pos + n <= |data| then data[pos..pos + n]
    else data[pos..]
  }

  /** A read takes the next bytes off what is left: what it returns followed by what
      is left after it is what was left before, and an empty read of a positive
      count means nothing was left. */
  lemma ReadAdvances(data: Bytes, pos: nat, n: nat)
    ensures ReadAt(data, pos, n) + Rest(data, pos + |ReadAt(data, pos, n)|) == Rest(data, pos)
    ensures n > 0 && ReadAt(data, pos, n) == [] ==> Rest(data, pos) == []
  {
    var r := ReadAt(data, pos, n);
    if pos < |data| {
      assert data[pos..] == data[pos..pos + |r|] + data[pos + |r|..];
    }
  }
}
