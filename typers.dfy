/** The magic-byte sniffers of `typers.py`: each reads a short header from a
    stream and compares it with a published file signature. A failing `read`
    or `seek` makes every sniffer answer false. */
module Typers {
  import opened Streams

  /** "%PDF-", the PDF header line (ISO 32000-1, section 7.5.2). */
  const PdfMagic: Bytes := [0x25, 0x50, 0x44, 0x46, 0x2D]
  /** "PK\x03\x04", the local file header signature (PKWARE APPNOTE, section 4.3.7). */
  const ZipMagic: Bytes := [0x50, 0x4B, 0x03, 0x04]
  /** FF D8, the SOI marker (ITU-T T.81, Table B.1). */
  const JpgMagic: Bytes := [0xFF, 0xD8]
  /** The 8-byte PNG signature (PNG Specification, Second Edition, section 5.2). */
  const PngMagic: Bytes := [0x89, 0x50, 0x4E, 0x47, 0x0D, 0x0A, 0x1A, 0x0A]
  /** "ustar\0" "00": the POSIX.1 ustar magic and version. */
  const TarMagicPosix: Bytes := [0x75, 0x73, 0x74, 0x61, 0x72, 0x00, 0x30, 0x30]
  /** "ustar  \0": the GNU tar variant. */
  const TarMagicGnu: Bytes := [0x75, 0x73, 0x74, 0x61, 0x72, 0x20, 0x20, 0x00]
  /** ID1 ID2 of a gzip member (RFC 1952, section 2.3.1). */
  const GzMagic: Bytes := [0x1F, 0x8B]
  /** Absolute offset of the magic field in a tar header block. */
  const TarMagicOffset: nat := 257

  predicate StartsWith(s: Bytes, prefix: Bytes)
  {
    |prefix| <= |s| && s[..|prefix|] == prefix
  }

  /** `stream.read(n).startswith(magic)`, false if the read raises. */
  predicate HeaderIs(st: Stream, n: nat, magic: Bytes)
  {
    st.readable && StartsWith(ReadAt(st.data, st.pos, n), magic)
  }

  predicate IsPdf(st: Stream) { HeaderIs(st, 8, PdfMagic) }
  predicate IsZip(st: Stream) { HeaderIs(st, 8, ZipMagic) }
  predicate IsJpg(st: Stream) { HeaderIs(st, 2, JpgMagic) }
  predicate IsPng(st: Stream) { HeaderIs(st, 8, PngMagic) }
  predicate IsGz(st: Stream) { HeaderIs(st, 2, GzMagic) }

  /** `stream.seek(257)`, then an 8-byte read checked against both tar magics. */
  predicate IsTar(st: Stream)
  {
    st.seekable && st.readable &&
    var magic := ReadAt(st.data, TarMagicOffset, 8);
    StartsWith(magic, TarMagicPosix) || StartsWith(magic, TarMagicGnu)
  }

  /** Reading `n` bytes is enough to see a signature of at most `n` bytes: the
      bounded read agrees with a test on everything after the cursor. */
  lemma {:induction false} HeaderIsRest(st: Stream, n: nat, magic: Bytes)
    requires |magic| <= n
    ensures HeaderIs(st, n, magic) <==> st.readable && StartsWith(Rest(st.data, st.pos), magic)
  {
    var rest := Rest(st.data, st.pos);
    var header := ReadAt(st.data, st.pos, n);
    if StartsWith(rest, magic) {
      assert header[..|magic|] == rest[..|magic|];
    }
    if StartsWith(header, magic) {
      assert rest[..|magic|] == header[..|magic|];
    }
  }

  lemma IsPdfIff(st: Stream)
    ensures IsPdf(st) <==> st.readable && StartsWith(Rest(st.data, st.pos), PdfMagic)
  {
    HeaderIsRest(st, 8, PdfMagic);
  }

  lemma IsZipIff(st: Stream)
    ensures IsZip(st) <==> st.readable && StartsWith(Rest(st.data, st.pos), ZipMagic)
  {
    HeaderIsRest(st, 8, ZipMagic);
  }

  lemma IsJpgIff(st: Stream)
    ensures IsJpg(st) <==> st.readable && StartsWith(Rest(st.data, st.pos), JpgMagic)
  {
    HeaderIsRest(st, 2, JpgMagic);
  }

  /** A stream with fewer than 8 bytes left is never a PNG. */
  lemma IsPngIff(st: Stream)
    ensures IsPng(st) <==> st.readable && StartsWith(Rest(st.data, st.pos), PngMagic)
    ensures |Rest(st.data, st.pos)| < 8 ==> !IsPng(st)
  {
    HeaderIsRest(st, 8, PngMagic);
  }

  lemma IsGzIff(st: Stream)
    ensures IsGz(st) <==> st.readable && StartsWith(Rest(st.data, st.pos), GzMagic)
  {
    HeaderIsRest(st, 2, GzMagic);
  }

  /** The tar test looks at bytes 257..264 of the whole stream, wherever the cursor
      is, and is false for streams shorter than 265 bytes. */
  lemma IsTarIff(st: Stream)
    ensures IsTar(st) <==>
      st.readable && st.seekable && |st.data| >= TarMagicOffset + 8 &&
      (st.data[TarMagicOffset..TarMagicOffset + 8] == TarMagicPosix ||
       st.data[TarMagicOffset..TarMagicOffset + 8] == TarMagicGnu)
    ensures forall p: nat :: IsTar(st.(pos := p)) == IsTar(st)
  {
    var magic := ReadAt(st.data, TarMagicOffset, 8);
    if |st.data| >= TarMagicOffset + 8 {
      assert magic == st.data[TarMagicOffset..TarMagicOffset + 8];
    } else {
      assert |magic| < 8;
    }
  }

  /** Every sniffer is total: a stream whose read raises is of no type. */
  lemma UnreadableHasNoType(st: Stream)
    requires !st.readable
    ensures !IsPdf(st) && !IsZip(st) && !IsJpg(st) && !IsPng(st) && !IsTar(st) && !IsGz(st)
  {
  }

  /** The five prefix signatures begin with five different bytes, so at most one of
      the prefix sniffers accepts a given stream. */
  lemma {:induction false} PrefixTypesExclusive(st: Stream)
    ensures (if IsPdf(st) then 1 else 0) + (if IsZip(st) then 1 else 0) + (if IsJpg(st) then 1 else 0)
          + (if IsPng(st) then 1 else 0) + (if IsGz(st) then 1 else 0) <= 1
  {
    IsPdfIff(st); IsZipIff(st); IsJpgIff(st); IsPngIff(st); IsGzIff(st);
    var rest := Rest(st.data, st.pos);
    if |rest| > 0 {
      var b := rest[0];
      assert IsPdf(st) ==> b == 0x25 by { if IsPdf(st) { assert rest[..|PdfMagic|][0] == b; } }
      assert IsZip(st) ==> b == 0x50 by { if IsZip(st) { assert rest[..|ZipMagic|][0] == b; } }
      assert IsJpg(st) ==> b == 0xFF by { if IsJpg(st) { assert rest[..|JpgMagic|][0] == b; } }
      assert IsPng(st) ==> b == 0x89 by { if IsPng(st) { assert rest[..|PngMagic|][0] == b; } }
      assert IsGz(st) ==> b == 0x1F by { if IsGz(st) { assert rest[..|GzMagic|][0] == b; } }
    }
  }

  /** The names the sniffers are registered under. */
  datatype Typer = Pdf | Zip | Jpg | Png | Tar | Gz

  predicate Classify(t: Typer, st: Stream)
  {
    match t
    case Pdf => IsPdf(st)
    case Zip => IsZip(st)
    case Jpg => IsJpg(st)
    case Png => IsPng(st)
    case Tar => IsTar(st)
    case Gz => IsGz(st)
  }

  /** The `typers` table: one entry per sniffer, under its file extension. */
  function TypersTable(): (m: map<string, Typer>)
    ensures m.Keys == {"pdf", "zip", "jpg", "png", "tar", "gz"}
    ensures forall k | k in m :: m[k] != Tar <==> k != "tar"
  {
    map["pdf" := Pdf, "zip" := Zip, "jpg" := Jpg, "png" := Png, "tar" := Tar, "gz" := Gz]
  }

  predicate IsArchiveName(k: string)
  {
    k == "zip" || k == "tar" || k == "gz"
  }

  /** The `archive_typers` table: `typers` restricted to the archive formats, with
      the very same sniffers. */
  function ArchiveTypers(): (m: map<string, Typer>)
    ensures forall k :: k in m <==> k in TypersTable() && IsArchiveName(k)
    ensures forall k | k in m :: m[k] == TypersTable()[k]
  {
    map["zip" := Zip, "tar" := Tar, "gz" := Gz]
  }
}
