/** From the client's pixel to the renderer's texel: staging, the copy region, and the
    address of each texel as "Buffer and Image Addressing" of the Vulkan specification
    defines it (test-renderer/src/vulkan_texture.c), over the whole hand-off. */
module Addressing {
  import opened Options
  import opened ShmSizes
  import opened ShmResources
  import opened Handoff

  type byte = x: int | 0 <= x < 256

  const TEXEL: nat := 4

  /** The copy region of the update: bytes per texel 4, one layer, offset zero. */
  datatype Region = Region(bufferOffset: nat, rowLength: uint32, imageHeight: uint32, width: uint32, height: uint32)

  function CopyRegion(width: uint32, height: uint32, stride: uint32): Region {
    Region(0, stride / 4, height, width, height)
  }

  /** A row length of zero means tightly packed rows. */
  function RowTexels(g: Region): nat {
    if g.rowLength == 0 then g.width else g.rowLength
  }

  function TexelByte(g: Region, x: nat, y: nat): nat {
    g.bufferOffset + (y * RowTexels(g) + x) * TEXEL
  }

  // ----- The staging buffer -----

  class Uploader {
    var staging: array?<byte>
    var stagingSize: nat
    var created: nat
    var destroyed: nat

    /** One staging buffer exists exactly when the handle is set, as large as recorded. */
    ghost predicate Valid()
      reads this
    {
      && (staging != null ==> staging.Length == stagingSize)
      && created == destroyed + if staging == null then 0 else 1
    }

    constructor ()
      ensures Valid() && staging == null
    {
      staging, stagingSize, created, destroyed := null, 0, 0, 0;
    }

    /** create_staging_buffer: kept while large enough, replaced otherwise. */
    method CreateStagingBuffer(size: nat)
      requires Valid()
      modifies this
      ensures Valid() && staging != null && size <= stagingSize
      ensures if old(staging) != null && size <= old(stagingSize) then staging == old(staging)
              else fresh(staging) && stagingSize == size
    {
      if staging != null && stagingSize >= size {
        return;
      }
      if staging != null {
        destroyed := destroyed + 1;
      }
      stagingSize := size;
      staging := new byte[size](_ => 0);
      created := created + 1;
    }

    /** update_vulkan_texture_from_buffer up to recording the copy: the mapped bytes are
        copied to the start of the staging buffer. */
    method Stage(data: seq<byte>, width: uint32, height: uint32, stride: uint32) returns (region: Option<Region>)
      requires Valid()
      modifies this, staging
      ensures Valid()
      ensures region == if data == [] then None else Some(CopyRegion(width, height, stride))
      ensures data != [] ==> staging != null && |data| <= staging.Length && staging[..|data|] == data
    {
      if |data| == 0 {
        return None;
      }
      CreateStagingBuffer(|data|);
      var i := 0;
      while i < |data|
        invariant i <= |data| && staging != null && |data| <= staging.Length
        invariant Valid() && staging[..i] == data[..i]
        modifies staging
      {
        staging[i] := data[i];
        i := i + 1;
      }
      return Some(CopyRegion(width, height, stride));
    }
  }

  // ----- The whole hand-off -----

  /** The renderer's copy region for a buffer created by `r` in pool `p`, when the
      server's descriptor table is `files`: create, attach, send, receive, copy. */
  function RegionFor(p: Pool, r: Request, files: map<int, nat>): Region
    requires 0 < r.width && 0 < r.height
  {
    var b := NewBuffer(p, r);
    var info := Attach(b.request.width, b.request.height, BufferShm, b.size, b.fd);
    var f := Decoded(Encoded(info, files));
    CopyRegion(f.width, f.height, f.stride)
  }

  predicate SameBytes(r: Request, g: Region) {
    forall x: nat, y: nat :: x < r.width && y < r.height ==> TexelByte(g, x, y) == PixelByte(r, x, y)
  }

  /** The texels a row of the region takes: the announced stride has wrapped from 2^30
      texels on, and a row length of zero stands for the width. */
  function PackedRow(width: nat): nat {
    if width % 0x4000_0000 == 0 then width else width % 0x4000_0000
  }

  lemma AnnouncedRow(width: nat)
    requires 0 < width < TWO31
    ensures (width * 4) % TWO32 / 4 == width % 0x4000_0000
    ensures width < 0x4000_0000 ==> PackedRow(width) == width
  {
    if width < 0x4000_0000 {
      SmallMod(width * 4, TWO32);
    } else {
      ModIs(width * 4, 1, (width - 0x4000_0000) * 4, TWO32);
    }
  }

  lemma RegionExact(p: Pool, r: Request, files: map<int, nat>)
    requires 0 < r.width && 0 < r.height
    ensures RegionFor(p, r, files) == Region(0, r.width % 0x4000_0000, r.height, r.width, r.height)
    ensures RowTexels(RegionFor(p, r, files)) == PackedRow(r.width)
    ensures r.width < 0x4000_0000 ==> PackedRow(r.width) == r.width
  {
    var b := NewBuffer(p, r);
    var info := Attach(r.width, r.height, BufferShm, b.size, b.fd);
    SignalRoundTrip(info, files);
    AnnouncedRow(r.width);
  }

  /** Every shared-memory buffer is announced as XRGB8888, whatever the client asked for. */
  lemma AnnouncedFormatExactlyWhen(p: Pool, r: Request, files: map<int, nat>)
    requires 0 < r.width && 0 < r.height
    ensures var info := Attach(r.width, r.height, BufferShm, NewBuffer(p, r).size, NewBuffer(p, r).fd);
            && Decoded(Encoded(info, files)).format == 1
            && Decoded(Encoded(info, files)).typeStr == Some("SHM")
            && Decoded(Encoded(info, files)).formatStr == Some("SHM")
            && (Decoded(Encoded(info, files)).format == r.format <==> r.format == 1)
  {
    SignalRoundTrip(Attach(r.width, r.height, BufferShm, NewBuffer(p, r).size, NewBuffer(p, r).fd), files);
  }

  predicate AllTexelsIn(r: Request, g: Region, size: nat) {
    forall x: nat, y: nat :: x < r.width && y < r.height ==> TexelByte(g, x, y) + TEXEL <= size
  }

  /** Where the bytes of the last texel end. */
  function TexelsEnd(r: Request): int
    requires 0 < r.width
  {
    4 * ((r.height - 1) * PackedRow(r.width) + r.width)
  }

  lemma LastTexel(row: nat, w: nat, h: nat, x: nat, y: nat)
    requires x < w && y < h
    ensures (y * row + x) * 4 + 4 <= 4 * ((h - 1) * row + w)
  {
    MulMono(y, h - 1, row);
  }

  /** All texels lie in a file exactly when the last one does. */
  lemma TexelsInFileExactlyWhen(p: Pool, r: Request, files: map<int, nat>, fileSize: nat)
    requires 0 < r.width && 0 < r.height
    ensures AllTexelsIn(r, RegionFor(p, r, files), fileSize) <==> TexelsEnd(r) <= fileSize
  {
    RegionExact(p, r, files);
    var g := RegionFor(p, r, files);
    var row := PackedRow(r.width);
    if TexelsEnd(r) <= fileSize {
      forall x: nat, y: nat | x < r.width && y < r.height
        ensures TexelByte(g, x, y) + TEXEL <= fileSize
      {
        LastTexel(row, r.width, r.height, x, y);
      }
    } else {
      assert TexelByte(g, r.width - 1, r.height - 1) + TEXEL == TexelsEnd(r);
    }
  }

  lemma PackedFits(w: nat, h: nat, s: nat)
    requires 4 * w <= s && 0 < h
    ensures 4 * ((h - 1) * w + w) <= h * s
  {
    MulMono(4 * w, s, h);
    assert 4 * ((h - 1) * w + w) == (4 * w) * h;
  }

  /** For an accepted buffer whose pool fits the file, every texel the renderer copies lies in
      the mapped file, and so in the staging buffer that holds a copy of it, while the width
      is below 2^29. From there on it takes a file of 2^31 bytes or more, beyond any pool. */
  lemma TexelsInFile(p: Pool, r: Request, files: map<int, nat>, fileSize: nat)
    requires PoolSize(p.size) && Check(p.size, r).Accepted? && p.size <= fileSize
    ensures r.width < WIDTH_LIMIT ==> AllTexelsIn(r, RegionFor(p, r, files), fileSize)
    ensures r.width >= WIDTH_LIMIT && fileSize < TWO31 ==> !AllTexelsIn(r, RegionFor(p, r, files), fileSize)
  {
    TexelsInFileExactlyWhen(p, r, files, fileSize);
    if r.width < WIDTH_LIMIT {
      SizesAreExact(p.size, r);
      AnnouncedRow(r.width);
      PackedFits(r.width, r.height, r.stride);
    } else {
      MulMono(0, r.height - 1, PackedRow(r.width));
    }
  }

  /** The file the renderer maps is the pool's, while the server holds its descriptor. */
  lemma FileIsThePools(p: Pool, r: Request, files: map<int, nat>)
    requires 0 < r.width && 0 < r.height && p.fd in files
    ensures var info := Attach(r.width, r.height, BufferShm, NewBuffer(p, r).size, NewBuffer(p, r).fd);
            Decoded(Encoded(info, files)).file == Some(files[p.fd])
  {
    SignalRoundTrip(Attach(r.width, r.height, BufferShm, NewBuffer(p, r).size, p.fd), files);
  }

  predicate Packed(r: Request) {
    0 < r.width && r.offset == 0 && (r.height == 1 || r.stride == 4 * PackedRow(r.width))
  }

  lemma PackedSame(r: Request, g: Region, x: nat, y: nat)
    requires Packed(r) && g.bufferOffset == 0 && RowTexels(g) == PackedRow(r.width) && y < r.height
    ensures TexelByte(g, x, y) == PixelByte(r, x, y)
  {
    var w := PackedRow(r.width);
    if r.height == 1 {
      assert y == 0;
    } else {
      assert (y * w + x) * 4 == y * (4 * w) + 4 * x;
    }
  }

  lemma UnpackedDiffers(r: Request, g: Region)
    requires 0 < r.width && 0 < r.height && !Packed(r)
    requires g.bufferOffset == 0 && RowTexels(g) == PackedRow(r.width)
    ensures !SameBytes(r, g)
  {
    if r.offset != 0 {
      assert TexelByte(g, 0, 0) != PixelByte(r, 0, 0);
    } else {
      assert TexelByte(g, 0, 1) != PixelByte(r, 0, 1);
    }
  }

  /** The texel the renderer copies for every (x, y) comes from the bytes of the client's
      pixel (x, y) exactly when the buffer starts at offset 0 and either there is only one
      row or the client's stride is the one announced, which below 2^30 pixels is four
      bytes a pixel. */
  lemma TexelsAreThePixelsExactlyWhen(p: Pool, r: Request, files: map<int, nat>)
    requires 0 < r.width && 0 < r.height
    ensures SameBytes(r, RegionFor(p, r, files))
       <==> r.offset == 0 && (r.height == 1 || r.stride == 4 * PackedRow(r.width))
    ensures r.width < 0x4000_0000 ==> PackedRow(r.width) == r.width
  {
    RegionExact(p, r, files);
    var g := RegionFor(p, r, files);
    if Packed(r) {
      forall x: nat, y: nat | x < r.width && y < r.height
        ensures TexelByte(g, x, y) == PixelByte(r, x, y)
      {
        PackedSame(r, g, x, y);
      }
    } else {
      UnpackedDiffers(r, g);
    }
  }

  const Shifted: Request := Request(64, 16, 16, 64, ARGB8888)
  const Padded: Request := Request(0, 16, 2, 128, ARGB8888)

  /** Two requests that the server accepts and the renderer misreads: one that starts inside
      the pool, and one with padded rows. */
  lemma ShiftedAndPaddedMisread(p: Pool, files: map<int, nat>)
    requires p.size == 4096
    ensures Check(p.size, Shifted).Accepted? && !SameBytes(Shifted, RegionFor(p, Shifted, files))
    ensures Check(p.size, Padded).Accepted? && !SameBytes(Padded, RegionFor(p, Padded, files))
  {
    RequiredSizeExact(64, 16, 64);
    RequiredSizeExact(0, 2, 128);
    assert WrapInt(64) == 64;
    TexelsAreThePixelsExactlyWhen(p, Shifted, files);
    TexelsAreThePixelsExactlyWhen(p, Padded, files);
  }

  /** The four bytes from a position. */
  function Quad(bytes: seq<byte>, at: nat): seq<byte>
    requires at + TEXEL <= |bytes|
  {
    bytes[at..at + TEXEL]
  }

  /** End to end: with the file staged, the bytes of every texel are those the client wrote
      for that pixel. */
  lemma ClientPixelsReachTheTexture(p: Pool, r: Request, files: map<int, nat>,
                                    file: seq<byte>, staging: seq<byte>, x: nat, y: nat)
    requires PoolSize(p.size) && Check(p.size, r).Accepted? && r.width < WIDTH_LIMIT
    requires r.offset == 0 && (r.height == 1 || r.stride == 4 * r.width)
    requires p.size <= |file| <= |staging| && staging[..|file|] == file
    requires x < r.width && y < r.height
    ensures 0 <= PixelByte(r, x, y) && PixelByte(r, x, y) + TEXEL <= |file|
    ensures TexelByte(RegionFor(p, r, files), x, y) + TEXEL <= |staging|
    ensures Quad(staging, TexelByte(RegionFor(p, r, files), x, y)) == Quad(file, PixelByte(r, x, y))
  {
    TexelsInFile(p, r, files, |file|);
    TexelsAreThePixelsExactlyWhen(p, r, files);
    var at := TexelByte(RegionFor(p, r, files), x, y);
    assert at == PixelByte(r, x, y);
    assert staging[..|file|][at..at + TEXEL] == staging[at..at + TEXEL];
  }
}
