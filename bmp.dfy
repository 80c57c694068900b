/**
 * The mini bitmap loader of main.cpp: it checks a two-byte signature, reads the
 * few BITMAPFILEHEADER / BITMAPINFOHEADER fields it needs at fixed positions
 * through a file cursor, and copies the pixel region [offset, size) of the file
 * into a freshly allocated buffer. The file is its contents as a byte sequence;
 * whether `fopen` succeeded is a separate flag.
 */
module Bmp {
  import opened Wrappers

  type byte = x: int | 0 <= x < 0x100

  const U16_LIMIT: nat := 0x1_0000
  const U32_LIMIT: nat := 0x1_0000_0000

  /** The end of the last header field the loader reads (the bit count, bytes 28-29). */
  const HEADER_END: nat := 30

  /** The signature bytes 'B' and 'M'. */
  const SIG_B: byte := 0x42
  const SIG_M: byte := 0x4d

  // ---------------------------------------------------------------------------
  // Little-endian fields

  /** The unsigned 16-bit little-endian value stored in s[at..at+2]. */
  function U16At(s: seq<byte>, at: nat): (v: nat)
    requires at + 2 <= |s|
    ensures v < U16_LIMIT
  {
    s[at] as int + 0x100 * s[at + 1] as int
  }

  /** The unsigned 32-bit little-endian value stored in s[at..at+4]. */
  function U32At(s: seq<byte>, at: nat): (v: nat)
    requires at + 4 <= |s|
    ensures v < U32_LIMIT
  {
    s[at] as int + 0x100 * s[at + 1] as int + 0x1_0000 * s[at + 2] as int + 0x100_0000 * s[at + 3] as int
  }

  /** The two bytes that store `v` little-endian. */
  function U16Bytes(v: nat): (s: seq<byte>)
    requires v < U16_LIMIT
    ensures |s| == 2
  {
    [v % 0x100, v / 0x100]
  }

  /** The four bytes that store `v` little-endian. */
  function U32Bytes(v: nat): (s: seq<byte>)
    requires v < U32_LIMIT
    ensures |s| == 4
  {
    [v % 0x100, (v / 0x100) % 0x100, (v / 0x1_0000) % 0x100, v / 0x100_0000]
  }

  lemma U16RoundTrip(v: nat)
    requires v < U16_LIMIT
    ensures U16At(U16Bytes(v), 0) == v
  {
  }

  lemma U32RoundTrip(v: nat)
    requires v < U32_LIMIT
    ensures U32At(U32Bytes(v), 0) == v
  {
  }

  lemma U16BytesOfField(s: seq<byte>, at: nat)
    requires at + 2 <= |s|
    ensures U16Bytes(U16At(s, at)) == s[at..at + 2]
  {
  }

  /** Splitting x = 256 q + r with a digit r recovers q and r. */
  lemma DigitSplit(x: nat, q: nat, r: nat)
    requires r < 0x100 && x == 0x100 * q + r
    ensures x / 0x100 == q && x % 0x100 == r
  {
  }

  lemma U32BytesOfField(s: seq<byte>, at: nat)
    requires at + 4 <= |s|
    ensures U32Bytes(U32At(s, at)) == s[at..at + 4]
  {
    var v := U32At(s, at);
    var q1 := s[at + 1] as int + 0x100 * s[at + 2] as int + 0x1_0000 * s[at + 3] as int;
    var q2 := s[at + 2] as int + 0x100 * s[at + 3] as int;
    DigitSplit(v, q1, s[at]);
    DigitSplit(q1, q2, s[at + 1]);
    DigitSplit(q2, s[at + 3], s[at + 2]);
  }

  // ---------------------------------------------------------------------------
  // Header layout

  /**
   * The signature test exactly as the loader writes it: an inclusive OR, so a
   * file is accepted when EITHER byte matches.
   */
  predicate SignatureAccepted(b0: byte, b1: byte)
  {
    b0 == SIG_B || b1 == SIG_M
  }

  /** The bitmap signature "BM" as the file format defines it. */
  predicate StrictSignature(b0: byte, b1: byte)
  {
    b0 == SIG_B && b1 == SIG_M
  }

  /** bfSize, bytes 2-5. */
  function FileSize(file: seq<byte>): nat
    requires |file| >= HEADER_END
  {
    U32At(file, 2)
  }

  /** bfOffBits, bytes 10-13. */
  function PixelOffset(file: seq<byte>): nat
    requires |file| >= HEADER_END
  {
    U32At(file, 10)
  }

  /** biWidth, bytes 18-21, read as unsigned. */
  function Width(file: seq<byte>): nat
    requires |file| >= HEADER_END
  {
    U32At(file, 18)
  }

  /** biHeight, bytes 22-25, read as unsigned. */
  function Height(file: seq<byte>): nat
    requires |file| >= HEADER_END
  {
    U32At(file, 22)
  }

  /** biBitCount, bytes 28-29. */
  function BitCount(file: seq<byte>): nat
    requires |file| >= HEADER_END
  {
    U16At(file, 28)
  }

  /**
   * The files on which the loader's behaviour is defined: the signature can be
   * read, and once it is accepted every header field can be read and the pixel
   * region [offset, size) lies inside the file. On a shorter file the loader
   * uses uninitialised fields, and with a size past the end its copy loop never
   * ends.
   */
  predicate Readable(file: seq<byte>)
  {
    && |file| >= 2
    && (SignatureAccepted(file[0], file[1]) ==>
          |file| >= HEADER_END && PixelOffset(file) <= FileSize(file) <= |file|)
  }

  /** What the loader hands back: the pixel buffer and the three out-parameters. */
  datatype Bitmap = Bitmap(pixels: seq<byte>, width: nat, height: nat, bits: nat)

  /** The loader's result, read off the fixed field positions. */
  function Decode(isOpen: bool, file: seq<byte>): Option<Bitmap>
    requires isOpen ==> Readable(file)
  {
    if !isOpen || !SignatureAccepted(file[0], file[1]) then None
    else Some(Bitmap(file[PixelOffset(file)..FileSize(file)], Width(file), Height(file), BitCount(file)))
  }

  // ---------------------------------------------------------------------------
  // The loader

  /**
   * The C library's `fread(dst + at, 1, count, fp)` with the file cursor at
   * `pos`: it copies as many of the requested bytes as remain in the file and
   * returns how many that was.
   */
  method Fread(file: seq<byte>, pos: nat, dst: array<byte>, at: nat, count: nat) returns (n: nat)
    requires pos <= |file| && at + count <= dst.Length
    modifies dst
    ensures n == if count <= |file| - pos then count else |file| - pos
    ensures forall k :: 0 <= k < dst.Length ==>
              dst[k] == if at <= k < at + n then file[pos + k - at] else old(dst[k])
  {
    n := if count <= |file| - pos then count else |file| - pos;
    forall k | at <= k < at + n {
      dst[k] := file[pos + k - at];
    }
  }

  /**
   * load_bmp: null when the file did not open; otherwise the signature is read,
   * and only when it is accepted are the header fields read through the cursor
   * and the pixel region copied, chunk by chunk, until the cursor reaches `size`.
   */
  method LoadBmp(isOpen: bool, file: seq<byte>) returns (r: Option<Bitmap>)
    requires isOpen ==> Readable(file)
    ensures r == Decode(isOpen, file)
    ensures r.Some? <==> isOpen && SignatureAccepted(file[0], file[1])
    ensures r.Some? ==> |r.value.pixels| == FileSize(file) - PixelOffset(file)
  {
    if !isOpen {
      return None;
    }
    var pos: nat := 0;
    var type0, type1 := file[pos], file[pos + 1];
    pos := pos + 2;
    r := None;
    if type0 == SIG_B || type1 == SIG_M {
      var size := U32At(file, pos);
      pos := pos + 4;
      pos := pos + 4;  // the two reserved two-byte fields
      var offset := U32At(file, pos);
      pos := pos + 4;
      pos := pos + 4;  // biSize
      var width := U32At(file, pos);
      pos := pos + 4;
      var height := U32At(file, pos);
      pos := pos + 4;
      pos := pos + 2;  // biPlanes
      var bits := U16At(file, pos);
      pos := pos + 2;
      assert size == FileSize(file) && offset == PixelOffset(file);

      var buf := new byte[size - offset];
      var w: nat := 0;  // how far the output pointer has advanced
      pos := offset;
      while size - pos > 0
        invariant offset <= pos <= size
        invariant w == pos - offset
        invariant forall k :: 0 <= k < w ==> buf[k] == file[offset + k]
        decreases size - pos
      {
        var n := Fread(file, pos, buf, w, size - pos);
        w := w + n;
        pos := pos + n;
      }
      assert buf[..] == file[offset..size];
      r := Some(Bitmap(buf[..], width, height, bits));
    }
  }

  // ---------------------------------------------------------------------------
  // Properties

  /** A strict "BM" signature is accepted, and so is a file where only one byte matches. */
  lemma SignatureIsLax(b0: byte, b1: byte)
    ensures StrictSignature(b0, b1) ==> SignatureAccepted(b0, b1)
    ensures SignatureAccepted(b0, b1) && !StrictSignature(b0, b1) <==> (b0 == SIG_B) != (b1 == SIG_M)
    ensures SignatureAccepted(SIG_B, 'X' as byte) && SignatureAccepted('X' as byte, SIG_M)
  {
  }

  /**
   * A file laid out the standard way: "BM", bfSize = 54 + |pixels|, two reserved
   * fields, bfOffBits = 54, a 40-byte info header with the given width, height,
   * one plane and the given bit count, the rest of the info header zero, then
   * the pixels.
   */
  function Encode(width: nat, height: nat, bits: nat, pixels: seq<byte>): (file: seq<byte>)
    requires width < U32_LIMIT && height < U32_LIMIT && bits < U16_LIMIT
    requires 54 + |pixels| < U32_LIMIT
    ensures |file| == 54 + |pixels|
  {
    [SIG_B, SIG_M] + U32Bytes(54 + |pixels|) + [0, 0, 0, 0] + U32Bytes(54)
    + U32Bytes(40) + U32Bytes(width) + U32Bytes(height) + U16Bytes(1) + U16Bytes(bits)
    + seq(24, _ => 0) + pixels
  }

  /** A field read at `at` only depends on the four bytes stored there. */
  lemma U32AtBytes(s: seq<byte>, at: nat, v: nat)
    requires v < U32_LIMIT && at + 4 <= |s| && s[at..at + 4] == U32Bytes(v)
    ensures U32At(s, at) == v
  {
    U32RoundTrip(v);
    assert s[at..at + 4][0] == s[at] && s[at..at + 4][1] == s[at + 1];
    assert s[at..at + 4][2] == s[at + 2] && s[at..at + 4][3] == s[at + 3];
  }

  lemma U16AtBytes(s: seq<byte>, at: nat, v: nat)
    requires v < U16_LIMIT && at + 2 <= |s| && s[at..at + 2] == U16Bytes(v)
    ensures U16At(s, at) == v
  {
    U16RoundTrip(v);
    assert s[at..at + 2][0] == s[at] && s[at..at + 2][1] == s[at + 1];
  }

  /** The loader recovers the width, height, bit count and pixels of a standard file. */
  lemma DecodeEncode(width: nat, height: nat, bits: nat, pixels: seq<byte>)
    requires width < U32_LIMIT && height < U32_LIMIT && bits < U16_LIMIT
    requires 54 + |pixels| < U32_LIMIT
    ensures Readable(Encode(width, height, bits, pixels))
    ensures Decode(true, Encode(width, height, bits, pixels)) == Some(Bitmap(pixels, width, height, bits))
  {
    var file := Encode(width, height, bits, pixels);
    var size := 54 + |pixels|;
    assert file[2..6] == U32Bytes(size);
    assert file[10..14] == U32Bytes(54);
    assert file[18..22] == U32Bytes(width);
    assert file[22..26] == U32Bytes(height);
    assert file[28..30] == U16Bytes(bits);
    U32AtBytes(file, 2, size);
    U32AtBytes(file, 10, 54);
    U32AtBytes(file, 18, width);
    U32AtBytes(file, 22, height);
    U16AtBytes(file, 28, bits);
    assert file[54..size] == pixels;
  }

  // ---------------------------------------------------------------------------
  // Texture upload format

  /** The pixel channel order handed to the texture upload. */
  datatype Format = Bgr | Bgra

  /** 24-bit bitmaps are uploaded as BGR, every other depth as BGRA. */
  function UploadFormat(bits: nat): (f: Format)
    ensures f == Bgr <==> bits == 24
    ensures f == Bgra <==> bits != 24
  {
    if bits == 24 then Bgr else Bgra
  }
}
