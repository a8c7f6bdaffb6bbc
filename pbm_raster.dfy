/** The raster layout of a Netpbm PBM "P4" image, which the mandelbrot benchmark writes:
    each row of `width` pixels is packed most significant bit first into
    `ceil(width / 8)` bytes, the last byte of a row padded with zero bits, rows one after
    another. */
module PbmRaster {
  import opened Powers

  /** An 8-bit value, as stored in Java's `byte[]` (by its bit pattern), Rust's `Vec<u8>`,
      JavaScript's `Uint8Array` and Python's `bytearray`. */
  type Byte = b: nat | b < 256

  function BitValue(b: bool): (r: nat)
  {
    if b then 1 else 0
  }

  /** Bit `p` of `v`, counting from the least significant bit. */
  predicate Bit(v: nat, p: nat)
  {
    if p == 0 then v % 2 == 1 else Bit(v / 2, p - 1)
  }

  /** The accumulator after shifting `bits` in one by one (`acc = acc << 1 | bit`). */
  function Acc(bits: seq<bool>): (r: nat)
    ensures r < Pow2(|bits|)
  {
    if bits == [] then 0 else 2 * Acc(bits[..|bits| - 1]) + BitValue(bits[|bits| - 1])
  }

  /** `v << n` on an unbounded integer, as in Python. */
  function Shl(v: nat, n: nat): (r: nat)
    decreases n
  {
    if n == 0 then v else Shl(2 * v, n - 1)
  }

  /** `v << n` on an 8-bit value, dropping what is shifted past bit 7, as Java's `byte` and
      Rust's `u8` do (and JavaScript's `Uint8Array` on store). */
  function Shl8(v: nat, n: nat): (r: Byte)
    decreases n
  {
    if n == 0 then v % 256 else Shl8((2 * v) % 256, n - 1)
  }

  /** A one-bit 8-bit shift doubles the value and drops bit 8. */
  lemma Shl8Once(v: nat)
    ensures Shl8(v, 1) == (2 * v) % 256
  {
    assert Shl8(v, 1) == Shl8((2 * v) % 256, 0);
  }

  /** `n` zero bits. */
  function Zeros(n: nat): (z: seq<bool>)
    ensures |z| == n
  {
    seq(n, i => false)
  }

  /** The byte a group of one to eight pixels becomes: the pixels most significant bit
      first, the final, partial group of a row padded with zero bits. */
  function PackByte(group: seq<bool>): (r: Byte)
    requires 1 <= |group| <= 8
  {
    Pow2Of8();
    Acc(group + Zeros(8 - |group|))
  }

  /** Bytes per row: `(width + 7) / 8`, that is `ceil(width / 8)`. */
  function BytesPerRow(width: nat): (r: nat)
  {
    (width + 7) / 8
  }

  function Min(a: int, b: int): (r: int) { if a < b then a else b }

  /** The pixels that go into byte `j` of a row. */
  function Chunk(row: seq<bool>, j: nat): (g: seq<bool>)
    requires j < BytesPerRow(|row|)
    ensures 1 <= |g| <= 8
  {
    row[8 * j .. Min(8 * j + 8, |row|)]
  }

  /** The packed bytes of one row. */
  function RowBytes(row: seq<bool>): (r: seq<Byte>)
    ensures |r| == BytesPerRow(|row|)
  {
    seq(BytesPerRow(|row|), j requires 0 <= j < BytesPerRow(|row|) => PackByte(Chunk(row, j)))
  }

  /** The packed bytes of an image, row after row. */
  function Raster(rows: seq<seq<bool>>): (r: seq<Byte>)
  {
    if rows == [] then [] else Raster(rows[..|rows| - 1]) + RowBytes(rows[|rows| - 1])
  }

  /** All rows have the same width. */
  ghost predicate Rectangular(rows: seq<seq<bool>>, width: nat)
  {
    forall y :: 0 <= y < |rows| ==> |rows[y]| == width
  }

  /** The PBM reader's view of a raster: pixel `(x, y)` is bit `7 - x % 8` of byte
      `y * ceil(width / 8) + x / 8`. */
  function Unpack(data: seq<Byte>, width: nat, height: nat): (rows: seq<seq<bool>>)
    requires |data| == height * BytesPerRow(width)
    ensures |rows| == height && Rectangular(rows, width)
  {
    seq(height, y requires 0 <= y < height =>
      seq(width, x requires 0 <= x < width =>
        Bit(data[PixelByte(width, height, x, y)], 7 - x % 8)))
  }

  /** The byte that holds pixel `(x, y)`: `y * ceil(width / 8) + x / 8`, inside the
      `height * ceil(width / 8)` bytes of the raster. */
  function PixelByte(width: nat, height: nat, x: nat, y: nat): (i: nat)
    requires x < width && y < height
    ensures i < height * BytesPerRow(width)
  {
    RowIndexInRange(y, height, BytesPerRow(width));
    y * BytesPerRow(width) + x / 8
  }

  // ---- arithmetic helpers ----

  lemma RowIndexInRange(y: nat, height: nat, n: nat)
    requires y < height
    ensures y * n + n <= height * n
  {
    assert height * n == y * n + (height - y) * n;
    assert (height - y) * n >= n by { assert height - y >= 1; }
  }

  /** Shifting `n` zero bits into the accumulator is `acc << n`. */
  lemma {:induction false} AccZeros(bits: seq<bool>, n: nat)
    ensures Acc(bits + Zeros(n)) == Shl(Acc(bits), n)
    decreases n
  {
    if n > 0 {
      var shifted := bits + [false];
      assert bits + Zeros(n) == shifted + Zeros(n - 1);
      assert shifted[..|shifted| - 1] == bits;
      assert Acc(shifted) == 2 * Acc(bits);
      AccZeros(shifted, n - 1);
      assert Shl(Acc(bits), n) == Shl(2 * Acc(bits), n - 1);
    } else {
      assert bits + Zeros(0) == bits;
    }
  }

  /** Shifting a value of `b` bits left by `n` leaves a value of `b + n` bits. */
  lemma {:induction false} ShlBelow(v: nat, b: nat, n: nat)
    requires v < Pow2(b)
    ensures Shl(v, n) < Pow2(b + n)
    decreases n
  {
    if n > 0 {
      ShlBelow(2 * v, b + 1, n - 1);
    }
  }

  /** A value of `b <= 8` bits shifted left by `8 - b` still fits in a byte. */
  lemma ShlFitsByte(v: nat, b: nat)
    requires b <= 8 && v < Pow2(b)
    ensures Shl(v, 8 - b) < 256
  {
    Pow2Of8();
    ShlBelow(v, b, 8 - b);
  }

  /** Shifting one more bit into a value of `b < 8` bits loses nothing in 8 bits. */
  lemma ShiftOnce(v: nat, b: nat, bit: bool)
    requires b < 8 && v < Pow2(b)
    ensures Shl8(v, 1) == 2 * v && 2 * v + BitValue(bit) < Pow2(b + 1)
  {
    Pow2Of8();
    Pow2Monotone(b, 7);
    Shl8Once(v);
  }

  /** Padding a value of `b` bits to eight bits agrees in 8 bits and unbounded. */
  lemma PadExact(v: nat, b: nat)
    requires b <= 8 && v < Pow2(b)
    ensures Shl8(v, 8 - b) == Shl(v, 8 - b) < 256
  {
    ShlFitsByte(v, b);
    Shl8Exact(v, 8 - b);
  }

  /** A left shift never makes a value smaller. */
  lemma {:induction false} ShlGrows(v: nat, n: nat)
    ensures Shl(v, n) >= v
    decreases n
  {
    if n > 0 {
      ShlGrows(2 * v, n - 1);
    }
  }

  /** An 8-bit shift whose result fits in a byte agrees with the unbounded one. */
  lemma {:induction false} Shl8Exact(v: nat, n: nat)
    requires Shl(v, n) < 256
    ensures Shl8(v, n) == Shl(v, n)
    decreases n
  {
    if n > 0 {
      ShlGrows(2 * v, n - 1);
      Shl8Exact(2 * v, n - 1);
    }
  }

  // ---- bit placement ----

  /** In the accumulator of `bits`, the `i`-th pixel shifted in is bit `|bits| - 1 - i`. */
  lemma {:induction false} AccBit(bits: seq<bool>, i: nat)
    requires i < |bits|
    ensures Bit(Acc(bits), |bits| - 1 - i) == bits[i]
  {
    var front := bits[..|bits| - 1];
    var v := Acc(bits);
    assert v == 2 * Acc(front) + BitValue(bits[|bits| - 1]);
    if i < |bits| - 1 {
      AccBit(front, i);
      assert v / 2 == Acc(front);
    }
  }

  /** Pixel `i` of a group lands on bit `7 - i` of its byte. */
  lemma PackByteBit(group: seq<bool>, i: nat)
    requires 1 <= |group| <= 8 && i < |group|
    ensures Bit(PackByte(group), 7 - i) == group[i]
  {
    AccBit(group + Zeros(8 - |group|), i);
  }

  /** The `8 - |group|` low bits of the byte of a partial group are zero. */
  lemma PackBytePadding(group: seq<bool>, p: nat)
    requires 1 <= |group| < 8 && p < 8 - |group|
    ensures !Bit(PackByte(group), p)
  {
    var padded := group + Zeros(8 - |group|);
    AccBit(padded, 7 - p);
    assert padded[7 - p] == Zeros(8 - |group|)[7 - p - |group|];
  }

  /** Pixel `x` of a row is bit `7 - x % 8` of the row's byte `x / 8` (most significant bit
      first). */
  lemma RowBytesBit(row: seq<bool>, x: nat)
    requires x < |row|
    ensures x / 8 < BytesPerRow(|row|)
    ensures Bit(RowBytes(row)[x / 8], 7 - x % 8) == row[x]
  {
    var g := Chunk(row, x / 8);
    assert g[x % 8] == row[x];
    PackByteBit(g, x % 8);
  }

  /** A row whose width is a multiple of 8 fills every byte, so no byte is padded. */
  lemma RowBytesFull(row: seq<bool>, j: nat)
    requires |row| % 8 == 0 && j < BytesPerRow(|row|)
    ensures |Chunk(row, j)| == 8 && RowBytes(row)[j] == Acc(Chunk(row, j))
  {
    assert Chunk(row, j) + Zeros(0) == Chunk(row, j);
  }

  /** A row whose width is not a multiple of 8 ends in a byte whose `8 - width % 8` unused
      low bits are zero. */
  lemma RowBytesPadding(row: seq<bool>, p: nat)
    requires |row| % 8 != 0 && p < 8 - |row| % 8
    ensures !Bit(RowBytes(row)[BytesPerRow(|row|) - 1], p)
  {
    var last := BytesPerRow(|row|) - 1;
    assert |Chunk(row, last)| == |row| % 8;
    PackBytePadding(Chunk(row, last), p);
  }

  // ---- image layout ----

  /** A raster of `h` rows of width `w` is `h * ceil(w / 8)` bytes long. */
  lemma {:induction false} RasterLength(rows: seq<seq<bool>>, width: nat)
    requires Rectangular(rows, width)
    ensures |Raster(rows)| == |rows| * BytesPerRow(width)
  {
    if rows != [] {
      var front := rows[..|rows| - 1];
      assert Rectangular(front, width) by {
        forall y | 0 <= y < |front| ensures |front[y]| == width { assert front[y] == rows[y]; }
      }
      RasterLength(front, width);
      assert |rows| * BytesPerRow(width) == |front| * BytesPerRow(width) + BytesPerRow(width);
    }
  }

  /** Row `y` occupies bytes `y * ceil(w / 8)` up to `(y + 1) * ceil(w / 8)`. */
  lemma {:induction false} RasterRow(rows: seq<seq<bool>>, width: nat, y: nat, j: nat)
    requires Rectangular(rows, width) && y < |rows| && j < BytesPerRow(width)
    ensures y * BytesPerRow(width) + j < |Raster(rows)|
    ensures Raster(rows)[y * BytesPerRow(width) + j] == RowBytes(rows[y])[j]
  {
    var front := rows[..|rows| - 1];
    var n := BytesPerRow(width);
    assert Rectangular(front, width) by {
      forall k | 0 <= k < |front| ensures |front[k]| == width { assert front[k] == rows[k]; }
    }
    RasterLength(front, width);
    RasterLength(rows, width);
    RowIndexInRange(y, |rows|, n);
    if y < |rows| - 1 {
      RasterRow(front, width, y, j);
      RowIndexInRange(y, |rows| - 1, n);
    } else {
      assert y * n == |front| * n;
    }
  }

  /** Pixel `(x, y)` is bit `7 - x % 8` of byte `y * ceil(w / 8) + x / 8` of the raster. */
  lemma RasterPixel(rows: seq<seq<bool>>, width: nat, y: nat, x: nat)
    requires Rectangular(rows, width) && y < |rows| && x < width
    ensures |Raster(rows)| == |rows| * BytesPerRow(width)
    ensures Bit(Raster(rows)[PixelByte(width, |rows|, x, y)], 7 - x % 8) == rows[y][x]
  {
    RasterLength(rows, width);
    assert PixelByte(width, |rows|, x, y) == y * BytesPerRow(width) + x / 8;
    RasterRow(rows, width, y, x / 8);
    RowBytesBit(rows[y], x);
  }

  /** Reading a packed raster back gives the image that was packed. */
  lemma UnpackRaster(rows: seq<seq<bool>>, width: nat)
    requires Rectangular(rows, width)
    ensures |Raster(rows)| == |rows| * BytesPerRow(width)
    ensures Unpack(Raster(rows), width, |rows|) == rows
  {
    RasterLength(rows, width);
    var back := Unpack(Raster(rows), width, |rows|);
    forall y | 0 <= y < |rows|
      ensures back[y] == rows[y]
    {
      UnpackRow(rows, width, y);
    }
  }

  lemma UnpackRow(rows: seq<seq<bool>>, width: nat, y: nat)
    requires Rectangular(rows, width) && y < |rows|
    requires |Raster(rows)| == |rows| * BytesPerRow(width)
    ensures Unpack(Raster(rows), width, |rows|)[y] == rows[y]
  {
    var data := Raster(rows);
    var row := Unpack(data, width, |rows|)[y];
    forall x | 0 <= x < width
      ensures row[x] == rows[y][x]
    {
      UnpackAt(data, width, |rows|, x, y);
      RasterPixel(rows, width, y, x);
    }
  }

  /** Pixel `(x, y)` of an unpacked raster. */
  lemma UnpackAt(data: seq<Byte>, width: nat, height: nat, x: nat, y: nat)
    requires |data| == height * BytesPerRow(width) && x < width && y < height
    ensures Unpack(data, width, height)[y][x] == Bit(data[PixelByte(width, height, x, y)], 7 - x % 8)
  {
  }
}
