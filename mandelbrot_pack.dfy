/** The mandelbrot benchmark's image loop: for every row and every pixel, run the escape
    test and pack the resulting bit into the PBM raster, most significant bit first. */
module MandelbrotPack {
  import opened Powers
  import opened PbmRaster
  import opened MandelbrotEscape

  /** The pixels of row `y` of a `size` by `size` image. */
  function Row(y: nat, size: nat): (row: seq<bool>)
    ensures |row| == size
  {
    seq(size, x requires 0 <= x < size => Pixel(x, y, size))
  }

  /** `row` holds the escape-test outcomes of row `y` of a `size` by `size` image. */
  ghost predicate EscapeRow(row: seq<bool>, y: nat, size: nat)
  {
    |row| == size && forall i {:trigger Pixel(i, y, size)} :: 0 <= i < size ==> row[i] == Pixel(i, y, size)
  }

  lemma RowEscapes(y: nat, size: nat)
    requires y < size
    ensures EscapeRow(Row(y, size), y, size)
  {
  }

  /** The Java, Rust and JavaScript pixel: the point `Cr = 2x/size - 1.5`,
      `Ci = 2y/size - 1.0` and its escape loop. */
  method PixelTest(x: nat, y: nat, size: nat, ghost row: seq<bool>) returns (inside: bool)
    requires x < size && EscapeRow(row, y, size)
    ensures inside == row[x]
  {
    var iterations;
    inside, iterations := EscapeTest(Re(x, size), Im(y, size));
    assert inside == Pixel(x, y, size);
  }

  /** The Python pixel: the same point and Python's escape loop. */
  method PixelTestPy(x: nat, y: nat, size: nat, ghost row: seq<bool>) returns (inside: bool)
    requires x < size && EscapeRow(row, y, size)
    ensures inside == row[x]
  {
    inside := EscapeTestPy(Re(x, size), Im(y, size));
    assert inside == Pixel(x, y, size);
  }

  /** All rows of a `size` by `size` image. */
  function Rows(size: nat): (rows: seq<seq<bool>>)
    ensures |rows| == size && Rectangular(rows, size)
  {
    seq(size, y requires 0 <= y < size => Row(y, size))
  }

  /** The raster every version writes after the `P4` header. */
  function Image(size: nat): (r: seq<Byte>)
  {
    Raster(Rows(size))
  }

  /** The image is `ceil(size / 8) * size` bytes, pixel `(x, y)` is bit `7 - x % 8` of byte
      `y * ceil(size / 8) + x / 8`, and it is set exactly when the escape test leaves the
      point inside the limit. */
  lemma ImagePixel(size: nat, x: nat, y: nat)
    requires x < size && y < size
    ensures |Image(size)| == size * BytesPerRow(size)
    ensures Bit(Image(size)[PixelByte(size, size, x, y)], 7 - x % 8) == Pixel(x, y, size)
  {
    var rows := Rows(size);
    RasterPixel(rows, size, y, x);
    assert rows[y][x] == Row(y, size)[x] == Pixel(x, y, size);
  }

  /** The raster of the first `y + 1` rows extends that of the first `y` by row `y`, and
      both fit in the `ceil(size / 8) * size` bytes of the whole image. */
  lemma RasterStep(size: nat, y: nat)
    requires y < size
    ensures Raster(Rows(size)[..y + 1]) == Raster(Rows(size)[..y]) + RowBytes(Row(y, size))
    ensures |Raster(Rows(size)[..y])| + BytesPerRow(size) <= BytesPerRow(size) * size
  {
    var rows := Rows(size)[..y + 1];
    assert rows[..y] == Rows(size)[..y];
    assert Rectangular(Rows(size)[..y], size) by {
      forall k | 0 <= k < y ensures |Rows(size)[..y][k]| == size { assert Rows(size)[..y][k] == Row(k, size); }
    }
    RasterLength(Rows(size)[..y], size);
    RowIndexInRange(y, size, BytesPerRow(size));
  }

  // ---- the two packers as state machines ----

  /** The packing state after some pixels of a row: the bytes flushed so far, the
      accumulator (`byteAcc`, `bits`) and the number of pixels in it (`bitIndex`,
      `bit_num`). */
  datatype Packer = Packer(out: seq<nat>, acc: nat, bitIndex: BitCount)

  /** Pixels in the accumulator between two flushes. */
  type BitCount = b: nat | b < 8

  const Fresh := Packer([], 0, 0)

  /** One pixel of the Java, Rust and JavaScript loop: `byteAcc <<= 1` in 8 bits, `|= 1`
      for a pixel inside the set, then a full byte is flushed, and on the row's last pixel
      a partial byte is shifted left by `8 - bitIndex` (again in 8 bits) and flushed. */
  function Step8(s: Packer, inside: bool, last: bool): (r: Packer)
  {
    var shifted := Shl8(s.acc, 1);
    var acc := if inside then shifted + 1 else shifted;
    var bitIndex := s.bitIndex + 1;
    if bitIndex == 8 then Packer(s.out + [acc], 0, 0)
    else if last then Packer(s.out + [Shl8(acc, 8 - bitIndex)], 0, 0)
    else Packer(s.out, acc, bitIndex)
  }

  /** One pixel of the Python loop: `bits = bits << 1 | inside` on an unbounded integer,
      and a full byte is appended. */
  function StepPy(s: Packer, inside: bool): (r: Packer)
  {
    var bits := s.acc * 2 + BitValue(inside);
    var bitNum := s.bitIndex + 1;
    if bitNum == 8 then Packer(s.out + [bits], 0, 0) else Packer(s.out, bits, bitNum)
  }

  /** Python's padding after the row: `bits <<= (8 - bit_num)` and one more byte. */
  function FinishPy(s: Packer): (r: seq<nat>)
  {
    if s.bitIndex > 0 then s.out + [Shl(s.acc, 8 - s.bitIndex)] else s.out
  }

  /** The Java packer's state after the first `x` pixels of `row`. */
  function Packed8(row: seq<bool>, x: nat): (r: Packer)
    requires x <= |row|
  {
    if x == 0 then Fresh else Step8(Packed8(row, x - 1), row[x - 1], x == |row|)
  }

  /** The Python packer's state after the first `x` pixels of `row`. */
  function PackedPy(row: seq<bool>, x: nat): (r: Packer)
    requires x <= |row|
  {
    if x == 0 then Fresh else StepPy(PackedPy(row, x - 1), row[x - 1])
  }

  /** Shifting pixel `x` into the accumulator of the pixels `8k .. x`: the accumulator is
      below 128, so Java's 8-bit shift loses nothing, and a set pixel fills the cleared
      low bit. */
  lemma ShiftIn(row: seq<bool>, k: nat, x: nat, acc: nat)
    requires 8 * k <= x < |row| && x < 8 * k + 8 && acc == Acc(row[8 * k .. x])
    ensures acc < 128 && Shl8(acc, 1) == 2 * acc
    ensures Acc(row[8 * k .. x + 1]) == 2 * acc + BitValue(row[x])
  {
    Pow2Monotone(x - 8 * k, 7);
    Pow2Of8();
    Shl8Once(acc);
    assert row[8 * k .. x + 1][.. x - 8 * k] == row[8 * k .. x];
  }

  /** A full group of eight pixels is byte `k` of its row, unshifted. */
  lemma FlushFull(row: seq<bool>, k: nat)
    requires 8 * k + 8 <= |row|
    ensures k < BytesPerRow(|row|) && RowBytes(row)[k] == Acc(row[8 * k .. 8 * k + 8])
  {
    assert Chunk(row, k) + Zeros(0) == row[8 * k .. 8 * k + 8];
  }

  /** The final partial group of `b` pixels, shifted left by `8 - b`, is the row's last
      byte; the shift stays within 8 bits. */
  lemma FlushPartial(row: seq<bool>, k: nat, b: nat)
    requires 0 < b < 8 && 8 * k + b == |row|
    ensures k + 1 == BytesPerRow(|row|)
    ensures var v := Shl(Acc(row[8 * k ..]), 8 - b); v < 256 && RowBytes(row)[k] == v
  {
    assert Chunk(row, k) == row[8 * k ..];
    AccZeros(row[8 * k ..], 8 - b);
  }

  /** What the Python packer holds after `x = 8k + b` pixels, `k` the bytes it has
      flushed and `b` the pixels in its accumulator: the first `k` bytes of the row, and in
      the accumulator the `b < 8` pixels since. */
  ghost predicate PyState(row: seq<bool>, x: nat, s: Packer)
  {
    var k := |s.out|;
    && x == 8 * k + s.bitIndex && x <= |row|
    && k <= BytesPerRow(|row|) && s.out == RowBytes(row)[..k]
    && s.acc == Acc(row[8 * k .. x])
  }

  /** One pixel that does not complete a byte keeps the Python packer's state. */
  lemma PyShiftKeeps(row: seq<bool>, x: nat, s: Packer)
    requires x < |row| && PyState(row, x, s) && s.bitIndex < 7
    ensures PyState(row, x + 1, StepPy(s, row[x]))
  {
    ShiftIn(row, |s.out|, x, s.acc);
  }

  /** The pixel that completes a byte flushes the row's next byte. */
  lemma PyFlushKeeps(row: seq<bool>, x: nat, s: Packer)
    requires x < |row| && PyState(row, x, s) && s.bitIndex == 7
    ensures PyState(row, x + 1, StepPy(s, row[x]))
  {
    var k := |s.out|;
    ShiftIn(row, k, x, s.acc);
    var bits := s.acc * 2 + BitValue(row[x]);
    assert StepPy(s, row[x]) == Packer(s.out + [bits], 0, 0);
    assert bits == RowBytes(row)[k] by {
      FlushFull(row, k);
    }
    assert s.out + [bits] == RowBytes(row)[..k + 1] by {
      TakeSucc(RowBytes(row), k);
    }
    assert row[8 * (k + 1) .. x + 1] == [];
  }

  /** Each pixel keeps the Python packer's state. */
  lemma PyStep(row: seq<bool>, x: nat)
    requires x < |row| && PyState(row, x, PackedPy(row, x))
    ensures PyState(row, x + 1, PackedPy(row, x + 1))
  {
    var s := PackedPy(row, x);
    assert PackedPy(row, x + 1) == StepPy(s, row[x]);
    if s.bitIndex == 7 {
      PyFlushKeeps(row, x, s);
    } else {
      PyShiftKeeps(row, x, s);
    }
  }

  /** Before the first pixel the Python packer holds nothing. */
  lemma PyStart(row: seq<bool>)
    ensures PyState(row, 0, PackedPy(row, 0))
  {
    assert row[0 .. 0] == [];
  }

  /** After `x` pixels the Python packer is in the state `PyState` describes. */
  lemma {:induction false} PackedPyState(row: seq<bool>, x: nat)
    requires x <= |row|
    ensures PyState(row, x, PackedPy(row, x))
  {
    if x == 0 {
      PyStart(row);
    } else {
      PackedPyState(row, x - 1);
      PyStep(row, x - 1);
    }
  }

  /** Between pixels the Python accumulator stays below 128, so one more shift fits in a
      byte, and fewer bytes than the row has are out. */
  lemma PackedPyBounds(row: seq<bool>, x: nat)
    requires x < |row|
    ensures var s := PackedPy(row, x);
      && s.acc < Pow2(s.bitIndex) && s.acc < 128 && Shl8(s.acc, 1) == 2 * s.acc
      && |s.out| < BytesPerRow(|row|)
  {
    PackedPyState(row, x);
    var s := PackedPy(row, x);
    ShiftIn(row, |s.out|, x, s.acc);
  }

  /** A Python packer that has taken in the whole row: its padding completes the row's
      bytes. */
  lemma PyFinishes(row: seq<bool>, s: Packer)
    requires PyState(row, |row|, s)
    ensures FinishPy(s) == RowBytes(row)
  {
    if s.bitIndex > 0 {
      PyFinishPartial(row, s);
    } else {
      var rb := RowBytes(row);
      assert rb[..|s.out|] == rb;
    }
  }

  lemma PyFinishPartial(row: seq<bool>, s: Packer)
    requires PyState(row, |row|, s) && s.bitIndex > 0
    ensures s.out + [Shl(s.acc, 8 - s.bitIndex)] == RowBytes(row)
  {
    var k, rb := |s.out|, RowBytes(row);
    var v := Shl(s.acc, 8 - s.bitIndex);
    assert v == rb[k] by {
      FlushPartial(row, k, s.bitIndex);
      assert row[8 * k .. |row|] == row[8 * k ..];
    }
    assert s.out + [v] == rb[..k + 1] by {
      TakeSucc(rb, k);
    }
    assert rb[..k + 1] == rb;
  }

  /** The Python row loop followed by its padding produces exactly the row's bytes. */
  lemma PackedPyRow(row: seq<bool>)
    ensures FinishPy(PackedPy(row, |row|)) == RowBytes(row)
  {
    PackedPyState(row, |row|);
    PyFinishes(row, PackedPy(row, |row|));
  }

  /** The Python accumulator holds `bitIndex` pixels, so it is below `2^bitIndex`. */
  lemma PackedPyAcc(row: seq<bool>, x: nat)
    requires x <= |row|
    ensures PackedPy(row, x).acc < Pow2(PackedPy(row, x).bitIndex)
  {
    PackedPyState(row, x);
  }

  /** With the accumulator below 128, a pixel that is not a row's last one takes the 8-bit
      packer and the unbounded one to the same state. */
  lemma StepAgrees(s: Packer, inside: bool)
    requires s.acc < 128
    ensures Step8(s, inside, false) == StepPy(s, inside)
  {
    Shl8Once(s.acc);
  }

  /** With `bitIndex` pixels in the accumulator, the 8-bit packer's last pixel flushes
      what the unbounded packer's last pixel and padding flush. */
  lemma LastStepAgrees(s: Packer, inside: bool)
    requires s.acc < Pow2(s.bitIndex)
    ensures Step8(s, inside, true).out == FinishPy(StepPy(s, inside))
  {
    var acc := 2 * s.acc + BitValue(inside);
    ShiftOnce(s.acc, s.bitIndex, inside);
    if s.bitIndex < 7 {
      PadExact(acc, s.bitIndex + 1);
    }
  }

  /** Before the last pixel of a row the 8-bit packer and the unbounded one are in the
      same state: Java's narrowing shift never drops a bit. */
  lemma {:induction false} Packed8AgreesPy(row: seq<bool>, x: nat)
    requires x < |row|
    ensures Packed8(row, x) == PackedPy(row, x)
  {
    if x > 0 {
      Packed8AgreesPy(row, x - 1);
      PackedPyBounds(row, x - 1);
      StepAgrees(PackedPy(row, x - 1), row[x - 1]);
    }
  }

  /** The Java, Rust and JavaScript row loop ends with the same bytes as the Python loop
      and its padding: exactly the row's bytes. */
  lemma Packed8Row(row: seq<bool>)
    ensures Packed8(row, |row|).out == FinishPy(PackedPy(row, |row|)) == RowBytes(row)
  {
    if |row| > 0 {
      Packed8Last(row);
    }
    PackedPyRow(row);
  }

  lemma Packed8Last(row: seq<bool>)
    requires |row| > 0
    ensures Packed8(row, |row|).out == FinishPy(PackedPy(row, |row|))
  {
    var n := |row|;
    var prev := PackedPy(row, n - 1);
    Packed8Unfold(row);
    Packed8AgreesPy(row, n - 1);
    PackedPyBounds(row, n - 1);
    LastStepAgrees(prev, row[n - 1]);
    PackedPyUnfold(row);
  }

  lemma Packed8Unfold(row: seq<bool>)
    requires |row| > 0
    ensures Packed8(row, |row|) == Step8(Packed8(row, |row| - 1), row[|row| - 1], true)
  {
  }

  lemma PackedPyUnfold(row: seq<bool>)
    requires |row| > 0
    ensures PackedPy(row, |row|) == StepPy(PackedPy(row, |row| - 1), row[|row| - 1])
  {
  }

  /** The Java packer never has more bytes out than the row has, and between pixels its
      accumulator leaves room for one more shift. */
  lemma Packed8Bounds(row: seq<bool>, x: nat)
    requires x <= |row|
    ensures |Packed8(row, x).out| <= BytesPerRow(|row|)
    ensures x < |row| ==> var s := Packed8(row, x);
      s.acc < 128 && Shl8(s.acc, 1) == 2 * s.acc && |s.out| < BytesPerRow(|row|)
  {
    if x < |row| {
      Packed8AgreesPy(row, x);
      PackedPyBounds(row, x);
    } else {
      Packed8Row(row);
    }
  }

  /** What one pixel does to the Python packer: a full byte is appended, otherwise the
      pixel stays in the accumulator. */
  lemma PackedPyNext(row: seq<bool>, x: nat)
    requires x < |row|
    ensures var s, t := PackedPy(row, x), PackedPy(row, x + 1);
      var bits := 2 * s.acc + BitValue(row[x]);
      && bits < 256
      && (s.bitIndex == 7 ==> t == Packer(s.out + [bits], 0, 0))
      && (s.bitIndex < 7 ==> t == Packer(s.out, bits, s.bitIndex + 1))
  {
    PackedPyBounds(row, x);
  }

  /** What one pixel does to the Java packer, case by case: a full byte is flushed as
      is, the row's last partial byte is shifted into place and flushed, otherwise the
      pixel stays in the accumulator. */
  lemma Packed8Next(row: seq<bool>, x: nat)
    requires x < |row|
    ensures var s, t := Packed8(row, x), Packed8(row, x + 1);
      var acc := 2 * s.acc + BitValue(row[x]);
      && Shl8(s.acc, 1) == 2 * s.acc && acc < 256
      && |t.out| <= BytesPerRow(|row|)
      && (s.bitIndex == 7 ==> t == Packer(s.out + [acc], 0, 0))
      && (s.bitIndex < 7 && x + 1 == |row| ==> t == Packer(s.out + [Shl8(acc, 7 - s.bitIndex)], 0, 0))
      && (s.bitIndex < 7 && x + 1 < |row| ==> t == Packer(s.out, acc, s.bitIndex + 1))
  {
    Packed8Bounds(row, x);
    Packed8Bounds(row, x + 1);
  }

  lemma AppendAssoc<T>(a: seq<T>, b: seq<T>, v: T)
    ensures a + (b + [v]) == (a + b) + [v]
  {
  }

  lemma TakeSucc<T>(s: seq<T>, k: nat)
    requires k < |s|
    ensures s[..k + 1] == s[..k] + [s[k]]
  {
  }

  // ---- the loops ----

  /** The Java `main` loop (`Mandelbrot.java`), which the Rust `main` and the JavaScript
      `mandelbrot(size)` repeat line for line: a zeroed buffer of `length` bytes filled at
      `dataIndex++` from the accumulator `byteAcc` and the counter `bitIndex`, one row per
      `y < size`. `length` is what the language computes from `size` (`JavaBufferLength`,
      `JsBufferLength`); for a negative `size` no row runs and the buffer stays zero. */
  method PackRaster(size: int, length: nat) returns (data: array<Byte>)
    requires size >= 0 ==> length == BytesPerRow(size) * size
    ensures data.Length == length
    ensures size >= 0 ==> data[..] == Image(size)
    ensures size < 0 ==> forall i | 0 <= i < data.Length :: data[i] == 0
  {
    data := new Byte[length](_ => 0);
    var dataIndex: nat := 0;
    var y := 0;
    while y < size
      invariant y == 0 || 0 < y <= size
      invariant dataIndex <= data.Length
      invariant size >= 0 ==> data[..dataIndex] == Raster(Rows(size)[..y])
      invariant y == 0 ==> dataIndex == 0
      invariant forall i | dataIndex <= i < data.Length :: data[i] == 0
    {
      RasterStep(size, y);
      RowEscapes(y, size);
      dataIndex := PackRow(data, dataIndex, y, size, Row(y, size));
      y := y + 1;
    }
    if size >= 0 {
      assert Rows(size)[..size] == Rows(size);
      RasterLength(Rows(size), size);
    }
  }

  /** One pass of the Java pixel loop over row `y`, whose escape-test outcomes are `row`:
      it writes the row's bytes from `start` on and leaves the bytes before `start` alone. */
  method PackRow(data: array<Byte>, start: nat, y: nat, size: nat, ghost row: seq<bool>)
    returns (dataIndex: nat)
    requires y < size && start + BytesPerRow(size) <= data.Length && EscapeRow(row, y, size)
    modifies data
    ensures dataIndex == start + BytesPerRow(size)
    ensures data[..dataIndex] == old(data[..start]) + RowBytes(row)
    ensures data[dataIndex..] == old(data[dataIndex..])
  {
    ghost var done := data[..start];
    ghost var st := Fresh;
    dataIndex := start;
    var bitIndex := 0;
    var byteAcc: Byte := 0;
    for x := 0 to size
      invariant st == Packed8(row, x)
      invariant byteAcc == st.acc && bitIndex == st.bitIndex
      invariant dataIndex == start + |st.out| <= start + BytesPerRow(size)
      invariant data[..dataIndex] == done + st.out
      invariant forall i | dataIndex <= i < data.Length :: data[i] == old(data[i])
    {
      var inside := PixelTest(x, y, size, row);
      Packed8Next(row, x);
      ghost var next := Packed8(row, x + 1);
      byteAcc := Shl8(byteAcc, 1);     // `byteAcc <<= 1`
      if inside {
        byteAcc := byteAcc + 1;        // `byteAcc |= 1` on a cleared low bit
      }
      bitIndex := bitIndex + 1;

      if bitIndex == 8 {
        assert next.out == st.out + [byteAcc];
        AppendAssoc(done, st.out, byteAcc);
        Emit(data, dataIndex, byteAcc, done + st.out);   // `data[dataIndex++] = byteAcc`
        dataIndex := dataIndex + 1;
        byteAcc := 0;
        bitIndex := 0;
      } else if x == size - 1 {
        byteAcc := Shl8(byteAcc, 8 - bitIndex);
        assert next.out == st.out + [byteAcc];
        AppendAssoc(done, st.out, byteAcc);
        Emit(data, dataIndex, byteAcc, done + st.out);   // `data[dataIndex++] = byteAcc`
        dataIndex := dataIndex + 1;
        byteAcc := 0;
        bitIndex := 0;
      }
      st := next;
    }
    Packed8Row(row);
    assert data[dataIndex..] == old(data[dataIndex..]);
  }

  /** `data[dataIndex++] = byteAcc`: one byte written after `front`, nothing else moved. */
  method Emit(data: array<Byte>, i: nat, b: Byte, ghost front: seq<Byte>)
    requires i < data.Length && data[..i] == front
    modifies data
    ensures data[..i + 1] == front + [b]
    ensures forall k | i < k < data.Length :: data[k] == old(data[k])
  {
    data[i] := b;
    assert data[..i + 1] == data[..i] + [b];
  }

  /** Python's `mandelbrot(size)`: the same packing with an unbounded `bits` accumulator
      appended to a `bytearray`; every appended value is below 256, so `append` never
      raises. */
  method PackRasterPy(size: int) returns (result: seq<Byte>)
    ensures result == if size >= 0 then Image(size) else []
  {
    result := [];
    for y := 0 to if size < 0 then 0 else size
      invariant size >= 0 ==> result == Raster(Rows(size)[..y])
      invariant size < 0 ==> result == []
    {
      RasterStep(size, y);
      RowEscapes(y, size);
      result := PackRowPy(result, y, size, Row(y, size));
    }
    if size >= 0 {
      assert Rows(size)[..size] == Rows(size);
    }
  }

  /** One pass of the Python pixel loop over row `y`, whose escape-test outcomes are
      `row`, with the partial byte padded after the loop: it appends the row's bytes. */
  method PackRowPy(front: seq<Byte>, y: nat, size: nat, ghost row: seq<bool>)
    returns (result: seq<Byte>)
    requires y < size && EscapeRow(row, y, size)
    ensures result == front + RowBytes(row)
  {
    result := front;
    ghost var st := Fresh;
    var bits: nat := 0;
    var bitNum := 0;
    for x := 0 to size
      invariant st == PackedPy(row, x)
      invariant bits == st.acc && bitNum == st.bitIndex
      invariant result == front + st.out
    {
      var inside := PixelTestPy(x, y, size, row);
      PackedPyNext(row, x);
      ghost var next := PackedPy(row, x + 1);
      bits := bits * 2 + BitValue(inside);  // `bits << 1 | (tr + ti <= 4.0)`
      bitNum := bitNum + 1;

      if bitNum == 8 {
        AppendAssoc(front, st.out, bits);
        result := result + [bits];
        bits := 0;
        bitNum := 0;
      }
      st := next;
    }
    PackedPyRow(row);
    if bitNum > 0 {
      PackedPyAcc(row, size);
      ShlFitsByte(bits, bitNum);
      bits := Shl(bits, 8 - bitNum);   // `bits <<= (8 - bit_num)`
      AppendAssoc(front, st.out, bits);
      result := result + [bits];
    }
    assert result == front + FinishPy(st);
  }

  // ---- buffer lengths ----

  /** Java's `int` division, which truncates toward zero. */
  function TruncDiv8(v: int): (r: int)
  {
    if v >= 0 then v / 8 else -((-v) / 8)
  }

  /** `0 <= a <= x` and `0 <= b <= y` bound the product `a * b` by `x * y`. */
  lemma MulBounded(a: int, b: int, x: int, y: int)
    requires 0 <= a <= x && 0 <= b <= y
    ensures a * b <= x * y
  {
    assert a * b <= x * b;
  }

  /** Java sizes its buffer as `(size + 7) / 8 * size` in `int` arithmetic. While
      `|size| <= 131071` the product fits in 31 bits (at 131072 it is exactly 2^31 and
      wraps), it is never negative, and for `size >= 0` it is one row of bytes per row. */
  function JavaBufferLength(size: int): (r: nat)
    requires -131071 <= size <= 131071
    ensures r < 0x8000_0000
    ensures size >= 0 ==> r == BytesPerRow(size) * size
  {
    var q := TruncDiv8(size + 7);
    if size >= 0 then
      MulBounded(q, size, 16384, 131071);
      q * size
    else
      MulBounded(-q, -size, 16383, 131071);
      q * size
  }

  /** JavaScript sizes its `Uint8Array` as `Math.ceil(size / 8) * size`; the ceiling is
      the least integer `r` with `size <= 8 * r`. */
  function CeilDiv8(size: int): (r: int)
    ensures 8 * (r - 1) < size <= 8 * r
  {
    var q := size as real / 8.0;
    if q == q.Floor as real then q.Floor else q.Floor + 1
  }

  /** The JavaScript buffer length is never negative (a negative `size` has a non-positive
      ceiling), and for `size >= 0` it is the Java and Rust length. */
  function JsBufferLength(size: int): (r: nat)
    ensures size >= 0 ==> r == BytesPerRow(size) * size
  {
    var c := CeilDiv8(size);
    if size >= 0 then
      CeilDiv8IsBytesPerRow(size);
      c * size
    else
      MulBounded(0, -size, -c, -size);
      c * size
  }

  /** `Math.ceil(size / 8)` equals the Java and Rust `(size + 7) / 8`, so all three
      allocate the same buffer. */
  lemma CeilDiv8IsBytesPerRow(size: nat)
    ensures CeilDiv8(size) == BytesPerRow(size)
  {
  }
}
