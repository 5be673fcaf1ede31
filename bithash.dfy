// The older perceptual hashes of the ConsoleTesting program: 64 block samples, each
// compared with the one before it, one bit per comparison, most significant
// bit first.

module BitHash {
  import opened Word
  import opened Pixels

  const BlockSize: nat := 16

  /** The `hash1` table: the 64 block positions in row-major order. */
  const Hash1Coords: seq<Coord> := [
    Coord(0, 0), Coord(16, 0), Coord(32, 0), Coord(48, 0), Coord(64, 0), Coord(80, 0),
    Coord(96, 0), Coord(112, 0), Coord(0, 16), Coord(16, 16), Coord(32, 16), Coord(48, 16),
    Coord(64, 16), Coord(80, 16), Coord(96, 16), Coord(112, 16), Coord(0, 32), Coord(16, 32),
    Coord(32, 32), Coord(48, 32), Coord(64, 32), Coord(80, 32), Coord(96, 32), Coord(112, 32),
    Coord(0, 48), Coord(16, 48), Coord(32, 48), Coord(48, 48), Coord(64, 48), Coord(80, 48),
    Coord(96, 48), Coord(112, 48), Coord(0, 64), Coord(16, 64), Coord(0, 80), Coord(16, 80),
    Coord(48, 80), Coord(96, 80), Coord(0, 96), Coord(16, 96), Coord(0, 112), Coord(16, 112),
    Coord(0, 128), Coord(16, 128), Coord(48, 128), Coord(96, 128), Coord(0, 144), Coord(16, 144),
    Coord(0, 160), Coord(16, 160), Coord(0, 176), Coord(16, 176), Coord(48, 176), Coord(96, 176),
    Coord(0, 192), Coord(16, 192), Coord(0, 208), Coord(16, 208), Coord(0, 224), Coord(16, 224),
    Coord(48, 224), Coord(96, 224), Coord(0, 240), Coord(16, 240)
  ]

  /** `hash <<= 1`, then `hash |= 1` (or `hash++`) when the comparison holds; wraps modulo 2^64. */
  function ShiftIn(h: U64, bit: bool): U64
  {
    (2 * h + (if bit then 1 else 0)) % Modulus
  }

  /** The word built by shifting `bits` in from the right, first bit shifted in first. */
  function Pack(bits: seq<bool>): U64
    decreases |bits|
  {
    if bits == [] then 0 else ShiftIn(Pack(bits[..|bits| - 1]), bits[|bits| - 1])
  }

  /** `hash |= 0x8000000000000000`. */
  function SetTopBit(h: U64): U64
  {
    if h >= TopBit then h else h + TopBit
  }

  /** The same bits read as a binary numeral, most significant bit first, without wrapping. */
  function BinaryValue(bits: seq<bool>): nat
    decreases |bits|
  {
    if bits == [] then 0 else 2 * BinaryValue(bits[..|bits| - 1]) + (if bits[|bits| - 1] then 1 else 0)
  }

  /** Bit `k` (0 = least significant) of `n`. */
  predicate Bit(n: nat, k: nat)
  {
    (n / Pow2(k)) % 2 == 1
  }

  /** Up to 64 shifts never wrap: the packed word is the binary numeral of the bits. */
  lemma {:induction false} PackIsBinary(bits: seq<bool>)
    requires |bits| <= 64
    ensures Pack(bits) == BinaryValue(bits) && BinaryValue(bits) < Pow2(|bits|)
    decreases |bits|
  {
    if bits != [] {
      var init := bits[..|bits| - 1];
      PackIsBinary(init);
      Pow2Monotone(|bits|, 64);
      Pow2Values();
      var v := 2 * BinaryValue(init) + (if bits[|bits| - 1] then 1 else 0);
      assert BinaryValue(bits) == v;
      assert v < Pow2(|bits|) == 2 * Pow2(|init|);
      assert Pack(bits) == v % Modulus == v;
    }
  }

  lemma {:induction false} Pow2Monotone(a: nat, b: nat)
    requires a <= b
    ensures Pow2(a) <= Pow2(b)
    decreases b
  {
    if a < b {
      Pow2Monotone(a, b - 1);
    }
  }

  /** The first bit shifted in ends up as the most significant one. */
  lemma {:induction false} BinaryFront(b: bool, rest: seq<bool>)
    ensures BinaryValue([b] + rest) == (if b then Pow2(|rest|) else 0) + BinaryValue(rest)
    decreases |rest|
  {
    if rest != [] {
      var init := rest[..|rest| - 1];
      assert ([b] + rest)[..|rest|] == [b] + init;
      BinaryFront(b, init);
    } else {
      assert [b] + rest == [b];
    }
  }

  /** Bit i of the sequence, counted from the first, is bit |bits|-1-i of the numeral. */
  lemma {:induction false} BinaryBit(bits: seq<bool>, i: nat)
    requires i < |bits|
    ensures Bit(BinaryValue(bits), |bits| - 1 - i) <==> bits[i]
    decreases |bits|
  {
    var init := bits[..|bits| - 1];
    var low := if bits[|bits| - 1] then 1 else 0;
    var v := BinaryValue(bits);
    assert v == 2 * BinaryValue(init) + low;
    if i == |bits| - 1 {
      assert v / Pow2(0) == v;
    } else {
      BinaryBit(init, i);
      var k := |bits| - 1 - i;
      HalveDivide(v, k - 1);
      assert v / 2 == BinaryValue(init);
      assert init[i] == bits[i];
    }
  }

  lemma HalveDivide(n: nat, k: nat)
    ensures n / Pow2(k + 1) == (n / 2) / Pow2(k)
  {
    var p := Pow2(k);
    var q := (n / 2) / p;
    var r := (n / 2) % p;
    assert n / 2 == q * p + r && r < p;
    assert n == 2 * (n / 2) + n % 2;
    assert n == q * (2 * p) + (2 * r + n % 2);
    assert 2 * r + n % 2 < 2 * p;
    DivUnique(n, 2 * p, q, 2 * r + n % 2);
  }

  /**
   * The comparison bits: bit i says sample i is at least as bright as the
   * sample before it, and `prev` stands before sample 0.
   */
  function Comparisons(vs: seq<Byte>, prev: Byte): (bits: seq<bool>)
    ensures |bits| == |vs|
  {
    seq(|vs|, i requires 0 <= i < |vs| => vs[i] >= (if i == 0 then prev else vs[i - 1]))
  }

  lemma PackSnoc(bits: seq<bool>, i: nat)
    requires i < |bits|
    ensures Pack(bits[..i + 1]) == ShiftIn(Pack(bits[..i]), bits[i])
  {
    assert bits[..i + 1][..i] == bits[..i];
  }

  /**
   * The hash `Hash_Algorithm_slow` and `Hash_Algorithm_1_lessslow` compute
   * from their 64 samples: 63 shifts comparing each sample after the first
   * with its predecessor, then the top bit set when the first sample is at
   * least as bright as the last one.
   */
  function WrapChainHash(vs: seq<Byte>): U64
    requires |vs| == 64
  {
    var h := Pack(Comparisons(vs[1..], vs[0]));
    if vs[0] >= vs[63] then SetTopBit(h) else h
  }

  /** The block position of sample i, as `Hash_Algorithm_slow` derives it. */
  function BlockCoord(i: nat): Coord
    requires i < 64
  {
    if i < 32 then Coord(i / 4 * BlockSize, i % 4 * BlockSize)
    else if i < 56 then Coord((i - 32) / 12 * BlockSize, ((i - 32) % 12 + 4) * BlockSize)
    else Coord(((i - 56) / 4 * 3 + 3) * BlockSize, ((i - 56) % 4 * 3 + 5) * BlockSize)
  }

  /** The 64 block samples, in the order of `BlockCoord`. */
  function BlockSamples(img: Image): (vs: seq<Byte>)
    ensures |vs| == 64
  {
    seq(64, i requires 0 <= i < 64 => Intensity(Sample(img, BlockCoord(i))))
  }

  /** `Old_Hash_Algorithm_1`'s result: bit 63-i compares sample i with sample (i+63) % 64. */
  function OldSpec(img: Image): U64
  {
    var vs := BlockSamples(img);
    Pack(Comparisons(vs, vs[63]))
  }

  function SlowSpec(img: Image): U64
  {
    WrapChainHash(BlockSamples(img))
  }

  /** `Hash_Algorithm_1`'s samples over the `hash1` table. */
  function Hash1Samples(img: Image): (vs: seq<Byte>)
    ensures |vs| == 64
  {
    seq(64, i requires 0 <= i < 64 => Intensity(Sample(img, Hash1Coords[i])))
  }

  /**
   * `Hash_Algorithm_1`'s result: sample 0 is compared with the first table
   * entry's own sample, the wrap-around bit is or'ed last.
   */
  function Hash1Spec(img: Image): U64
  {
    var vs := Hash1Samples(img);
    var first := vs[0];
    var h := Pack(Comparisons(vs, first));
    if first >= vs[63] then SetTopBit(h) else h
  }

  /** Samples 1 to 3 of `Hash_Algorithm_1_lessslow` as written: rows 1, 2 and 3 of column 0. */
  function LessSlowCoord(i: nat): Coord
    requires i < 64
  {
    if 1 <= i < 4 then Coord(0, i) else BlockCoord(i)
  }

  function LessSlowSamples(img: Image): (vs: seq<Byte>)
    ensures |vs| == 64
  {
    seq(64, i requires 0 <= i < 64 => Intensity(Sample(img, LessSlowCoord(i))))
  }

  lemma FirstBlocks(col: nat, row: nat)
    requires col < 8 && row < 4
    ensures BlockCoord(4 * col + row) == Coord(col * BlockSize, row * BlockSize)
  {
    DivUnique(4 * col + row, 4, col, row);
  }

  lemma SideBlocks(col: nat, row: nat)
    requires col < 2 && 4 <= row < 16
    ensures BlockCoord(32 + 12 * col + (row - 4)) == Coord(col * BlockSize, row * BlockSize)
  {
    DivUnique(12 * col + (row - 4), 12, col, row - 4);
  }

  lemma SparseBlockAt(jx: nat, jy: nat)
    requires jx < 2 && jy < 4
    ensures BlockCoord(56 + 4 * jx + jy) == Coord((3 + 3 * jx) * BlockSize, (5 + 3 * jy) * BlockSize)
  {
    DivUnique(4 * jx + jy, 4, jx, jy);
  }

  /** `Hash_Algorithm_1`: 64 comparisons over the `hash1` table, then the wrap-around bit. */
  method HashAlgorithm1(img: Image) returns (hash: U64)
    ensures hash == Hash1Spec(img)
  {
    ghost var vs := Hash1Samples(img);
    hash := 0;
    var firstVal := Intensity(Sample(img, Hash1Coords[0]));
    ghost var bits := Comparisons(vs, firstVal);
    var val, lastVal := 0, firstVal;
    for i := 0 to 64
      invariant hash == Pack(bits[..i])
      invariant lastVal == (if i == 0 then firstVal else vs[i - 1])
      invariant i > 0 ==> val == vs[i - 1]
    {
      var point := Hash1Coords[i];
      if InBounds(img, point) {
        val := Intensity(img.pixel(point.x, point.y));
      } else {
        val := 0;
      }
      PackSnoc(bits, i);
      hash := ShiftIn(hash, val >= lastVal);
      lastVal := val;
    }
    assert bits[..64] == bits;
    if firstVal >= val {
      hash := SetTopBit(hash);
    }
  }

  /**
   * `Old_Hash_Algorithm_1`: three loop nests fill a 64-slot buffer (32, 24
   * and 8 slots, out-of-bounds blocks left at 0), then each slot is compared
   * with the one before it, slot 0 with slot 63.
   */
  method OldHashAlgorithm1(img: Image) returns (hashval: U64)
    ensures hashval == OldSpec(img)
  {
    ghost var vs := BlockSamples(img);
    var pixval := new Byte[64](_ => 0);
    FillBlockSamples(img, pixval);
    ghost var bits := Comparisons(vs, vs[63]);
    hashval := 0;
    var lastpixel := pixval[63];
    for i := 0 to 64
      invariant pixval[..] == vs
      invariant hashval == Pack(bits[..i])
      invariant lastpixel == (if i == 0 then vs[63] else vs[i - 1])
    {
      PackSnoc(bits, i);
      hashval := ShiftIn(hashval, pixval[i] >= lastpixel);
      lastpixel := pixval[i];
    }
    assert bits[..64] == bits;
  }

  /** The buffer holds the first `n` block samples and zeros after them. */
  predicate Filled(buf: seq<Byte>, vs: seq<Byte>, n: nat)
    requires |vs| == 64
  {
    |buf| == 64 && forall k :: 0 <= k < 64 ==> buf[k] == (if k < n then vs[k] else 0)
  }

  /** One block of `Old_Hash_Algorithm_1`: its intensity is stored when the block lies inside the image. */
  method StoreBlock(img: Image, pixval: array<Byte>, pix: nat, x: nat, y: nat)
    requires pix < 64 && Coord(x, y) == BlockCoord(pix)
    requires Filled(pixval[..], BlockSamples(img), pix)
    modifies pixval
    ensures Filled(pixval[..], BlockSamples(img), pix + 1)
  {
    if x < img.width && y < img.height {
      pixval[pix] := Intensity(img.pixel(x, y));
    }
  }

  /** The three loop nests of `Old_Hash_Algorithm_1` that fill its zero-initialised buffer. */
  method FillBlockSamples(img: Image, pixval: array<Byte>)
    requires pixval.Length == 64
    requires forall k :: 0 <= k < 64 ==> pixval[k] == 0
    modifies pixval
    ensures pixval[..] == BlockSamples(img)
  {
    ghost var vs := BlockSamples(img);
    var pix := 0;
    var x := 0;
    while x < 8
      invariant 0 <= x <= 8 && pix == 4 * x && Filled(pixval[..], vs, pix)
    {
      var y := 0;
      while y < 4
        invariant 0 <= y <= 4 && pix == 4 * x + y && Filled(pixval[..], vs, pix)
      {
        FirstBlocks(x, y);
        StoreBlock(img, pixval, pix, x * BlockSize, y * BlockSize);
        pix := pix + 1;
        y := y + 1;
      }
      x := x + 1;
    }
    x := 0;
    while x < 2
      invariant 0 <= x <= 2 && pix == 32 + 12 * x && Filled(pixval[..], vs, pix)
    {
      var y := 4;
      while y < 16
        invariant 4 <= y <= 16 && pix == 32 + 12 * x + (y - 4) && Filled(pixval[..], vs, pix)
      {
        SideBlocks(x, y);
        StoreBlock(img, pixval, pix, x * BlockSize, y * BlockSize);
        pix := pix + 1;
        y := y + 1;
      }
      x := x + 1;
    }
    x := 3;
    ghost var jx := 0;
    while x < 7
      invariant 0 <= jx <= 2 && x == 3 + 3 * jx && pix == 56 + 4 * jx && Filled(pixval[..], vs, pix)
    {
      var y := 5;
      ghost var jy := 0;
      while y < 15
        invariant 0 <= jy <= 4 && y == 5 + 3 * jy && pix == 56 + 4 * jx + jy && Filled(pixval[..], vs, pix)
      {
        SparseBlockAt(jx, jy);
        StoreBlock(img, pixval, pix, x * BlockSize, y * BlockSize);
        pix := pix + 1;
        y, jy := y + 3, jy + 1;
      }
      x, jx := x + 3, jx + 1;
    }
    assert forall k :: 0 <= k < 64 ==> pixval[k] == vs[k];
  }

  /**
   * `Hash_Algorithm_slow`: derives each block position from the sample
   * index, shifts only from the second sample on, and sets the top bit at
   * the last sample when the first one is at least as bright.
   */
  method HashAlgorithmSlow(img: Image) returns (hash: U64)
    ensures hash == SlowSpec(img)
  {
    ghost var vs := BlockSamples(img);
    ghost var bits := Comparisons(vs[1..], vs[0]);
    hash := 0;
    var firstVal, lastVal := 0, 0;
    for i := 0 to 64
      invariant i > 0 ==> firstVal == vs[0] && lastVal == vs[i - 1]
      invariant i < 64 ==> hash == Pack(bits[..if i == 0 then 0 else i - 1])
      invariant i == 64 ==> hash == WrapChainHash(vs)
    {
      var val := ReadBlock(img, i);
      if i > 0 {
        PackSnoc(bits, i - 1);
        hash := ShiftIn(hash, val >= lastVal);
      } else {
        firstVal := val;
      }
      if i == 63 {
        assert bits[..63] == bits;
        if firstVal >= val {
          hash := SetTopBit(hash);
        }
      }
      lastVal := val;
    }
  }

  /** The sample of `Hash_Algorithm_slow`'s iteration i: the block position derived from i, then its intensity or 0. */
  method ReadBlock(img: Image, i: nat) returns (val: Byte)
    requires i < 64
    ensures val == BlockSamples(img)[i]
  {
    var x: nat, y: nat;
    if i < 32 {
      x, y := i / 4, i % 4;
    } else if i < 56 {
      x, y := (i - 32) / 12, (i - 32) % 12 + 4;
    } else {
      x, y := (i - 56) / 4 * 3 + 3, (i - 56) % 4 * 3 + 5;
    }
    x, y := x * BlockSize, y * BlockSize;
    assert Coord(x, y) == BlockCoord(i);
    if x < img.width && y < img.height {
      val := Intensity(img.pixel(x, y));
    } else {
      val := 0;
    }
  }


  /**
   * One sample of the block loops of `Hash_Algorithm_1_lessslow`: the
   * intensity at (x, y), or 0 outside the image, shifted in against the
   * previous sample.
   */
  method ShiftBlock(img: Image, x: nat, y: nat, ghost vs: seq<Byte>, ghost k: nat, hashIn: U64, lastIn: Byte)
    returns (hash: U64, val: Byte)
    requires |vs| == 64 && 1 <= k < 64
    requires Coord(x, y) == BlockCoord(k) && vs[k] == BlockSamples(img)[k]
    requires hashIn == Pack(Comparisons(vs[1..], vs[0])[..k - 1]) && lastIn == vs[k - 1]
    ensures hash == Pack(Comparisons(vs[1..], vs[0])[..k]) && val == vs[k]
  {
    if x < img.width && y < img.height {
      val := Intensity(img.pixel(x, y));
    } else {
      val := 0;
    }
    PackSnoc(Comparisons(vs[1..], vs[0]), k - 1);
    hash := ShiftIn(hashIn, val >= lastIn);
  }

  /**
   * The block loops of `Hash_Algorithm_1_lessslow`, samples 4 to 63: x and y
   * step over the block grid in pixels, each sample shifted in against the
   * previous one.
   */
  method LessSlowBlocks(img: Image, ghost vs: seq<Byte>, hashIn: U64, lastIn: Byte) returns (hash: U64, lastVal: Byte)
    requires |vs| == 64
    requires forall k :: 4 <= k < 64 ==> vs[k] == BlockSamples(img)[k]
    requires hashIn == Pack(Comparisons(vs[1..], vs[0])[..3]) && lastIn == vs[3]
    ensures hash == Pack(Comparisons(vs[1..], vs[0])) && lastVal == vs[63]
  {
    hash, lastVal := FirstBlockColumns(img, vs, hashIn, lastIn);
    hash, lastVal := SideBlockRows(img, vs, hash, lastVal);
    hash, lastVal := SparseBlocks(img, vs, hash, lastVal);
    assert Comparisons(vs[1..], vs[0])[..63] == Comparisons(vs[1..], vs[0]);
  }

  /** Samples 4 to 31: block columns 1 to 7, block rows 0 to 3. */
  method FirstBlockColumns(img: Image, ghost vs: seq<Byte>, hashIn: U64, lastIn: Byte) returns (hash: U64, lastVal: Byte)
    requires |vs| == 64
    requires forall k :: 4 <= k < 32 ==> vs[k] == BlockSamples(img)[k]
    requires hashIn == Pack(Comparisons(vs[1..], vs[0])[..3]) && lastIn == vs[3]
    ensures hash == Pack(Comparisons(vs[1..], vs[0])[..31]) && lastVal == vs[31]
  {
    ghost var bits := Comparisons(vs[1..], vs[0]);
    ghost var k := 4;
    hash, lastVal := hashIn, lastIn;
    var x := BlockSize;
    ghost var col := 1;
    while x < BlockSize * 8
      invariant 1 <= col <= 8 && x == col * BlockSize && k == 4 * col
      invariant hash == Pack(bits[..k - 1]) && lastVal == vs[k - 1]
    {
      var y := 0;
      ghost var row := 0;
      while y < BlockSize * 4
        invariant 0 <= row <= 4 && y == row * BlockSize && k == 4 * col + row
        invariant hash == Pack(bits[..k - 1]) && lastVal == vs[k - 1]
      {
        FirstBlocks(col, row);
        hash, lastVal := ShiftBlock(img, x, y, vs, k, hash, lastVal);
        y, row, k := y + BlockSize, row + 1, k + 1;
      }
      x, col := x + BlockSize, col + 1;
    }
  }

  /** Samples 32 to 55: block columns 0 and 1, block rows 4 to 15. */
  method SideBlockRows(img: Image, ghost vs: seq<Byte>, hashIn: U64, lastIn: Byte) returns (hash: U64, lastVal: Byte)
    requires |vs| == 64
    requires forall k :: 32 <= k < 56 ==> vs[k] == BlockSamples(img)[k]
    requires hashIn == Pack(Comparisons(vs[1..], vs[0])[..31]) && lastIn == vs[31]
    ensures hash == Pack(Comparisons(vs[1..], vs[0])[..55]) && lastVal == vs[55]
  {
    ghost var bits := Comparisons(vs[1..], vs[0]);
    ghost var k := 32;
    hash, lastVal := hashIn, lastIn;
    var x := 0;
    ghost var col := 0;
    while x < BlockSize * 2
      invariant 0 <= col <= 2 && x == col * BlockSize && k == 32 + 12 * col
      invariant hash == Pack(bits[..k - 1]) && lastVal == vs[k - 1]
    {
      var y := BlockSize * 4;
      ghost var row := 4;
      while y < BlockSize * 16
        invariant 4 <= row <= 16 && y == row * BlockSize && k == 32 + 12 * col + (row - 4)
        invariant hash == Pack(bits[..k - 1]) && lastVal == vs[k - 1]
      {
        SideBlocks(col, row);
        hash, lastVal := ShiftBlock(img, x, y, vs, k, hash, lastVal);
        y, row, k := y + BlockSize, row + 1, k + 1;
      }
      x, col := x + BlockSize, col + 1;
    }
  }

  /** Samples 56 to 63: block columns 3 and 6, block rows 5, 8, 11 and 14. */
  method SparseBlocks(img: Image, ghost vs: seq<Byte>, hashIn: U64, lastIn: Byte) returns (hash: U64, lastVal: Byte)
    requires |vs| == 64
    requires forall k :: 56 <= k < 64 ==> vs[k] == BlockSamples(img)[k]
    requires hashIn == Pack(Comparisons(vs[1..], vs[0])[..55]) && lastIn == vs[55]
    ensures hash == Pack(Comparisons(vs[1..], vs[0])[..63]) && lastVal == vs[63]
  {
    ghost var bits := Comparisons(vs[1..], vs[0]);
    ghost var k := 56;
    hash, lastVal := hashIn, lastIn;
    var x := BlockSize * 3;
    ghost var col := 0;
    while x <= BlockSize * 6
      invariant 0 <= col <= 2 && x == (3 + 3 * col) * BlockSize && k == 56 + 4 * col
      invariant hash == Pack(bits[..k - 1]) && lastVal == vs[k - 1]
    {
      var y := BlockSize * 5;
      ghost var row := 0;
      while y <= BlockSize * 14
        invariant 0 <= row <= 4 && y == (5 + 3 * row) * BlockSize && k == 56 + 4 * col + row
        invariant hash == Pack(bits[..k - 1]) && lastVal == vs[k - 1]
      {
        SparseBlockAt(col, row);
        hash, lastVal := ShiftBlock(img, x, y, vs, k, hash, lastVal);
        y, row, k := y + BlockSize * 3, row + 1, k + 1;
      }
      x, col := x + BlockSize * 3, col + 1;
    }
  }

  /**
   * `Hash_Algorithm_1_lessslow` as written: its first loop steps y over
   * 1, 2, 3 instead of 16, 32, 48, so samples 1 to 3 come from the top
   * rows of column 0 rather than from the first column of blocks.
   */
  method HashAlgorithm1LessSlow(img: Image) returns (hash: U64)
    requires img.width > 0 && img.height > 0
    ensures hash == WrapChainHash(LessSlowSamples(img))
  {
    ghost var vs := LessSlowSamples(img);
    ghost var bits := Comparisons(vs[1..], vs[0]);
    hash := 0;
    var firstVal := Intensity(img.pixel(0, 0));
    var lastVal := firstVal;
    var val := 0;
    var y := 1;
    while y < 4
      invariant 1 <= y <= 4
      invariant hash == Pack(bits[..y - 1]) && lastVal == vs[y - 1]
    {
      if y < img.height {
        val := Intensity(img.pixel(0, y));
      } else {
        val := 0;
      }
      PackSnoc(bits, y - 1);
      hash := ShiftIn(hash, val >= lastVal);
      lastVal := val;
      y := y + 1;
    }
    hash, lastVal := LessSlowBlocks(img, vs, hash, lastVal);
    if firstVal >= lastVal {
      hash := SetTopBit(hash);
    }
  }

  /**
   * `Hash_Algorithm_1_lessslow` with the first loop stepping by the block
   * size, as the commented-out loop header beside it reads: it computes
   * exactly `Hash_Algorithm_slow`.
   */
  method HashAlgorithm1LessSlowFixed(img: Image) returns (hash: U64)
    requires img.width > 0 && img.height > 0
    ensures hash == SlowSpec(img)
  {
    ghost var vs := BlockSamples(img);
    assert BlockCoord(0) == Coord(0, 0);
    var firstVal := Intensity(img.pixel(0, 0));
    var lastVal;
    hash, lastVal := FirstColumnBlocks(img, vs, firstVal);
    hash, lastVal := LessSlowBlocks(img, vs, hash, lastVal);
    if firstVal >= lastVal {
      hash := SetTopBit(hash);
    }
  }

  /** Samples 1 to 3 with the loop stepping by the block size: blocks 1 to 3 of column 0. */
  method FirstColumnBlocks(img: Image, ghost vs: seq<Byte>, firstVal: Byte) returns (hash: U64, lastVal: Byte)
    requires img.width > 0 && vs == BlockSamples(img) && firstVal == vs[0]
    ensures hash == Pack(Comparisons(vs[1..], vs[0])[..3]) && lastVal == vs[3]
  {
    ghost var bits := Comparisons(vs[1..], vs[0]);
    hash, lastVal := 0, firstVal;
    var y := BlockSize;
    ghost var row := 1;
    while y < BlockSize * 4
      invariant 1 <= row <= 4 && y == row * BlockSize
      invariant hash == Pack(bits[..row - 1]) && lastVal == vs[row - 1]
    {
      FirstBlocks(0, row);
      hash, lastVal := ShiftBlock(img, 0, y, vs, row, hash, lastVal);
      y, row := y + BlockSize, row + 1;
    }
  }



  /** Bit 63 - i of `Old_Hash_Algorithm_1` says sample i is at least as bright as sample (i + 63) % 64. */
  lemma OldHashBits(img: Image, i: nat)
    requires i < 64
    ensures Bit(OldSpec(img), 63 - i) <==> BlockSamples(img)[i] >= BlockSamples(img)[(i + 63) % 64]
  {
    CyclicBits(BlockSamples(img), i);
  }

  lemma CyclicBits(vs: seq<Byte>, i: nat)
    requires |vs| == 64 && i < 64
    ensures Bit(Pack(Comparisons(vs, vs[63])), 63 - i) <==> vs[i] >= vs[(i + 63) % 64]
  {
    var bits := Comparisons(vs, vs[63]);
    PackIsBinary(bits);
    BinaryBit(bits, i);
    var prev := if i == 0 then 63 else i - 1;
    assert (i + 63) % 64 == prev;
    assert bits[i] <==> vs[i] >= vs[prev];
  }

  /**
   * With only 63 shifts, the top bit of the hash carries nothing but the
   * wrap-around comparison of the first sample with the last one.
   */
  lemma WrapChainTopBit(vs: seq<Byte>)
    requires |vs| == 64
    ensures BinaryValue(Comparisons(vs[1..], vs[0])) < TopBit
    ensures WrapChainHash(vs) == (if vs[0] >= vs[63] then TopBit else 0) + BinaryValue(Comparisons(vs[1..], vs[0]))
  {
    PackIsBinary(Comparisons(vs[1..], vs[0]));
    Pow2Values();
  }

  /**
   * `Hash_Algorithm_slow` computes the same hash as `Old_Hash_Algorithm_1`:
   * setting the top bit after 63 shifts is the same as shifting the
   * wrap-around comparison in first.
   */
  lemma SlowEqualsOld(img: Image)
    ensures SlowSpec(img) == OldSpec(img)
  {
    var vs := BlockSamples(img);
    var rest := Comparisons(vs[1..], vs[0]);
    var full := Comparisons(vs, vs[63]);
    assert full == [vs[0] >= vs[63]] + rest;
    PackIsBinary(full);
    BinaryFront(vs[0] >= vs[63], rest);
    WrapChainTopBit(vs);
    Pow2Values();
  }

  /**
   * In `Hash_Algorithm_1` the first comparison is of sample 0 with itself, so
   * the top bit is always set and the wrap-around `|=` never changes the
   * hash; bit 63 - i, for i from 1, compares sample i with sample i - 1.
   */
  lemma Hash1TopBitAlwaysSet(img: Image)
    ensures Hash1Spec(img) >= TopBit
    ensures Hash1Spec(img) == Pack(Comparisons(Hash1Samples(img), Hash1Samples(img)[0]))
    ensures forall i :: 1 <= i < 64 ==>
              (Bit(Hash1Spec(img), 63 - i) <==> Hash1Samples(img)[i] >= Hash1Samples(img)[i - 1])
  {
    var vs := Hash1Samples(img);
    var bits := Comparisons(vs, vs[0]);
    PackIsBinary(bits);
    assert bits == [true] + bits[1..];
    BinaryFront(true, bits[1..]);
    Pow2Values();
    forall i | 1 <= i < 64
      ensures Bit(Hash1Spec(img), 63 - i) <==> vs[i] >= vs[i - 1]
    {
      BinaryBit(bits, i);
    }
  }

  /** The image that tells `Hash_Algorithm_1_lessslow` apart: white at (0, 0) and (0, 16), black elsewhere. */
  function ProbeImage(): Image
  {
    Image(256, 256, (x: nat, y: nat) => if x == 0 && (y == 0 || y == 16) then Color(255, 255, 255, 255) else Black)
  }

  /**
   * Below the top bit, the next bit of the wrap-chain hash is the first
   * comparison: it is set exactly when sample 1 is at least as bright as
   * sample 0.
   */
  lemma WrapChainSecondBit(vs: seq<Byte>)
    requires |vs| == 64
    ensures var rest := WrapChainHash(vs) - (if vs[0] >= vs[63] then TopBit else 0);
      0 <= rest < TopBit && (rest >= Pow2(62) <==> vs[1] >= vs[0])
  {
    WrapChainTopBit(vs);
    var bits := Comparisons(vs[1..], vs[0]);
    assert bits == [bits[0]] + bits[1..];
    BinaryFront(bits[0], bits[1..]);
    PackIsBinary(bits[1..]);
  }

  /**
   * As written, `Hash_Algorithm_1_lessslow` does not compute the hash of
   * `Hash_Algorithm_slow`: on the probe image its sample 1 is the black
   * pixel (0, 1) instead of the white block at (0, 16), so bit 62 differs.
   */
  lemma LessSlowMissesBlockRows()
    ensures WrapChainHash(LessSlowSamples(ProbeImage())) != SlowSpec(ProbeImage())
  {
    var img := ProbeImage();
    var written := LessSlowSamples(img);
    var intended := BlockSamples(img);
    assert LessSlowCoord(0) == BlockCoord(0) == Coord(0, 0);
    assert LessSlowCoord(1) == Coord(0, 1) && BlockCoord(1) == Coord(0, 16);
    assert LessSlowCoord(63) == BlockCoord(63) == Coord(96, 224);
    assert written[0] == 255 && written[1] == 0 && written[63] == 0;
    assert intended[0] == 255 && intended[1] == 255 && intended[63] == 0;
    WrapChainSecondBit(written);
    WrapChainSecondBit(intended);
  }
}
