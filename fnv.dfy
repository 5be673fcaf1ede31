// The FNV-1a style fingerprint of a texture: a fixed table of sample
// positions is read, each sample's intensity is folded into a 64-bit hash,
// optionally followed by the rounded mean of each colour channel, and tall
// textures are fingerprinted as an upper and a lower 128-row object as well.

module Fnv {
  import opened Word
  import opened Pixels

  const FnvOffsetBasis: U64 := 14695981039346656037
  const FnvPrime: U64 := 1099511628211

  /** Side of the square game VRAM page; an object is half of it, 128 rows. */
  const VramDim: nat := 256
  const HalfDim: nat := VramDim / 2

  const FnvCoordsLen: nat := 121

  /** The production sample table: 121 positions inside one 128x128 object. */
  const FnvCoords: seq<Coord> := [
    Coord(11, 9), Coord(22, 7), Coord(28, 7), Coord(39, 9), Coord(53, 9), Coord(60, 7),
    Coord(76, 11), Coord(88, 8), Coord(91, 11), Coord(102, 7), Coord(115, 9), Coord(11, 15),
    Coord(22, 19), Coord(28, 20), Coord(40, 22), Coord(54, 16), Coord(60, 17), Coord(76, 17),
    Coord(87, 20), Coord(91, 20), Coord(107, 20), Coord(115, 13), Coord(11, 24), Coord(22, 29),
    Coord(28, 30), Coord(39, 29), Coord(46, 30), Coord(60, 30), Coord(70, 30), Coord(87, 25),
    Coord(93, 25), Coord(102, 27), Coord(115, 33), Coord(11, 38), Coord(22, 39), Coord(28, 44),
    Coord(39, 41), Coord(55, 35), Coord(60, 38), Coord(70, 40), Coord(87, 37), Coord(99, 44),
    Coord(102, 43), Coord(115, 35), Coord(11, 50), Coord(21, 46), Coord(25, 51), Coord(40, 48),
    Coord(46, 46), Coord(60, 46), Coord(76, 47), Coord(87, 47), Coord(93, 49), Coord(107, 53),
    Coord(115, 49), Coord(11, 61), Coord(22, 59), Coord(25, 59), Coord(40, 59), Coord(55, 57),
    Coord(60, 61), Coord(70, 58), Coord(87, 59), Coord(99, 58), Coord(102, 59), Coord(115, 57),
    Coord(7, 77), Coord(21, 77), Coord(24, 71), Coord(36, 77), Coord(46, 76), Coord(60, 77),
    Coord(70, 70), Coord(87, 71), Coord(93, 77), Coord(102, 69), Coord(115, 77), Coord(11, 84),
    Coord(21, 80), Coord(27, 85), Coord(39, 79), Coord(55, 85), Coord(60, 81), Coord(75, 86),
    Coord(82, 84), Coord(93, 84), Coord(107, 79), Coord(115, 79), Coord(11, 92), Coord(22, 97),
    Coord(28, 90), Coord(40, 93), Coord(46, 92), Coord(60, 91), Coord(76, 97), Coord(82, 98),
    Coord(93, 90), Coord(102, 99), Coord(115, 99), Coord(6, 107), Coord(22, 101), Coord(31, 102),
    Coord(41, 108), Coord(55, 107), Coord(60, 107), Coord(70, 104), Coord(87, 101), Coord(93, 105),
    Coord(102, 101), Coord(115, 109), Coord(11, 112), Coord(21, 112), Coord(27, 113),
    Coord(41, 112), Coord(55, 113), Coord(60, 120), Coord(70, 116), Coord(82, 112), Coord(93, 113),
    Coord(107, 117), Coord(115, 113)
  ]

  /** Multiplying an upper-object hash by this accounts for an all-black lower object. */
  const NoLowerFactor: U64 := PowMod(FnvPrime, FnvCoordsLen)
  const NoLowerRgbFactor: U64 := Mul(NoLowerFactor, PowMod(FnvPrime, 3))

  /** Starting a lower-object hash from this accounts for an all-black upper object. */
  const NoUpperBasis: U64 := Mul(FnvOffsetBasis, NoLowerFactor)
  const NoUpperRgbBasis: U64 := Mul(FnvOffsetBasis, NoLowerRgbFactor)

  function NoLowerFactorFor(useRgb: bool): U64
  {
    if useRgb then NoLowerRgbFactor else NoLowerFactor
  }

  function NoUpperBasisFor(useRgb: bool): U64
  {
    if useRgb then NoUpperRgbBasis else NoUpperBasis
  }

  /** One FNV step: `hash ^= val; hash *= FNV_OFFSET_PRIME`. */
  function Step(h: U64, v: Byte): U64
  {
    Mul(XorByte(h, v), FnvPrime)
  }

  /** The hash after feeding the values `vs` in order, starting from `h`. */
  function Fold(h: U64, vs: seq<Byte>): U64
    decreases |vs|
  {
    if vs == [] then h else Step(Fold(h, vs[..|vs| - 1]), vs[|vs| - 1])
  }

  function Zeros(n: nat): (z: seq<Byte>)
    ensures |z| == n && forall i :: 0 <= i < n ==> z[i] == 0
  {
    seq(n, _ => 0)
  }

  /** Appending one value performs one more step. */
  lemma FoldSnoc(h: U64, vs: seq<Byte>, v: Byte)
    ensures Fold(h, vs + [v]) == Step(Fold(h, vs), v)
  {
    assert (vs + [v])[..|vs|] == vs;
  }

  /** Three more values perform three more steps, in order. */
  lemma FoldThree(h: U64, x: Byte, y: Byte, z: Byte)
    ensures Fold(h, [x, y, z]) == Step(Step(Step(h, x), y), z)
  {
    FoldSnoc(h, [], x);
    FoldSnoc(h, [x], y);
    assert [x] + [y] == [x, y];
    FoldSnoc(h, [x, y], z);
    assert [x, y] + [z] == [x, y, z];
  }

  /** Hashing a concatenation is hashing the second part from the state the first part left. */
  lemma {:induction false} FoldAppend(h: U64, a: seq<Byte>, b: seq<Byte>)
    ensures Fold(h, a + b) == Fold(Fold(h, a), b)
    decreases |b|
  {
    if b == [] {
      assert a + b == a;
    } else {
      var init, last := b[..|b| - 1], b[|b| - 1];
      assert b == init + [last];
      assert a + b == (a + init) + [last];
      FoldAppend(h, a, init);
      FoldSnoc(h, a + init, last);
      FoldSnoc(Fold(h, a), init, last);
    }
  }

  /** Feeding n zero samples multiplies the state by FNV_OFFSET_PRIME^n (mod 2^64). */
  lemma {:induction false} FoldZeros(h: U64, n: nat)
    ensures Fold(h, Zeros(n)) == Mul(h, PowMod(FnvPrime, n))
    decreases n
  {
    if n == 0 {
      MulOne(h);
    } else {
      FoldZeros(h, n - 1);
      assert Zeros(n)[..n - 1] == Zeros(n - 1);
      MulAssoc(h, PowMod(FnvPrime, n - 1), FnvPrime);
    }
  }

  datatype Channel = Red | Green | Blue

  function ChannelOf(c: Color, ch: Channel): Byte
  {
    match ch
    case Red => c.r
    case Green => c.g
    case Blue => c.b
  }

  /** The sum of one channel over the samples; out-of-bounds samples add nothing. */
  function ChannelSum(img: Image, coords: seq<Coord>, ch: Channel): (s: nat)
    ensures s <= 255 * |coords|
    decreases |coords|
  {
    if coords == [] then 0
    else ChannelSum(img, coords[..|coords| - 1], ch) + ChannelOf(Sample(img, coords[|coords| - 1]), ch)
  }

  /** How a channel mean becomes a byte: `(uchar)avg` or `(uchar)round(avg)`. */
  datatype Rounding = Truncate | RoundHalfUp

  /** The mean `sum / n` converted to a byte under `rounding`. */
  function Average(sum: nat, n: nat, rounding: Rounding): (avg: Byte)
    requires n > 0 && sum <= 255 * n
    ensures rounding == Truncate ==> n * avg <= sum < n * (avg + 1)
    ensures rounding == RoundHalfUp ==> n * (2 * avg - 1) <= 2 * sum < n * (2 * avg + 1)
  {
    match rounding
    case Truncate =>
      DivBounds(sum, n);
      DivBelow(sum, n, 256);
      sum / n
    case RoundHalfUp =>
      HalfUpBounds(sum, n);
      (2 * sum + n) / (2 * n)
  }

  /** `(2 sum + n) / 2n` is the mean rounded half up, and stays a byte. */
  lemma HalfUpBounds(sum: nat, n: nat)
    requires n > 0 && sum <= 255 * n
    ensures var q := (2 * sum + n) / (2 * n);
      q < 256 && n * (2 * q - 1) <= 2 * sum < n * (2 * q + 1)
  {
    var q := (2 * sum + n) / (2 * n);
    DivBounds(2 * sum + n, 2 * n);
    DivBelow(2 * sum + n, 2 * n, 256);
    assert (2 * n) * q == 2 * (n * q);
    assert (2 * n) * (q + 1) == 2 * (n * q) + 2 * n;
    assert n * (2 * q - 1) == 2 * (n * q) - n;
    assert n * (2 * q + 1) == 2 * (n * q) + n;
  }

  /** The intensities of the samples, in table order. */
  function Samples(img: Image, coords: seq<Coord>): (vs: seq<Byte>)
    ensures |vs| == |coords|
  {
    seq(|coords|, i requires 0 <= i < |coords| => Intensity(Sample(img, coords[i])))
  }

  /** The three channel means that follow the samples when RGB mixing is on. */
  function RgbTail(img: Image, coords: seq<Coord>, rounding: Rounding): (t: seq<Byte>)
    requires |coords| > 0
    ensures |t| == 3
  {
    [Average(ChannelSum(img, coords, Red), |coords|, rounding),
     Average(ChannelSum(img, coords, Green), |coords|, rounding),
     Average(ChannelSum(img, coords, Blue), |coords|, rounding)]
  }

  function TailLen(useRgb: bool): nat
  {
    if useRgb then 3 else 0
  }

  /** Every value one pass over the table feeds into the hash, in order. */
  function PassValues(img: Image, coords: seq<Coord>, useRgb: bool, rounding: Rounding): (vs: seq<Byte>)
    requires !useRgb || |coords| > 0
    ensures |vs| == |coords| + TailLen(useRgb)
  {
    Samples(img, coords) + (if useRgb then RgbTail(img, coords, rounding) else [])
  }

  /** The intensities of one more position extend the intensities of the shorter table. */
  lemma SamplesSnoc(img: Image, coords: seq<Coord>, i: nat)
    requires i < |coords|
    ensures Samples(img, coords[..i + 1]) == Samples(img, coords[..i]) + [Intensity(Sample(img, coords[i]))]
  {
  }

  /** The channel sums of one more position extend the sums of the shorter table. */
  lemma ChannelSumSnoc(img: Image, coords: seq<Coord>, i: nat, ch: Channel)
    requires i < |coords|
    ensures ChannelSum(img, coords[..i + 1], ch) == ChannelSum(img, coords[..i], ch) + ChannelOf(Sample(img, coords[i]), ch)
  {
    assert coords[..i + 1][..i] == coords[..i];
  }

  /** Folding the three channel means into the hash of the samples completes the pass. */
  lemma FoldRgbTail(basis: U64, img: Image, coords: seq<Coord>, rounding: Rounding, h: U64)
    requires |coords| > 0 && h == Fold(basis, Samples(img, coords))
    ensures var t := RgbTail(img, coords, rounding);
      Step(Step(Step(h, t[0]), t[1]), t[2]) == Fold(basis, PassValues(img, coords, true, rounding))
  {
    var t := RgbTail(img, coords, rounding);
    FoldThree(h, t[0], t[1], t[2]);
    assert t == [t[0], t[1], t[2]];
    FoldAppend(basis, Samples(img, coords), t);
  }

  /**
   * One sampling pass as each hash function writes it: read every table
   * position, fold its intensity into the hash, then fold in the channel
   * means when `useRgb` is set.
   */
  method HashPass(img: Image, coords: seq<Coord>, useRgb: bool, rounding: Rounding, basis: U64)
    returns (hash: U64)
    requires !useRgb || |coords| > 0
    ensures hash == Fold(basis, PassValues(img, coords, useRgb, rounding))
  {
    hash := basis;
    var red, green, blue := 0, 0, 0;
    var count := 0;
    for i := 0 to |coords|
      invariant hash == Fold(basis, Samples(img, coords[..i]))
      invariant red == ChannelSum(img, coords[..i], Red)
      invariant green == ChannelSum(img, coords[..i], Green)
      invariant blue == ChannelSum(img, coords[..i], Blue)
      invariant count == i
    {
      var point := coords[i];
      var val := 0;
      if InBounds(img, point) {
        var color := img.pixel(point.x, point.y);
        val := Intensity(color);
        red, green, blue := red + color.r, green + color.g, blue + color.b;
      }
      assert val == Intensity(Sample(img, point));
      SamplesSnoc(img, coords, i);
      FoldSnoc(basis, Samples(img, coords[..i]), val);
      ChannelSumSnoc(img, coords, i, Red);
      ChannelSumSnoc(img, coords, i, Green);
      ChannelSumSnoc(img, coords, i, Blue);
      hash := Step(hash, val);
      count := count + 1;
    }
    assert coords[..|coords|] == coords;
    if useRgb {
      var r := Average(red, count, rounding);
      var g := Average(green, count, rounding);
      var b := Average(blue, count, rounding);
      FoldRgbTail(basis, img, coords, rounding, hash);
      hash := Step(hash, r);
      hash := Step(hash, g);
      hash := Step(hash, b);
    } else {
      assert PassValues(img, coords, useRgb, rounding) == Samples(img, coords);
    }
  }

  /** `FNV_Hash` of the plug-in: the fingerprint of one object, channel means rounded to nearest. */
  method FnvHash(img: Image, coords: seq<Coord>, useRgb: bool) returns (hash: U64)
    requires !useRgb || |coords| > 0
    ensures hash == Fold(FnvOffsetBasis, PassValues(img, coords, useRgb, RoundHalfUp))
  {
    hash := HashPass(img, coords, useRgb, RoundHalfUp, FnvOffsetBasis);
  }

  /** `FNV_Hash` of the ConsoleTesting program over a coordinate array: channel means truncated. */
  method FnvHashTruncating(img: Image, coords: seq<Coord>, useRgb: bool) returns (hash: U64)
    requires !useRgb || |coords| > 0
    ensures hash == Fold(FnvOffsetBasis, PassValues(img, coords, useRgb, Truncate))
  {
    hash := HashPass(img, coords, useRgb, Truncate, FnvOffsetBasis);
  }

  /**
   * `FNV_Hash` of the ConsoleTesting program over a `std::deque<coord>`: the same
   * computation as the array overload, walking the queue front to back.
   */
  method FnvHashDeque(img: Image, coords: seq<Coord>, useRgb: bool) returns (hash: U64)
    requires !useRgb || |coords| > 0
    ensures hash == Fold(FnvOffsetBasis, PassValues(img, coords, useRgb, Truncate))
  {
    var red, green, blue, count;
    hash, red, green, blue, count := WalkQueue(img, coords);
    if useRgb {
      var r := Average(red, count, Truncate);
      var g := Average(green, count, Truncate);
      var b := Average(blue, count, Truncate);
      FoldRgbTail(FnvOffsetBasis, img, coords, Truncate, hash);
      hash := Step(hash, r);
      hash := Step(hash, g);
      hash := Step(hash, b);
    } else {
      assert PassValues(img, coords, useRgb, Truncate) == Samples(img, coords);
    }
  }

  /** The loop of the deque overload: walks the queue front to back, folding in each intensity and summing the channels. */
  method WalkQueue(img: Image, coords: seq<Coord>) returns (hash: U64, red: nat, green: nat, blue: nat, count: nat)
    ensures hash == Fold(FnvOffsetBasis, Samples(img, coords)) && count == |coords|
    ensures red == ChannelSum(img, coords, Red) && green == ChannelSum(img, coords, Green)
    ensures blue == ChannelSum(img, coords, Blue)
  {
    hash := FnvOffsetBasis;
    red, green, blue := 0, 0, 0;
    count := 0;
    var rest := coords;
    while rest != []
      invariant count <= |coords| && rest == coords[count..] && |rest| == |coords| - count
      invariant hash == Fold(FnvOffsetBasis, Samples(img, coords[..count]))
      invariant red == ChannelSum(img, coords[..count], Red)
      invariant green == ChannelSum(img, coords[..count], Green)
      invariant blue == ChannelSum(img, coords[..count], Blue)
      decreases |rest|
    {
      assert rest[0] == coords[count] && rest[1..] == coords[count + 1..];
      var point := rest[0];
      rest := rest[1..];
      var val := 0;
      if InBounds(img, point) {
        var color := img.pixel(point.x, point.y);
        val := Intensity(color);
        red, green, blue := red + color.r, green + color.g, blue + color.b;
      }
      assert val == Intensity(Sample(img, point));
      SamplesSnoc(img, coords, count);
      FoldSnoc(FnvOffsetBasis, Samples(img, coords[..count]), val);
      ChannelSumSnoc(img, coords, count, Red);
      ChannelSumSnoc(img, coords, count, Green);
      ChannelSumSnoc(img, coords, count, Blue);
      hash := Step(hash, val);
      count := count + 1;
    }
    assert coords[..count] == coords;
  }


  function Min(a: int, b: int): int
  {
    if a < b then a else b
  }

  function Max(a: int, b: int): int
  {
    if a < b then b else a
  }

  /** First row of the lower object: the last place a full object fits, but never past row 128. */
  function LowerStart(height: nat): nat
    requires height > HalfDim
  {
    Min(height - HalfDim, HalfDim)
  }

  /**
   * The lower object of a tall texture: the rows from `LowerStart` to the
   * bottom, at least 128 of them, with row 0 of the window being row
   * `LowerStart` of the texture.
   */
  function LowerWindow(img: Image): (w: Image)
    requires img.height > HalfDim
    ensures w.width == img.width && w.height >= HalfDim
    ensures LowerStart(img.height) + w.height == img.height
    ensures forall x: nat, y: nat :: w.pixel(x, y) == img.pixel(x, y + LowerStart(img.height))
  {
    var start := LowerStart(img.height);
    Image(img.width, Max(img.height - HalfDim, HalfDim), (x: nat, y: nat) => img.pixel(x, y + start))
  }

  /** The three fingerprints of a texture. */
  datatype Fingerprints = Fingerprints(combined: U64, upper: U64, lower: U64)

  /**
   * What `FNV_Hash_Combined` returns. A texture of at most 128 rows has one
   * object: combined and upper agree and lower is 0. A taller one is also
   * hashed as two objects: the combined hash continues over the lower window,
   * the upper hash is scaled as if the lower object were black, and the lower
   * hash starts from the basis an all-black upper object would leave.
   */
  function CombinedSpec(img: Image, coords: seq<Coord>, useRgb: bool): Fingerprints
    requires !useRgb || |coords| > 0
  {
    var upperValues := PassValues(img, coords, useRgb, RoundHalfUp);
    var upperHash := Fold(FnvOffsetBasis, upperValues);
    if img.height > HalfDim then
      var lowerValues := PassValues(LowerWindow(img), coords, useRgb, RoundHalfUp);
      Fingerprints(Fold(FnvOffsetBasis, upperValues + lowerValues),
                   Mul(upperHash, NoLowerFactorFor(useRgb)),
                   Fold(NoUpperBasisFor(useRgb), lowerValues))
    else
      Fingerprints(upperHash, upperHash, 0)
  }

  /** The no-upper bases are odd, hence never 0: the `if (hash_lower)` test means "taller than 128 rows". */
  lemma NoUpperBasisOdd(useRgb: bool)
    ensures NoUpperBasisFor(useRgb) % 2 == 1
  {
    PowModOdd(FnvPrime, FnvCoordsLen);
    PowModOdd(FnvPrime, 3);
    MulOdd(NoLowerFactor, PowMod(FnvPrime, 3));
    MulOdd(FnvOffsetBasis, NoLowerFactor);
    MulOdd(FnvOffsetBasis, NoLowerRgbFactor);
  }

  /**
   * The second pass of `FNV_Hash_Combined`: one walk over the lower object
   * that feeds every value both into the lower hash and into the combined
   * hash.
   */
  method TwinPass(window: Image, coords: seq<Coord>, useRgb: bool, lowerBasis: U64, combinedSoFar: U64)
    returns (hashLower: U64, hash: U64)
    requires !useRgb || |coords| > 0
    ensures hashLower == Fold(lowerBasis, PassValues(window, coords, useRgb, RoundHalfUp))
    ensures hash == Fold(combinedSoFar, PassValues(window, coords, useRgb, RoundHalfUp))
  {
    hashLower, hash := lowerBasis, combinedSoFar;
    var red, green, blue := 0, 0, 0;
    var count := 0;
    for i := 0 to |coords|
      invariant hashLower == Fold(lowerBasis, Samples(window, coords[..i]))
      invariant hash == Fold(combinedSoFar, Samples(window, coords[..i]))
      invariant red == ChannelSum(window, coords[..i], Red)
      invariant green == ChannelSum(window, coords[..i], Green)
      invariant blue == ChannelSum(window, coords[..i], Blue)
      invariant count == i
    {
      var point := coords[i];
      var val := 0;
      if InBounds(window, point) {
        var color := window.pixel(point.x, point.y);
        val := Intensity(color);
        red, green, blue := red + color.r, green + color.g, blue + color.b;
      }
      assert val == Intensity(Sample(window, point));
      SamplesSnoc(window, coords, i);
      FoldSnoc(lowerBasis, Samples(window, coords[..i]), val);
      FoldSnoc(combinedSoFar, Samples(window, coords[..i]), val);
      ChannelSumSnoc(window, coords, i, Red);
      ChannelSumSnoc(window, coords, i, Green);
      ChannelSumSnoc(window, coords, i, Blue);
      hashLower := Step(hashLower, val);
      hash := Step(hash, val);
      count := count + 1;
    }
    assert coords[..|coords|] == coords;
    if useRgb {
      var r := Average(red, count, RoundHalfUp);
      var g := Average(green, count, RoundHalfUp);
      var b := Average(blue, count, RoundHalfUp);
      ghost var l0, h0 := hashLower, hash;
      hashLower := Step(hashLower, r);
      hashLower := Step(hashLower, g);
      hashLower := Step(hashLower, b);
      hash := Step(hash, r);
      hash := Step(hash, g);
      hash := Step(hash, b);
      assert PassValues(window, coords, useRgb, RoundHalfUp) == Samples(window, coords) + [r, g, b];
      assert hashLower == Fold(lowerBasis, PassValues(window, coords, useRgb, RoundHalfUp)) by {
        FoldThree(l0, r, g, b);
        FoldAppend(lowerBasis, Samples(window, coords), [r, g, b]);
      }
      assert hash == Fold(combinedSoFar, PassValues(window, coords, useRgb, RoundHalfUp)) by {
        FoldThree(h0, r, g, b);
        FoldAppend(combinedSoFar, Samples(window, coords), [r, g, b]);
      }
    } else {
      assert PassValues(window, coords, useRgb, RoundHalfUp) == Samples(window, coords);
    }
  }

  /**
   * `FNV_Hash_Combined`: hashes the upper object, then, when the texture is
   * taller than one object, moves the buffer to the lower window and hashes
   * it into both the lower and the combined hash.
   */
  method FnvHashCombined(img: Image, coords: seq<Coord>, useRgb: bool)
    returns (hash: U64, hashUpper: U64, hashLower: U64)
    requires !useRgb || |coords| > 0
    ensures Fingerprints(hash, hashUpper, hashLower) == CombinedSpec(img, coords, useRgb)
  {
    hashLower := if img.height > HalfDim then NoUpperBasisFor(useRgb) else 0;
    hash := HashPass(img, coords, useRgb, RoundHalfUp, FnvOffsetBasis);
    hashUpper := hash;
    NoUpperBasisOdd(useRgb);
    if hashLower != 0 {
      hashUpper := Mul(hashUpper, NoLowerFactorFor(useRgb));
      var window := LowerWindow(img);
      ghost var upperValues := PassValues(img, coords, useRgb, RoundHalfUp);
      hashLower, hash := TwinPass(window, coords, useRgb, hashLower, hash);
      FoldAppend(FnvOffsetBasis, upperValues, PassValues(window, coords, useRgb, RoundHalfUp));
    }
  }

  lemma {:induction false} ChannelSumBlack(img: Image, coords: seq<Coord>, ch: Channel)
    requires BlackAt(img, coords)
    ensures ChannelSum(img, coords, ch) == 0
    decreases |coords|
  {
    if coords != [] {
      var init := coords[..|coords| - 1];
      assert BlackAt(img, init) by {
        forall i | 0 <= i < |init|
          ensures IsBlack(Sample(img, init[i]))
        {
          assert init[i] == coords[i];
        }
      }
      ChannelSumBlack(img, init, ch);
      assert IsBlack(Sample(img, coords[|coords| - 1]));
    }
  }

  /** A black object feeds nothing but zeros: every intensity and every channel mean is 0. */
  lemma BlackPassIsZeros(img: Image, coords: seq<Coord>, useRgb: bool, rounding: Rounding)
    requires !useRgb || |coords| > 0
    requires BlackAt(img, coords)
    ensures PassValues(img, coords, useRgb, rounding) == Zeros(|coords| + TailLen(useRgb))
  {
    var vs := PassValues(img, coords, useRgb, rounding);
    assert forall i :: 0 <= i < |coords| ==> vs[i] == Intensity(Sample(img, coords[i]));
    if useRgb {
      var n := |coords|;
      ChannelSumBlack(img, coords, Red);
      ChannelSumBlack(img, coords, Green);
      ChannelSumBlack(img, coords, Blue);
      assert Average(0, n, rounding) == 0 by {
        DivBelow(n, 2 * n, 1);
      }
      assert vs[n..] == RgbTail(img, coords, rounding) == [0, 0, 0];
    }
  }

  /**
   * Over an all-black texture `FNV_Hash` returns the basis times the prime
   * raised to the number of coordinates, plus three with the RGB means, in
   * every variant of the channel means.
   */
  lemma BlackTextureHash(img: Image, coords: seq<Coord>, useRgb: bool, rounding: Rounding)
    requires !useRgb || |coords| > 0
    requires BlackAt(img, coords)
    ensures Fold(FnvOffsetBasis, PassValues(img, coords, useRgb, rounding))
         == Mul(FnvOffsetBasis, PowMod(FnvPrime, |coords| + (if useRgb then 3 else 0)))
  {
    BlackPassIsZeros(img, coords, useRgb, rounding);
    FoldZeros(FnvOffsetBasis, |coords| + TailLen(useRgb));
  }

  /** FNV_NOLOWER(_RGB)_FACTOR is FNV_OFFSET_PRIME raised to the number of values one object feeds. */
  lemma NoLowerFactorIsZeroRun(useRgb: bool)
    ensures NoLowerFactorFor(useRgb) == PowMod(FnvPrime, FnvCoordsLen + TailLen(useRgb))
  {
    if useRgb {
      PowModAdd(FnvPrime, FnvCoordsLen, 3);
    }
  }

  /** FNV_NOUPPER(_RGB)_BASIS is the hash of an all-black object sampled at the production table size. */
  lemma NoUpperBasisIsBlackObjectHash(img: Image, coords: seq<Coord>, useRgb: bool)
    requires |coords| == FnvCoordsLen && BlackAt(img, coords)
    ensures Fold(FnvOffsetBasis, PassValues(img, coords, useRgb, RoundHalfUp)) == NoUpperBasisFor(useRgb)
  {
    BlackPassIsZeros(img, coords, useRgb, RoundHalfUp);
    FoldZeros(FnvOffsetBasis, FnvCoordsLen + TailLen(useRgb));
    NoLowerFactorIsZeroRun(useRgb);
  }

  /**
   * The upper hash of a tall texture is what the combined hash would be if
   * its lower object were all black (`FNV_NOLOWER_FACTOR`'s purpose).
   */
  lemma UpperHashMeansBlackLower(img: Image, coords: seq<Coord>, useRgb: bool)
    requires |coords| == FnvCoordsLen
    requires img.height > HalfDim && BlackAt(LowerWindow(img), coords)
    ensures CombinedSpec(img, coords, useRgb).upper == CombinedSpec(img, coords, useRgb).combined
  {
    var upperValues := PassValues(img, coords, useRgb, RoundHalfUp);
    var n := FnvCoordsLen + TailLen(useRgb);
    BlackPassIsZeros(LowerWindow(img), coords, useRgb, RoundHalfUp);
    FoldAppend(FnvOffsetBasis, upperValues, Zeros(n));
    FoldZeros(Fold(FnvOffsetBasis, upperValues), n);
    NoLowerFactorIsZeroRun(useRgb);
  }

  /**
   * The lower hash of a tall texture is what the combined hash would be if
   * its upper object were all black (`FNV_NOUPPER_BASIS`'s purpose).
   */
  lemma LowerHashMeansBlackUpper(img: Image, coords: seq<Coord>, useRgb: bool)
    requires |coords| == FnvCoordsLen
    requires img.height > HalfDim && BlackAt(img, coords)
    ensures CombinedSpec(img, coords, useRgb).lower == CombinedSpec(img, coords, useRgb).combined
  {
    var upperValues := PassValues(img, coords, useRgb, RoundHalfUp);
    var lowerValues := PassValues(LowerWindow(img), coords, useRgb, RoundHalfUp);
    NoUpperBasisIsBlackObjectHash(img, coords, useRgb);
    FoldAppend(FnvOffsetBasis, upperValues, lowerValues);
  }

  /** A texture black at every sample of both objects hashes to basis * PRIME^(2 * values per object). */
  lemma AllBlackCombinedHash(img: Image, coords: seq<Coord>, useRgb: bool)
    requires !useRgb || |coords| > 0
    requires img.height > HalfDim && BlackAt(img, coords) && BlackAt(LowerWindow(img), coords)
    ensures CombinedSpec(img, coords, useRgb).combined
         == Mul(FnvOffsetBasis, PowMod(FnvPrime, 2 * (|coords| + TailLen(useRgb))))
  {
    var n := |coords| + TailLen(useRgb);
    BlackPassIsZeros(img, coords, useRgb, RoundHalfUp);
    BlackPassIsZeros(LowerWindow(img), coords, useRgb, RoundHalfUp);
    assert Zeros(n) + Zeros(n) == Zeros(2 * n);
    FoldZeros(FnvOffsetBasis, 2 * n);
  }

  /** A texture of at most 128 rows is a single object: all three results come from one `FNV_Hash` pass. */
  lemma ShortTextureIsOneObject(img: Image, coords: seq<Coord>, useRgb: bool)
    requires !useRgb || |coords| > 0
    requires img.height <= HalfDim
    ensures var f := CombinedSpec(img, coords, useRgb);
      f.combined == f.upper == Fold(FnvOffsetBasis, PassValues(img, coords, useRgb, RoundHalfUp)) && f.lower == 0
  {
  }

  /** The two conversions of a channel mean differ by at most one, rounding never below truncation. */
  lemma RoundingVersusTruncation(sum: nat, n: nat)
    requires n > 0 && sum <= 255 * n
    ensures Average(sum, n, Truncate) <= Average(sum, n, RoundHalfUp) <= Average(sum, n, Truncate) + 1
  {
    var t: int, r: int := Average(sum, n, Truncate), Average(sum, n, RoundHalfUp);
    MulMonotone(n, 2 * r + 1, 2 * t);
    MulMonotone(n, 2 * t + 2, 2 * r - 1);
  }

  /** Where they differ: a mean of 61/121 truncates to 0 but rounds to 1. */
  lemma RoundingDiffersOnSomeMean()
    ensures Average(61, 121, Truncate) == 0 && Average(61, 121, RoundHalfUp) == 1
  {
  }
}
