/** Size arithmetic of shared-memory buffers: the checks of shm_pool_create_buffer and
    the size that buffer_create_shm records, with the widths of C's integers
    (src/wayland/shm.c, src/wayland/buffer.c). */
module ShmSizes {

  const TWO31: int := 0x8000_0000
  const TWO32: int := 0x1_0000_0000
  const TWO64: int := 0x1_0000_0000_0000_0000

  type int32 = x: int | -0x8000_0000 <= x < 0x8000_0000
  type uint32 = x: int | 0 <= x < 0x1_0000_0000

  /** The value of an int expression that wraps around. */
  function WrapInt(x: int): int32 {
    var m := x % TWO32;
    if m >= TWO31 then m - TWO32 else m
  }

  /** Conversion of an int to size_t. */
  function ToSize(x: int32): nat {
    if x < 0 then x + TWO64 else x
  }

  /** size_t arithmetic: offset + height * stride. */
  function RequiredSize(offset: int32, height: int32, stride: int32): nat {
    (ToSize(offset) + (ToSize(height) * ToSize(stride)) % TWO64) % TWO64
  }

  /** wl_shm format codes (wl_shm.format in the Wayland core protocol). */
  const ARGB8888: uint32 := 0
  const XRGB8888: uint32 := 1
  const RGBA8888: uint32 := 0x34324152
  const BGRA8888: uint32 := 0x34324142
  const ABGR8888: uint32 := 0x34324241
  const XBGR8888: uint32 := 0x34324258

  predicate CheckFormat(format: uint32) {
    || format == ARGB8888 || format == XRGB8888 || format == RGBA8888
    || format == BGRA8888 || format == ABGR8888 || format == XBGR8888
  }

  datatype PixelFormat = PixelUnknown | PixelArgb | PixelXrgb

  function ToPixelFormat(format: uint32): PixelFormat {
    if format == ARGB8888 then PixelArgb
    else if format == XRGB8888 then PixelXrgb
    else PixelUnknown
  }

  datatype Request = Request(offset: int32, width: int32, height: int32, stride: int32, format: uint32)

  datatype Verdict = BadOffset | BadExtent | StrideTooSmall | ExceedsPool | BadFormat | Accepted

  /** The checks of shm_pool_create_buffer in their order. */
  function Check(poolSize: nat, r: Request): Verdict {
    if r.offset < 0 || r.offset >= poolSize then BadOffset
    else if r.width <= 0 || r.height <= 0 then BadExtent
    else if r.stride < WrapInt(r.width * 4) then StrideTooSmall
    else if RequiredSize(r.offset, r.height, r.stride) > poolSize then ExceedsPool
    else if !CheckFormat(r.format) then BadFormat
    else Accepted
  }

  /** shm_create_pool keeps a positive int32 as the size of a pool. */
  predicate PoolSize(n: nat) {
    0 < n < TWO31
  }

  /** Where the client's pixel (x, y) starts in the pool. */
  function PixelByte(r: Request, x: nat, y: nat): int {
    r.offset + y * r.stride + 4 * x
  }

  predicate PixelInPool(poolSize: nat, r: Request, x: nat, y: nat) {
    0 <= PixelByte(r, x, y) && PixelByte(r, x, y) + 4 <= poolSize
  }

  predicate AllPixelsInPool(poolSize: nat, r: Request) {
    forall x: nat, y: nat :: x < r.width && y < r.height ==> PixelInPool(poolSize, r, x, y)
  }

  const WIDTH_LIMIT: int := 0x2000_0000

  lemma MulMono(a: nat, b: nat, c: nat)
    requires a <= b
    ensures a * c <= b * c
  {
    assert b * c - a * c == (b - a) * c;
  }

  lemma SmallMod(x: nat, n: nat)
    requires x < n
    ensures x % n == x
  {
  }

  /** The remainder of a number written as a multiple of `n` and a rest. */
  lemma ModIs(x: int, q: int, r: nat, n: nat)
    requires r < n && x == q * n + r
    ensures x % n == r
  {
    var d := x / n - q;
    assert d * n == x / n * n - q * n;
    if 1 <= d {
      MulMono(1, d, n);
    } else if 1 <= -d {
      MulMono(1, -d, n);
    }
  }

  /** Adding multiples of `n` leaves the remainder. */
  lemma ModShift(x: int, k: int, n: nat)
    requires 0 < n
    ensures (x + k * n) % n == x % n
  {
    var q, r := x / n, x % n;
    assert x + k * n == (q + k) * n + r by { assert (q + k) * n == q * n + k * n; }
    ModIs(x + k * n, q + k, r, n);
  }

  lemma WrappedProduct(a: int32, b: int32)
    ensures (ToSize(a) * ToSize(b)) % TWO64 == (a * b) % TWO64
  {
    var i := if a < 0 then 1 else 0;
    var j := if b < 0 then 1 else 0;
    var k := i * b + a * j + i * j * TWO64;
    assert ToSize(a) * ToSize(b) == a * b + k * TWO64 by {
      if a < 0 && b < 0 {
        assert (a + TWO64) * (b + TWO64) == a * b + (b + a + TWO64) * TWO64;
      } else if a < 0 {
        assert (a + TWO64) * b == a * b + b * TWO64;
      } else if b < 0 {
        assert a * (b + TWO64) == a * b + a * TWO64;
      }
    }
    ModShift(a * b, k, TWO64);
  }

  lemma ProductRange(a: int32, b: int32)
    ensures -(TWO31 * TWO31) <= a * b <= TWO31 * TWO31
  {
    var x: nat := if a < 0 then -(a as int) else a as int;
    var y: nat := if b < 0 then -(b as int) else b as int;
    MulMono(x, TWO31, y);
    MulMono(y, TWO31, TWO31);
    assert x * y <= TWO31 * TWO31;
    assert a * b == x * y || a * b == -(x * y);
  }

  /** On all arguments: the 64-bit size is the true one exactly where that is not negative,
      and else 2^64 more. */
  lemma RequiredSizeExact(offset: int32, height: int32, stride: int32)
    ensures var v := offset + height * stride;
            RequiredSize(offset, height, stride) == if v >= 0 then v else v + TWO64
  {
    var p := height * stride;
    var v := offset + p;
    WrappedProduct(height, stride);
    ProductRange(height, stride);
    var o := if offset < 0 then 1 else 0;
    assert p % TWO64 == p - p / TWO64 * TWO64;
    ModShift(v, o - p / TWO64, TWO64);
    assert ToSize(offset) + p % TWO64 == v + (o - p / TWO64) * TWO64;
    ModIs(v, if v >= 0 then 0 else -1, if v >= 0 then v else v + TWO64, TWO64);
  }

  // ----- What is accepted -----

  /** The lower bound on the stride, with `width * 4` wrapped to 32 bits. */
  function LeastStride(width: int32): int
    requires 0 < width
  {
    if width < 0x2000_0000 then 4 * width
    else if width < 0x6000_0000 then 4 * width - 0x1_0000_0000
    else 4 * width - 0x2_0000_0000
  }

  lemma LeastStrideExact(width: int32)
    requires 0 < width
    ensures WrapInt(width * 4) == LeastStride(width)
  {
    var q := if width < 0x4000_0000 then 0 else 1;
    ModIs(width * 4, q, width * 4 - q * TWO32, TWO32);
  }

  /** Where the checks say no, each in true integers: the first that fails decides. */
  lemma RefusedExactlyWhen(n: nat, r: Request)
    requires PoolSize(n)
    ensures Check(n, r).BadOffset? <==> !(0 <= r.offset < n)
    ensures 0 <= r.offset < n ==> (Check(n, r).BadExtent? <==> !(0 < r.width && 0 < r.height))
    ensures 0 <= r.offset < n && 0 < r.width && 0 < r.height ==>
              (Check(n, r).StrideTooSmall? <==> r.stride < LeastStride(r.width))
    ensures 0 <= r.offset < n && 0 < r.width && 0 < r.height && LeastStride(r.width) <= r.stride ==>
              (Check(n, r).ExceedsPool? <==> !(0 <= r.offset + r.height * r.stride <= n))
    ensures 0 <= r.offset < n && 0 < r.width && 0 < r.height && LeastStride(r.width) <= r.stride
            && 0 <= r.offset + r.height * r.stride <= n ==>
              (Check(n, r).BadFormat? <==> r.format !in {0, 1, 0x34324152, 0x34324142, 0x34324241, 0x34324258})
  {
    if 0 < r.width { LeastStrideExact(r.width); }
    RequiredSizeExact(r.offset, r.height, r.stride);
    ProductRange(r.height, r.stride);
  }

  /** A request is accepted exactly when it starts in the pool, has pixels, a stride that
      passes the wrapped bound, an end in the pool and one of the six formats. */
  lemma AcceptedExactlyWhen(n: nat, r: Request)
    requires PoolSize(n)
    ensures Check(n, r).Accepted? <==>
      && 0 <= r.offset < n && 0 < r.width && 0 < r.height
      && LeastStride(r.width) <= r.stride
      && 0 <= r.offset + r.height * r.stride <= n
      && r.format in {0, 1, 0x34324152, 0x34324142, 0x34324241, 0x34324258}
  {
    RefusedExactlyWhen(n, r);
  }

  /** Below the width limit the bound is four bytes a pixel. */
  lemma AcceptedBelowLimitExactlyWhen(n: nat, r: Request)
    requires PoolSize(n) && r.width < 0x2000_0000
    ensures Check(n, r).Accepted? <==>
      && 0 <= r.offset < n && 0 < r.width && 0 < r.height
      && 4 * r.width <= r.stride
      && r.offset + r.height * r.stride <= n
      && r.format in {0, 1, 0x34324152, 0x34324142, 0x34324241, 0x34324258}
  {
    AcceptedExactlyWhen(n, r);
    if 0 < r.width && 0 < r.height && 4 * r.width <= r.stride { MulMono(0, r.height, r.stride); }
  }

  /** In particular a buffer of packed rows that fills its pool to the last byte. */
  lemma FullPoolIsAccepted(width: int32, height: int32, stride: int32)
    requires 0 < width < 0x2000_0000 && 0 < height && stride == 4 * width && height * stride < TWO31
    ensures Check(height * stride, Request(0, width, height, stride, XRGB8888)).Accepted?
  {
    MulMono(1, height, stride);
    AcceptedBelowLimitExactlyWhen(height * stride, Request(0, width, height, stride, XRGB8888));
  }

  /** The renderer is told of two formats by name; the four others become unknown. */
  lemma PixelFormatExactly(format: uint32)
    ensures ToPixelFormat(format) == PixelArgb <==> format == 0
    ensures ToPixelFormat(format) == PixelXrgb <==> format == 1
  {
  }

  /** buffer_create_shm multiplies the two as uint32_t. */
  function BufferSize(r: Request): nat
    requires 0 < r.height
  {
    ((r.stride % TWO32) * r.height) % TWO32
  }

  /** Below the width limit nothing wraps: the size computed in 64 bits is the true one,
      and so is the 32-bit product that buffer_create_shm stores. */
  lemma SizesAreExact(poolSize: nat, r: Request)
    requires PoolSize(poolSize) && Check(poolSize, r).Accepted? && r.width < WIDTH_LIMIT
    ensures 4 * r.width <= r.stride
    ensures RequiredSize(r.offset, r.height, r.stride) == r.offset + r.height * r.stride <= poolSize
    ensures BufferSize(r) == r.height * r.stride
  {
    AcceptedBelowLimitExactlyWhen(poolSize, r);
    RequiredSizeExact(r.offset, r.height, r.stride);
    SmallMod(r.stride, TWO32);
    SmallMod(r.stride * r.height, TWO32);
  }

  lemma LastRow(y: nat, h: nat, s: nat)
    requires y < h
    ensures y * s + s <= h * s
  {
    assert (y + 1) * s <= h * s by {
      assert h * s - (y + 1) * s == (h - y - 1) * s;
    }
  }

  lemma PixelFits(r: Request, x: nat, y: nat)
    requires x < r.width && y < r.height && 0 <= r.offset && 4 * r.width <= r.stride
    ensures 0 <= PixelByte(r, x, y)
    ensures PixelByte(r, x, y) + 4 <= r.offset + r.height * r.stride
  {
    LastRow(y, r.height, r.stride);
    MulMono(0, y, r.stride);
  }

  lemma InPoolBelowLimit(poolSize: nat, r: Request)
    requires PoolSize(poolSize) && Check(poolSize, r).Accepted? && r.width < WIDTH_LIMIT
    ensures AllPixelsInPool(poolSize, r)
  {
    SizesAreExact(poolSize, r);
    forall x: nat, y: nat | x < r.width && y < r.height
      ensures PixelInPool(poolSize, r, x, y)
    {
      PixelFits(r, x, y);
    }
  }

  /** An accepted buffer lies in its pool with all its pixels exactly when its width is
      below 2^29. From there on `width * 4` has wrapped in the stride check, and already
      the last pixel of the first row is outside any pool. */
  lemma AcceptedFitsExactlyWhen(poolSize: nat, r: Request)
    requires PoolSize(poolSize) && Check(poolSize, r).Accepted?
    ensures AllPixelsInPool(poolSize, r) <==> r.width < WIDTH_LIMIT
  {
    if r.width < WIDTH_LIMIT {
      InPoolBelowLimit(poolSize, r);
    } else {
      assert !PixelInPool(poolSize, r, r.width - 1, 0);
    }
  }

  /** A request of that kind that every check lets through. */
  lemma WideBufferAccepted()
    ensures var r := Request(0, 0x4000_0000, 1, 0, XRGB8888);
            Check(1, r).Accepted? && !PixelInPool(1, r, 0, 0)
  {
    assert WrapInt(0x4000_0000 * 4) == 0;
    RequiredSizeExact(0, 1, 0);
  }
}
