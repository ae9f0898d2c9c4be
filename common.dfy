// Shared vocabulary of the model: bytes, optional values, HRESULT codes,
// results that carry either a value or a failure code, and the packet record
// that the demuxer hands to the sample providers.

module Common {

  /** An octet, as the `uint8_t` buffers of the library hold them. */
  type Byte = x: int | 0 <= x < 256

  /** 2^32: uint32 arithmetic in the library wraps modulo this value. */
  const UINT32_MODULUS: int := 0x1_0000_0000
  const UINT32_MAX: int := 0xFFFF_FFFF

  /** Annex B start code (ITU-T H.264 section B.1): 00 00 00 01. */
  const START_CODE: seq<Byte> := [0, 0, 0, 1]

  /** 100-nanosecond units per second (HNS_PER_SEC). */
  const HNS_PER_SEC: int := 10000000

  /** A negative AVERROR code returned by an FFmpeg call. */
  type AvError = x: int | x < 0 witness -1

  /** AVERROR_EOF, FFERRTAG('E', 'O', 'F', ' '). */
  const AVERROR_EOF: AvError := -0x2046_4F45

  /** AVERROR_STREAM_NOT_FOUND, FFERRTAG(0xF8, 'S', 'T', 'R'). */
  const AVERROR_STREAM_NOT_FOUND: AvError := -0x5254_53F8

  datatype Option<T> = None | Some(value: T)

  /** The HRESULT values the modelled code returns or throws. */
  datatype HResult =
    | SOk
    | EFail
    | EInvalidArg
    | EOutOfMemory
    | EUnexpected
    | MfEInvalidPosition
    | MfEInvalidFileFormat
    | MfEInvalidFormat
    | MfEInvalidRequest
    | MfEEndOfStream
    | MfEInvalidMediaType
    | MfEInvalidTimestamp
    | MfEBufferTooSmall

  predicate Succeeded(hr: HResult) { hr == SOk }

  /** Either a value or the HRESULT the library throws or returns instead. */
  datatype Result<T> = Ok(value: T) | Err(error: HResult) {
    predicate IsFailure() { Err? }
    function PropagateFailure<U>(): Result<U> requires Err? { Err(error) }
    function Extract(): T requires Ok? { value }
  }

  function Pow2(n: nat): (r: nat)
    ensures r >= 1
  {
    if n == 0 then 1 else 2 * Pow2(n - 1)
  }

  lemma {:induction false} Pow2Add(a: nat, b: nat)
    ensures Pow2(a + b) == Pow2(a) * Pow2(b)
  {
    if b > 0 {
      Pow2Add(a, b - 1);
    }
  }

  /** 2^32 is the modulus of the library's 32-bit unsigned arithmetic. */
  lemma Pow2Of32()
    ensures Pow2(32) == UINT32_MODULUS
  {
    assert Pow2(8) == 256;
    Pow2Add(8, 8);
    Pow2Add(16, 16);
  }

  /** The value of a byte string read most significant byte first. */
  function BigEndian(s: seq<Byte>): nat
  {
    if s == [] then 0 else BigEndian(s[..|s| - 1]) * 256 + s[|s| - 1]
  }

  lemma {:induction false} BigEndianBound(s: seq<Byte>)
    ensures BigEndian(s) < Pow2(8 * |s|)
  {
    if s != [] {
      BigEndianBound(s[..|s| - 1]);
      Pow2Add(8 * (|s| - 1), 8);
      assert Pow2(8) == 256;
    }
  }

  /** The big-endian value of the first k bytes of s. */
  function BigEndianPrefix(s: seq<Byte>, k: nat): nat
    requires k <= |s|
  {
    if k == 0 then 0 else BigEndianPrefix(s, k - 1) * 256 + s[k - 1]
  }

  lemma {:induction false} BigEndianPrefixIsBigEndian(s: seq<Byte>, k: nat)
    requires k <= |s|
    ensures BigEndianPrefix(s, k) == BigEndian(s[..k])
  {
    if k > 0 {
      BigEndianPrefixIsBigEndian(s, k - 1);
      assert s[..k][..k - 1] == s[..k - 1];
    }
  }

  /** The k-byte big-endian encoding of x (its k low bytes). */
  function ToBigEndian(x: nat, k: nat): (s: seq<Byte>)
    ensures |s| == k
  {
    if k == 0 then [] else ToBigEndian(x / 256, k - 1) + [x % 256]
  }

  /** Decoding a k-byte big-endian encoding gives the value back when it fits. */
  lemma {:induction false} BigEndianOfToBigEndian(x: nat, k: nat)
    requires x < Pow2(8 * k)
    ensures BigEndian(ToBigEndian(x, k)) == x
  {
    if k > 0 {
      var s := ToBigEndian(x, k);
      assert s[..k - 1] == ToBigEndian(x / 256, k - 1);
      assert x / 256 < Pow2(8 * (k - 1)) by {
        Pow2Add(8 * (k - 1), 8);
        assert Pow2(8) == 256;
      }
      BigEndianOfToBigEndian(x / 256, k - 1);
    }
  }

  /** Encoding the value of a byte string with its own length gives the string back. */
  lemma {:induction false} ToBigEndianOfBigEndian(s: seq<Byte>)
    ensures ToBigEndian(BigEndian(s), |s|) == s
  {
    if s != [] {
      var init := s[..|s| - 1];
      ToBigEndianOfBigEndian(init);
      assert BigEndian(s) / 256 == BigEndian(init) && BigEndian(s) % 256 == s[|s| - 1];
      assert s == init + [s[|s| - 1]];
    }
  }

  function Sum(s: seq<nat>): nat
  {
    if s == [] then 0 else s[0] + Sum(s[1..])
  }

  lemma {:induction false} SumAppend(a: seq<nat>, b: seq<nat>)
    ensures Sum(a + b) == Sum(a) + Sum(b)
  {
    if a == [] {
      assert a + b == b;
    } else {
      assert (a + b)[1..] == a[1..] + b;
      SumAppend(a[1..], b);
    }
  }

  /**
   * The (unsigned int) or static_cast<uint32_t> cast of a 64-bit value:
   * the value brought into [0, 2^32) by whole multiples of 2^32
   * (ToUint32IsModulo shows this is the value modulo 2^32).
   */
  function ToUint32(x: int): (u: nat)
    ensures u < UINT32_MODULUS
    ensures 0 <= x < UINT32_MODULUS ==> u == x
    decreases if x < 0 then UINT32_MODULUS - x else x
  {
    if x < 0 then ToUint32(x + UINT32_MODULUS)
    else if x >= UINT32_MODULUS then ToUint32(x - UINT32_MODULUS)
    else x
  }

  /** The cast keeps exactly the value's residue modulo 2^32. */
  lemma {:induction false} ToUint32IsModulo(x: int)
    ensures ToUint32(x) == x % UINT32_MODULUS
    decreases if x < 0 then UINT32_MODULUS - x else x
  {
    if x < 0 {
      ToUint32IsModulo(x + UINT32_MODULUS);
      assert (x + UINT32_MODULUS) % UINT32_MODULUS == x % UINT32_MODULUS;
    } else if x >= UINT32_MODULUS {
      ToUint32IsModulo(x - UINT32_MODULUS);
      assert (x - UINT32_MODULUS) % UINT32_MODULUS == x % UINT32_MODULUS;
    }
  }

  /** Integer division as int64_t divides: the quotient is truncated toward zero. */
  function TruncDiv(a: int, b: int): (q: int)
    requires b != 0
    ensures (a < 0) == (b < 0) ==> q >= 0
    ensures (a < 0) != (b < 0) ==> q <= 0
  {
    var m := Abs(a) / Abs(b);
    if (a < 0) == (b < 0) then m else -m
  }

  function Abs(x: int): nat
  {
    if x < 0 then -x else x
  }

  /** Truncation is symmetric: negating the dividend negates the quotient. */
  lemma TruncDivNegate(a: int, b: int)
    requires b != 0
    ensures TruncDiv(-a, b) == -TruncDiv(a, b)
  {
  }

  /** For a non-negative dividend and positive divisor the quotient is the floor. */
  lemma TruncDivBounds(a: nat, b: int)
    requires b > 0
    ensures TruncDiv(a, b) * b <= a < (TruncDiv(a, b) + 1) * b
  {
    var q := a / b;
    assert TruncDiv(a, b) == q;
    assert a == q * b + a % b;
    assert (q + 1) * b == q * b + b;
  }

  /** Multiplying by a positive factor keeps the order. */
  lemma MulLe(x: int, y: int, b: int)
    requires x <= y && b > 0
    ensures x * b <= y * b
  {
    assert y * b - x * b == (y - x) * b;
  }

  /** Floor division by a positive divisor keeps the order. */
  lemma DivMonotone(a: int, b: int, d: int)
    requires a <= b && d > 0
    ensures a / d <= b / d
  {
    if a / d > b / d {
      assert a == (a / d) * d + a % d && b == (b / d) * d + b % d;
      MulLe(b / d + 1, a / d, d);
    }
  }

  /** Floor division rounds down, exactly when the divisor divides. */
  lemma FloorMul(a: nat, d: int)
    requires d > 0
    ensures (a / d) * d <= a
    ensures a % d == 0 ==> (a / d) * d == a
  {
    assert a == (a / d) * d + a % d;
  }

  /** Multiplying then dividing by the same positive number is the identity. */
  lemma MulDivCancel(y: int, d: int)
    requires d > 0
    ensures (y * d) / d == y
  {
    var q, m := (y * d) / d, (y * d) % d;
    assert y * d == q * d + m && 0 <= m < d;
    if q < y {
      MulLe(q + 1, y, d);
    } else if q > y {
      MulLe(y + 1, q, d);
    }
  }


  /** Timestamps of a stream, in units of its time base. */
  datatype TimeBase = TimeBase(num: int, den: int)

  /**
   * Conversion of a timestamp from a stream's time base to 100 ns units.
   * The library multiplies a double by the time base; the model keeps the
   * exact rational value and rounds down.
   */
  function ToHns(tb: TimeBase, t: int): int
  {
    if tb.den == 0 then 0 else (t * tb.num * HNS_PER_SEC) / tb.den
  }

  /**
   * A demuxed packet. A missing `pts` (AV_NOPTS_VALUE) is `None`.
   * `pos` is the byte position in the file (used by the subtitle provider).
   */
  datatype Packet = Packet(
    data: seq<Byte>,
    pts: Option<int>,
    duration: int,
    isKeyFrame: bool,
    streamIndex: int,
    pos: int)

  /** What one av_read_frame call yields: a packet, or an error code. */
  datatype ReadOutcome = Demuxed(pkt: Packet) | ReadFailure(code: AvError)

  /** A start code occupies the four bytes of `s` from offset j. */
  predicate StartCodeAt(s: seq<Byte>, j: nat)
  {
    j + 4 <= |s| && s[j] == 0 && s[j + 1] == 0 && s[j + 2] == 0 && s[j + 3] == 1
  }

  lemma StartCodeAtSlice(s: seq<Byte>, j: nat)
    requires j + 4 <= |s|
    ensures StartCodeAt(s, j) <==> s[j..j + 4] == START_CODE
  {
    if s[j..j + 4] == START_CODE {
      assert s[j + 3] == s[j..j + 4][3];
    }
  }

  /** True when `s` begins with the four-byte start code. */
  predicate StartsWithStartCode(s: seq<Byte>)
  {
    StartCodeAt(s, 0)
  }
}
