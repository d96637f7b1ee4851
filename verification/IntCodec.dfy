/** Integers as bytes in both byte orders, and sign extension. */
module IntCodec {
  import opened Arithmetic
  import opened DataWord
  import opened Memory

  // ---- Unsigned ----

  /** The value of bytes, most significant first, and least significant first. */
  function FromBe(s: seq<byte>): nat {
    if s == [] then 0 else FromBe(s[..|s| - 1]) * 256 + s[|s| - 1]
  }

  function FromLe(s: seq<byte>): nat {
    if s == [] then 0 else s[0] + FromLe(s[1..]) * 256
  }

  function ToBe(n: nat, k: nat): (s: seq<byte>)
    ensures |s| == k
  {
    if k == 0 then [] else ToBe(n / 256, k - 1) + [n % 256]
  }

  function ToLe(n: nat, k: nat): (s: seq<byte>)
    ensures |s| == k
  {
    if k == 0 then [] else [n % 256] + ToLe(n / 256, k - 1)
  }

  function Zeros(k: nat): (s: seq<byte>)
    ensures |s| == k
  {
    seq(k, _ => 0)
  }

  /** The two orders are mirror images. */
  function Reverse(s: seq<byte>): (r: seq<byte>)
    ensures |r| == |s|
  {
    if s == [] then [] else Reverse(s[1..]) + [s[0]]
  }

  lemma {:induction false} OrdersMirror(s: seq<byte>)
    ensures FromBe(Reverse(s)) == FromLe(s)
  {
    if s != [] {
      OrdersMirror(s[1..]);
      assert Reverse(s)[..|s| - 1] == Reverse(s[1..]);
    }
  }

  lemma {:induction false} WrittenOrdersMirror(n: nat, k: nat)
    ensures Reverse(ToLe(n, k)) == ToBe(n, k)
  {
    if k > 0 {
      WrittenOrdersMirror(n / 256, k - 1);
      assert ToLe(n, k)[1..] == ToLe(n / 256, k - 1);
    }
  }

  lemma RestOfBytes(n: nat, p: nat)
    requires p > 0
    ensures n % (256 * p) == n / 256 % p * 256 + n % 256
  {
    var q := n / 256 / p;
    var t := n / 256 % p * 256 + n % 256;
    assert n / 256 == p * q + n / 256 % p;
    assert n == 256 * (p * q) + t == 256 * p * q + t;
    assert n / 256 % p <= p - 1;
    MultipleHasNoRest(256 * p, q, t);
  }

  /** Writing and reading back keeps the value modulo the size of the field. */
  lemma {:induction false} BigEndianRoundTrip(n: nat, k: nat)
    ensures FromBe(ToBe(n, k)) == n % Pow2(8 * k)
  {
    if k > 0 {
      BigEndianRoundTrip(n / 256, k - 1);
      assert ToBe(n, k)[..k - 1] == ToBe(n / 256, k - 1);
      EightMore(k - 1);
      RestOfBytes(n, Pow2(8 * (k - 1)));
    }
  }

  lemma EightMore(k: nat)
    ensures Pow2(8 * (k + 1)) == 256 * Pow2(8 * k)
  {
    Pow2Sum(8, 8 * k);
    assert Pow2(4) == 16;
    assert Pow2(8) == 256;
    assert 8 + 8 * k == 8 * (k + 1);
  }

  lemma LittleEndianRoundTrip(n: nat, k: nat)
    ensures FromLe(ToLe(n, k)) == n % Pow2(8 * k)
  {
    OrdersMirror(ToLe(n, k));
    WrittenOrdersMirror(n, k);
    BigEndianRoundTrip(n, k);
  }

  /** The last bytes of a longer big-endian form, and the first of a little-endian one, are the shorter form. */
  lemma {:induction false} ShorterForms(n: nat, k: nat, width: nat)
    requires k <= width
    ensures ToBe(n, width)[width - k..] == ToBe(n, k)
    ensures ToLe(n, width)[..k] == ToLe(n, k)
  {
    if k > 0 {
      ShorterForms(n / 256, k - 1, width - 1);
      assert ToBe(n, width)[width - k..] == ToBe(n / 256, width - 1)[width - k..] + [n % 256];
      assert ToLe(n, width)[..k] == [n % 256] + ToLe(n / 256, width - 1)[..k - 1];
    }
  }

  /** Padding with zeros on the high side does not change a value. */
  lemma {:induction false} ZerosInFront(s: seq<byte>, pad: nat)
    ensures FromBe(Zeros(pad) + s) == FromBe(s)
    decreases |s|, pad
  {
    if s != [] {
      assert (Zeros(pad) + s)[..pad + |s| - 1] == Zeros(pad) + s[..|s| - 1];
      ZerosInFront(s[..|s| - 1], pad);
    } else if pad > 0 {
      assert (Zeros(pad) + s)[..pad - 1] == Zeros(pad - 1) + s;
      ZerosInFront(s, pad - 1);
    } else {
      assert Zeros(pad) + s == s;
    }
  }

  lemma {:induction false} ZerosBehind(s: seq<byte>, pad: nat)
    ensures FromLe(s + Zeros(pad)) == FromLe(s)
    decreases |s|, pad
  {
    if s != [] {
      assert (s + Zeros(pad))[1..] == s[1..] + Zeros(pad);
      ZerosBehind(s[1..], pad);
    } else if pad > 0 {
      assert (s + Zeros(pad))[1..] == s + Zeros(pad - 1);
      ZerosBehind(s, pad - 1);
    } else {
      assert s + Zeros(pad) == s;
    }
  }

  /** Which end comes first. */
  datatype Order = Big | Little

  function Decode(order: Order, s: seq<byte>): nat {
    match order
    case Big => FromBe(s)
    case Little => FromLe(s)
  }

  /** The bytes that `put_uint` and `put_uint_le` write: part of the eight bytes of the value. */
  function EncodeUint(order: Order, n: nat, k: nat): (s: seq<byte>)
    requires k <= 8
    ensures |s| == k
  {
    match order
    case Big => ToBe(n, 8)[8 - k..]
    case Little => ToLe(n, 8)[..k]
  }

  /** The value that `get_uint` and `get_uint_le` read: the bytes in an eight-byte field of zeros. */
  function DecodeUint(order: Order, s: seq<byte>): nat
    requires |s| <= 8
  {
    match order
    case Big => FromBe(Zeros(8 - |s|) + s)
    case Little => FromLe(s + Zeros(8 - |s|))
  }

  lemma DecodeUintIsDecode(order: Order, s: seq<byte>)
    requires |s| <= 8
    ensures DecodeUint(order, s) == Decode(order, s)
  {
    ZerosInFront(s, 8 - |s|);
    ZerosBehind(s, 8 - |s|);
  }

  /** Writing k bytes of a value and reading them back gives the value modulo 2 to the power 8k. */
  lemma UintRoundTrip(order: Order, n: nat, k: nat)
    requires k <= 8
    ensures DecodeUint(order, EncodeUint(order, n, k)) == n % Pow2(8 * k)
  {
    var s := EncodeUint(order, n, k);
    DecodeUintIsDecode(order, s);
    ShorterForms(n, k, 8);
    if order.Big? {
      assert s == ToBe(n, k);
      BigEndianRoundTrip(n, k);
    } else {
      assert s == ToLe(n, k);
      LittleEndianRoundTrip(n, k);
    }
  }

  // ---- Which end comes first ----

  /** In the big order the first byte weighs most, in the little order least. */
  lemma {:induction false} DecodeByPlace(s: seq<byte>, b: byte)
    ensures Decode(Big, [b] + s) == b * Pow2(8 * |s|) + Decode(Big, s)
    ensures Decode(Little, [b] + s) == b + 256 * Decode(Little, s)
    ensures Decode(Big, []) == 0 && Decode(Little, []) == 0
  {
    assert ([b] + s)[1..] == s;
    if s == [] {
      assert [b] + s == [b];
    } else {
      var n := |s| - 1;
      DecodeByPlace(s[..n], b);
      assert ([b] + s)[..|s|] == [b] + s[..n];
      EightMore(n);
      assert 256 * (b * Pow2(8 * n)) == b * Pow2(8 * |s|);
    }
  }

  lemma QuotientOfBytes(n: nat, p: nat, q: nat, r: nat, t: nat)
    requires n == 256 * (p * q + r) + t && r < p && t < 256
    ensures n / (256 * p) == q
  {
    var rest := 256 * r + t;
    assert n == 256 * p * q + rest;
    MultipleHasNoRest(256 * p, q, rest);
  }

  lemma DropByte(n: nat, p: nat)
    requires p > 0
    ensures n / 256 / p == n / (256 * p)
  {
    var m := n / 256;
    QuotientOfBytes(n, p, m / p, m % p, n % 256);
  }

  lemma {:induction false} LittleByPlace(n: nat, k: nat, i: nat)
    requires i < k
    ensures ToLe(n, k)[i] == n / Pow2(8 * i) % 256
  {
    if i > 0 {
      LittleByPlace(n / 256, k - 1, i - 1);
      EightMore(i - 1);
      DropByte(n, Pow2(8 * (i - 1)));
    }
  }

  lemma {:induction false} BigByPlace(n: nat, k: nat, i: nat)
    requires i < k
    ensures ToBe(n, k)[i] == n / Pow2(8 * (k - 1 - i)) % 256
  {
    if i < k - 1 {
      BigByPlace(n / 256, k - 1, i);
      EightMore(k - 2 - i);
      DropByte(n, Pow2(8 * (k - 2 - i)));
    }
  }

  /** The byte at each place: the big order writes the most significant of the k bytes first, the little order the
      least significant. */
  lemma EncodeByPlace(n: nat, k: nat, i: nat)
    requires i < k <= 8
    ensures EncodeUint(Big, n, k)[i] == n / Pow2(8 * (k - 1 - i)) % 256
    ensures EncodeUint(Little, n, k)[i] == n / Pow2(8 * i) % 256
  {
    ShorterForms(n, k, 8);
    assert EncodeUint(Big, n, k) == ToBe(n, k) && EncodeUint(Little, n, k) == ToLe(n, k);
    BigByPlace(n, k, i);
    LittleByPlace(n, k, i);
  }

  // ---- Signed ----

  /** The 64-bit two's complement pattern of a signed value, and the signed value of a pattern. */
  function Unsigned(n: int): nat {
    n % WORD
  }

  function Signed(word: nat): int {
    if word < HALF then word else word - WORD
  }

  /** Shifting left and then, as a signed value, back right. */
  function ShiftBack(val: nat, shift: nat): int {
    Signed(val * Pow2(shift) % WORD) / Pow2(shift)
  }

  /** Sign extension as meant, and with the written shift. */
  function SignExtend(val: nat, k: nat): int
    requires k <= 8
  {
    ShiftBack(val, (8 - k) * 8)
  }

  function SignExtendAsWritten(val: nat, k: nat): int
    requires k <= 8
  {
    ShiftBack(val, 8 - k + 8)
  }

  lemma Word64()
    ensures Pow2(64) == WORD && Pow2(63) == HALF
  {
    SmallPowers();
    Pow2Sum(16, 16);
    Pow2Sum(32, 32);
  }

  /** The signed reading of the low bits below a power of two. */
  function LowSigned(val: int, size: nat): int
    requires size > 0
  {
    var r := val % size;
    if r < size / 2 then r else r - size
  }

  lemma ScaledRest(val: nat, size: nat, scale: nat)
    requires size > 0 && scale > 0
    ensures val * scale % (size * scale) == val % size * scale
  {
    var q, r := val / size, val % size;
    assert val * scale == (size * q + r) * scale == size * scale * q + r * scale;
    assert r * scale < size * scale;
    MultipleHasNoRest(size * scale, q, r * scale);
  }

  lemma ScaledDiv(x: int, scale: nat)
    requires scale > 0
    ensures x * scale / scale == x
  {
    MultipleHasNoRest(scale, x, 0);
    assert scale * (x * scale / scale) == scale * x;
  }

  lemma SignedScaled(r: nat, half: nat, scale: nat)
    requires r < 2 * half && half * scale == HALF && scale > 0
    ensures Signed(r * scale) / scale == if r < half then r else r - 2 * half
  {
    if r < half {
      assert r * scale < half * scale;
      ScaledDiv(r, scale);
    } else {
      assert r * scale >= half * scale;
      assert r * scale - WORD == (r - 2 * half) * scale;
      ScaledDiv(r - 2 * half, scale);
    }
  }

  /** The same shift with the powers of two as numbers. */
  lemma ScaledBack(val: nat, scale: nat, half: nat)
    requires scale > 0 && half > 0 && half * scale == HALF
    ensures Signed(val * scale % WORD) / scale == LowSigned(val, 2 * half)
  {
    var size := 2 * half;
    assert size * scale == WORD;
    ScaledRest(val, size, scale);
    SignedScaled(val % size, half, scale);
  }

  /** Shifting left and back keeps the low bits and copies the highest of them upwards. */
  lemma ShiftBackKeepsLowBits(val: nat, shift: nat)
    requires shift < 64
    ensures ShiftBack(val, shift) == LowSigned(val, Pow2(64 - shift))
  {
    var scale, half := Pow2(shift), Pow2(63 - shift);
    assert Pow2(64 - shift) == 2 * half;
    Word64();
    Pow2Sum(63 - shift, shift);
    ScaledBack(val, scale, half);
  }

  lemma RestOfRest(n: int, size: nat, times: nat)
    requires size > 0 && times > 0
    ensures n % (size * times) % size == n % size
  {
    var big := size * times;
    var m := n % big;
    assert n == big * (n / big) + m == size * (times * (n / big)) + m;
    assert m == size * (m / size) + m % size;
    assert n == size * (times * (n / big) + m / size) + m % size;
    MultipleHasNoRest(size, times * (n / big) + m / size, m % size);
  }

  predicate Within(n: int, half: int) {
    -half <= n < half
  }

  /** The signed reading of the low bits is the value itself exactly for the values that fit them. */
  lemma LowSignedExact(n: int, half: nat)
    requires half > 0
    ensures LowSigned(n, 2 * half) == n <==> Within(n, half)
  {
    if 0 <= n < half {
      MultipleHasNoRest(2 * half, 0, n);
    } else if Within(n, half) {
      MultipleHasNoRest(2 * half, -1, n + 2 * half);
    }
  }

  predicate FitsBytes(n: int, k: nat)
    requires 1 <= k <= 8
  {
    Within(n, Pow2(8 * k - 1))
  }

  /** What `put_int` and then the unsigned read of `get_int` do to a value. */
  function Stored(order: Order, n: int, k: nat): nat
    requires k <= 8
  {
    DecodeUint(order, EncodeUint(order, Unsigned(n), k))
  }

  lemma StoredIsRest(order: Order, n: int, k: nat)
    requires k <= 8
    ensures Stored(order, n, k) == n % Pow2(8 * k)
  {
    UintRoundTrip(order, Unsigned(n), k);
    Word64();
    Pow2Sum(8 * k, 64 - 8 * k);
    RestOfRest(n, Pow2(8 * k), Pow2(64 - 8 * k));
  }

  /** Writing a signed value in k bytes and reading it back gives the value, exactly when it fits. */
  lemma IntRoundTrip(order: Order, n: int, k: nat)
    requires 1 <= k <= 8
    ensures SignExtend(Stored(order, n, k), k) == n <==> FitsBytes(n, k)
  {
    StoredIsRest(order, n, k);
    ShiftBackKeepsLowBits(Stored(order, n, k), (8 - k) * 8);
    RestOfRest(n, Pow2(8 * k), 1);
    assert 64 - (8 - k) * 8 == 8 * k;
    LowSignedExact(n, Pow2(8 * k - 1));
  }

  lemma WrittenShort(val: nat, n: int, k: nat)
    requires 1 <= k <= 6 && FitsBytes(n, k) && val == n % Pow2(8 * k)
    ensures LowSigned(val, Pow2(48 + k)) == n <==> n >= 0
  {
    Pow2Monotone(8 * k, 47 + k);
    MultipleHasNoRest(Pow2(48 + k), 0, val);
    if n >= 0 {
      MultipleHasNoRest(Pow2(8 * k), 0, n);
    }
  }

  lemma WrittenLong(val: nat, n: int, k: nat)
    requires 7 <= k <= 8 && val == n % Pow2(8 * k)
    ensures LowSigned(val, Pow2(48 + k)) == n <==> Within(n, Pow2(47 + k))
  {
    assert 48 + k + (7 * k - 48) == 8 * k;
    Pow2Sum(48 + k, 7 * k - 48);
    RestOfRest(n, Pow2(48 + k), Pow2(7 * k - 48));
    LowSignedExact(n, Pow2(47 + k));
  }

  /** With the written shift, a value that fits comes back right exactly when it is not negative, for up to six
      bytes; for seven and eight bytes exactly when it also fits 55 and 56 bits. */
  lemma WrittenIntRoundTrip(order: Order, n: int, k: nat)
    requires 1 <= k <= 8 && FitsBytes(n, k)
    ensures SignExtendAsWritten(Stored(order, n, k), k) == n <==> if k <= 6 then n >= 0 else Within(n, Pow2(47 + k))
  {
    var val := Stored(order, n, k);
    StoredIsRest(order, n, k);
    ShiftBackKeepsLowBits(val, 8 - k + 8);
    if k <= 6 {
      WrittenShort(val, n, k);
    } else {
      WrittenLong(val, n, k);
    }
  }
}
