/** Results of operations that raise exceptions in the original. */
module Results {

  datatype Option<+T> = None | Some(value: T)

  /** The exceptions that the modelled code raises. */
  datatype Error =
    | ValueError
    | KeyError
    | IndexError
    | AssertionError
    | TypeError
    | StopIteration
    | RuntimeError
    | DecodeError
    | BadRecordMac
    | DecryptionFailed
    | UnexpectedMessage
    | IllegalParameter
    | RecordOverflow
    | RemoteAlert
    | AbruptClose
    | ClosedConnection
    | UnknownPskIdentity
    | InsufficientSecurity

  datatype Result<+T> = Ok(value: T) | Err(error: Error) {
    predicate IsFailure() { Err? }

    function PropagateFailure<U>(): Result<U>
      requires Err?
    {
      Err(error)
    }

    function Extract(): T
      requires Ok?
    {
      value
    }
  }
}

/** Byte strings and the integers they encode. */
module ByteStrings {
  import opened Results
  import opened Modular

  type Byte = x: int | 0 <= x < 256
  type Bytes = seq<Byte>

  function Pow256(n: nat): (r: nat)
    ensures r >= 1
  {
    if n == 0 then 1 else 256 * Pow256(n - 1)
  }

  /** The number that b encodes with its most significant byte first. */
  function FromBE(b: Bytes): (r: nat)
    ensures r < Pow256(|b|)
  {
    if b == [] then 0
    else
      var high := FromBE(b[..|b| - 1]);
      assert 256 * (high + 1) <= 256 * Pow256(|b| - 1);
      256 * high + b[|b| - 1]
  }

  /** x in exactly n bytes, most significant byte first. */
  function ToBE(x: nat, n: nat): (r: Bytes)
    requires x < Pow256(n)
    ensures |r| == n && FromBE(r) == x
  {
    if n == 0 then []
    else
      var high := ToBE(x / 256, n - 1);
      assert (high + [x % 256])[..n - 1] == high;
      high + [x % 256]
  }

  lemma {:induction false} ToBEFromBE(b: Bytes)
    ensures ToBE(FromBE(b), |b|) == b
  {
    if b != [] {
      ToBEFromBE(b[..|b| - 1]);
      assert FromBE(b) / 256 == FromBE(b[..|b| - 1]) && FromBE(b) % 256 == b[|b| - 1];
      assert b == b[..|b| - 1] + [b[|b| - 1]];
    }
  }

  /** The number that b encodes with its least significant byte first. */
  function FromLE(b: Bytes): (r: nat)
    ensures r < Pow256(|b|)
  {
    if b == [] then 0
    else
      var high := FromLE(b[1..]);
      assert 256 * (high + 1) <= 256 * Pow256(|b| - 1);
      256 * high + b[0]
  }

  /** x in exactly n bytes, least significant byte first. */
  function ToLE(x: nat, n: nat): (r: Bytes)
    requires x < Pow256(n)
    ensures |r| == n && FromLE(r) == x
  {
    if n == 0 then []
    else
      var high := ToLE(x / 256, n - 1);
      assert ([x % 256] + high)[1..] == high;
      [x % 256] + high
  }

  lemma {:induction false} ToLEFromLE(b: Bytes)
    ensures ToLE(FromLE(b), |b|) == b
  {
    if b != [] {
      ToLEFromLE(b[1..]);
      assert FromLE(b) / 256 == FromLE(b[1..]) && FromLE(b) % 256 == b[0];
      assert b == [b[0]] + b[1..];
    }
  }

  /** A label as its bytes. */
  function Ascii(s: string): (b: Bytes)
    requires forall i :: 0 <= i < |s| ==> s[i] as int < 256
    ensures |b| == |s| && forall i :: 0 <= i < |s| ==> b[i] == s[i] as int
  {
    seq(|s|, i requires 0 <= i < |s| => s[i] as int)
  }

  function Zeros(n: nat): (r: Bytes)
    ensures |r| == n && forall i :: 0 <= i < n ==> r[i] == 0
  {
    seq(n, _ => 0)
  }

  /** Zeros in front do not count. */
  lemma {:induction false} LeadingZeros(k: nat, b: Bytes)
    ensures FromBE(Zeros(k) + b) == FromBE(b)
    decreases |b|
  {
    var z := Zeros(k) + b;
    if b == [] {
      assert z == Zeros(k);
      ZerosAreZero(k);
    } else {
      assert z[..|z| - 1] == Zeros(k) + b[..|b| - 1];
      LeadingZeros(k, b[..|b| - 1]);
    }
  }

  lemma {:induction false} ZerosAreZero(k: nat)
    ensures FromBE(Zeros(k)) == 0
  {
    if k > 0 {
      assert Zeros(k)[..k - 1] == Zeros(k - 1);
      ZerosAreZero(k - 1);
    }
  }

  /** x in n bytes, or the error that the writer raises when x does not fit. */
  function Encode(x: nat, n: nat): (r: Result<Bytes>)
  {
    if x < Pow256(n) then Ok(ToBE(x, n)) else Err(ValueError)
  }

  function EncodeLE(x: nat, n: nat): (r: Result<Bytes>)
  {
    if x < Pow256(n) then Ok(ToLE(x, n)) else Err(ValueError)
  }

  /** The concatenation of a list of byte strings. */
  function Flatten(parts: seq<Bytes>): Bytes
  {
    if parts == [] then [] else parts[0] + Flatten(parts[1..])
  }

  lemma {:induction false} FlattenAppend(a: seq<Bytes>, b: seq<Bytes>)
    ensures Flatten(a + b) == Flatten(a) + Flatten(b)
  {
    if a == [] {
      assert a + b == b;
    } else {
      FlattenAppend(a[1..], b);
      assert (a + b)[0] == a[0] && (a + b)[1..] == a[1..] + b;
      assert a[0] + (Flatten(a[1..]) + Flatten(b)) == (a[0] + Flatten(a[1..])) + Flatten(b);
    }
  }

  function Pow2(k: nat): (r: nat)
    ensures r >= 1
  {
    if k == 0 then 1 else 2 * Pow2(k - 1)
  }

  /** The exclusive or of the k low bits of a and b. */
  function XorLow(a: nat, b: nat, k: nat): (r: nat)
    ensures r < Pow2(k)
  {
    if k == 0 then 0 else 2 * XorLow(a / 2, b / 2, k - 1) + (if a % 2 == b % 2 then 0 else 1)
  }

  lemma {:induction false} XorLowBack(a: nat, b: nat, k: nat)
    requires a < Pow2(k)
    ensures XorLow(XorLow(a, b, k), b, k) == a
  {
    if k > 0 {
      XorLowBack(a / 2, b / 2, k - 1);
      BitsOf(XorLow(a, b, k), XorLow(a / 2, b / 2, k - 1), if a % 2 == b % 2 then 0 else 1);
    }
  }

  /** Bit i of x, from the lowest. */
  function Bit(x: nat, i: nat): nat {
    (x / Pow2(i)) % 2
  }

  /** Bit by bit, the result tells where the two differ. */
  lemma {:induction false} XorLowBits(a: nat, b: nat, k: nat, i: nat)
    requires i < k
    ensures Bit(XorLow(a, b, k), i) == 1 <==> Bit(a, i) != Bit(b, i)
  {
    BitsOf(XorLow(a, b, k), XorLow(a / 2, b / 2, k - 1), if a % 2 == b % 2 then 0 else 1);
    if i > 0 {
      XorLowBits(a / 2, b / 2, k - 1, i - 1);
      HalfBit(a, i);
      HalfBit(b, i);
      HalfBit(XorLow(a, b, k), i);
    }
  }

  lemma HalfBit(x: nat, i: nat)
    requires i > 0
    ensures Bit(x, i) == Bit(x / 2, i - 1)
  {
    HalfTwice(x, Pow2(i - 1));
  }

  lemma HalfTwice(x: nat, m: nat)
    requires m >= 1
    ensures x / (2 * m) == (x / 2) / m
  {
    var h := x / 2;
    var q, r := h / m, h % m;
    assert h == q * m + r && x == 2 * h + x % 2;
    assert q * (2 * m) == 2 * (q * m);
    QuotientUnique(x, q, 2 * r + x % 2, 2 * m);
  }

  lemma BitsOf(x: nat, high: nat, low: nat)
    requires x == 2 * high + low && low < 2
    ensures x / 2 == high && x % 2 == low
  {
  }

  function XorByte(a: Byte, b: Byte): Byte {
    assert Pow2(8) == 256;
    XorLow(a, b, 8)
  }

  lemma XorByteBits(a: Byte, b: Byte, i: nat)
    requires i < 8
    ensures Bit(XorByte(a, b), i) == 1 <==> Bit(a, i) != Bit(b, i)
  {
    XorLowBits(a, b, 8, i);
  }

  lemma XorBack(a: Byte, b: Byte)
    ensures XorByte(XorByte(a, b), b) == a
  {
    assert Pow2(8) == 256;
    XorLowBack(a, b, 8);
  }

  function XorBytes(a: Bytes, b: Bytes): (r: Bytes)
    requires |a| == |b|
    ensures |r| == |a| && forall i :: 0 <= i < |a| ==> r[i] == XorByte(a[i], b[i])
  {
    seq(|a|, i requires 0 <= i < |a| => XorByte(a[i], b[i]))
  }

  lemma XorBytesBack(a: Bytes, b: Bytes)
    requires |a| == |b|
    ensures XorBytes(XorBytes(a, b), b) == a
  {
    forall i | 0 <= i < |a| ensures XorByte(XorByte(a[i], b[i]), b[i]) == a[i] {
      XorBack(a[i], b[i]);
    }
  }
}
