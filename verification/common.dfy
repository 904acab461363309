/** Status codes of the public-key engine (cracen/statuscodes.h is not part of this model; the
 *  names below are those the sxops doc-comments list) and the small result wrappers the rest of
 *  the model uses. */
module StatusCodes {

  /** Every non-OK code the wrappers document. */
  datatype ErrorCode =
    | InvalidParam
    | NotInvertible
    | UnknownError
    | Busy
    | NotImplemented
    | OperandTooLarge
    | PlatformError
    | Expired
    | PkRetry
    | CompositeValue
    | OutOfRange
    | PointNotOnCurve
    | InvalidSignature

  /** The `int status` the C functions return: SX_OK or one error code. */
  datatype Status = Ok | Error(code: ErrorCode)

  /** What a collaborator call produces: the value it wrote, or the error it returned. */
  datatype Outcome<T> = Done(value: T) | Fail(code: ErrorCode) {
    function StatusOf(): Status {
      if Done? then Ok else Error(code)
    }
  }

  datatype Option<T> = None | Some(value: T)

  /** Status propagation shared by every wrapper: a slot-listing failure is returned as is,
   *  otherwise the status of the wait. */
  function FirstFailure(listStatus: Status, waitStatus: Status): (r: Status)
    ensures r.Ok? <==> listStatus.Ok? && waitStatus.Ok?
    ensures !listStatus.Ok? ==> r == listStatus
    ensures listStatus.Ok? ==> r == waitStatus
  {
    if listStatus.Ok? then waitStatus else listStatus
  }
}

/** Bytes and the byte-string encodings used by the engine and by RFC 7748. */
module Bytes {
  import opened ModMath

  type byte = bv8

  function Zeros(n: nat): (z: seq<byte>)
    ensures |z| == n
    ensures forall i :: 0 <= i < n ==> z[i] == 0
  {
    seq(n, _ => 0)
  }

  /** `buf` with `data` copied over it from offset `off` (memcpy into a region). */
  function Put(buf: seq<byte>, off: nat, data: seq<byte>): (r: seq<byte>)
    requires off + |data| <= |buf|
    ensures |r| == |buf|
    ensures r[off..off + |data|] == data
  {
    buf[..off] + data + buf[off + |data|..]
  }

  /** A region inside the copied one reads the copied data. */
  lemma PutInside(buf: seq<byte>, off: nat, data: seq<byte>, lo: nat, hi: nat)
    requires off + |data| <= |buf| && off <= lo <= hi <= off + |data|
    ensures Put(buf, off, data)[lo..hi] == data[lo - off..hi - off]
  {
    var r := Put(buf, off, data);
    assert r[lo..hi] == r[off..off + |data|][lo - off..hi - off];
  }

  /** A region disjoint from the copied one is unchanged. */
  lemma PutOutside(buf: seq<byte>, off: nat, data: seq<byte>, lo: nat, hi: nat)
    requires off + |data| <= |buf| && lo <= hi <= |buf| && (hi <= off || off + |data| <= lo)
    ensures Put(buf, off, data)[lo..hi] == buf[lo..hi]
  {
    var r := Put(buf, off, data);
    assert forall i :: 0 <= i < hi - lo ==> r[lo..hi][i] == r[lo + i];
  }

  /** memcpy of data into dst at offset off (also safe_memset / safe_memzero with zero data). */
  method CopyInto(dst: array<byte>, off: nat, data: seq<byte>)
    requires off + |data| <= dst.Length
    modifies dst
    ensures dst[..] == Put(old(dst[..]), off, data)
  {
    for i := 0 to |data|
      invariant dst[..] == Put(old(dst[..]), off, data[..i])
    {
      assert data[..i + 1] == data[..i] + [data[i]];
      dst[off + i] := data[i];
    }
    assert data[..|data|] == data;
  }

  /** Unsigned little-endian value (decodeLittleEndian of RFC 7748 section 5). */
  function LE(s: seq<byte>): nat
  {
    if s == [] then 0 else s[0] as nat + 256 * LE(s[1..])
  }

  /** Unsigned big-endian value (the engine's operand encoding). */
  function BE(s: seq<byte>): nat
  {
    if s == [] then 0 else BE(s[..|s| - 1]) * 256 + s[|s| - 1] as nat
  }

  lemma {:induction false} LEBound(s: seq<byte>)
    ensures LE(s) < Pow(256, |s|)
  {
    if s != [] {
      LEBound(s[1..]);
      assert LE(s) <= 255 + 256 * (Pow(256, |s| - 1) - 1);
    }
  }

  /** The last byte of a little-endian string weighs 256^(n-1). */
  lemma {:induction false} LESplitLast(s: seq<byte>)
    requires s != []
    ensures LE(s) == LE(s[..|s| - 1]) + Pow(256, |s| - 1) * s[|s| - 1] as nat
  {
    if |s| > 1 {
      var tail, init := s[1..], s[..|s| - 1];
      LESplitLast(tail);
      assert tail[..|tail| - 1] == init[1..];
      WeightShift(s[0] as nat, LE(init[1..]), Pow(256, |s| - 2), s[|s| - 1] as nat);
    } else {
      assert s[..0] == [];
      assert s[1..] == [];
    }
  }

  lemma WeightShift(b: int, mid: int, p: int, last: int)
    ensures b + 256 * (mid + p * last) == (b + 256 * mid) + (256 * p) * last
  {
  }

  /** Only the first byte matters for divisibility by a divisor of 256. */
  lemma LEModFirst(s: seq<byte>, d: nat)
    requires s != [] && 0 < d && 256 % d == 0
    ensures LE(s) % d == s[0] as nat % d
  {
    var t := LE(s[1..]);
    var b := s[0] as nat;
    assert LE(s) == b + 256 * t;
    ScaledMod(b, t, d);
  }

  lemma ScaledMod(b: int, t: int, d: int)
    requires 0 < d && 256 % d == 0
    ensures (b + 256 * t) % d == b % d
  {
    var k := 256 / d;
    assert 256 == d * k;
    assert 256 * t == d * (k * t);
    ModMulAdd(b, k * t, d);
  }

  /** A string is all zero bytes exactly when its big-endian value is zero. */
  lemma {:induction false} BEZeroIff(s: seq<byte>)
    ensures BE(s) == 0 <==> forall i :: 0 <= i < |s| ==> s[i] == 0
  {
    if s != [] {
      var init := s[..|s| - 1];
      BEZeroIff(init);
      assert forall i :: 0 <= i < |init| ==> init[i] == s[i];
      assert BE(s) == BE(init) * 256 + s[|s| - 1] as nat;
    }
  }

  /** Leading zero bytes do not change a big-endian value. */
  lemma {:induction false} BELeadingZeros(n: nat, s: seq<byte>)
    ensures BE(Zeros(n) + s) == BE(s)
  {
    if s == [] {
      assert Zeros(n) + s == Zeros(n);
      BEZeroIff(Zeros(n));
      BEZeroIff(s);
    } else {
      var init := s[..|s| - 1];
      assert (Zeros(n) + s)[..|Zeros(n) + s| - 1] == Zeros(n) + init;
      BELeadingZeros(n, init);
    }
  }
}
