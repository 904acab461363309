/** X25519 and X448 point multiplication requests (silexpk/src/montgomery.c). The scalar and, for
 *  X25519, the u-coordinate are clamped in place in the engine's slot memory after they were
 *  copied there; the clamps are the decodeScalar25519, decodeScalar448 and decodeUCoordinate
 *  steps of RFC 7748 section 5. */
module Montgomery {
  import opened StatusCodes
  import opened Bytes
  import opened ModMath
  import opened PkEngine

  /** Operand sizes of the two curves (SX_X25519_OP_SZ and SX_X448_OP_SZ). */
  const X25519_OP_SZ: nat := 32
  const X448_OP_SZ: nat := 56

  type Op25519 = s: seq<byte> | |s| == 32 witness seq(32, _ => 0)
  type Op448 = s: seq<byte> | |s| == 56 witness seq(56, _ => 0)

  // ---------------------------------------------------------------------------------------
  // The clamps, as pure byte transforms

  /** X25519 scalar clamp: byte 31 gets bit 6 set and bit 7 cleared, byte 0 its low three bits
   *  cleared. */
  function ClampScalar25519(k: Op25519): (c: Op25519)
    ensures c[0] & 0x07 == 0 && c[0] & 0xF8 == k[0] & 0xF8
    ensures c[31] & 0xC0 == 0x40 && c[31] & 0x3F == k[31] & 0x3F
    ensures forall i :: 0 < i < 31 ==> c[i] == k[i]
  {
    k[31 := (k[31] | 0x40) & 0x7F][0 := k[0] & 0xF8]
  }

  /** X25519 u-coordinate clamp: the top bit of byte 31 is cleared. */
  function ClampPoint25519(p: Op25519): (c: Op25519)
    ensures c[31] & 0x80 == 0 && c[31] & 0x7F == p[31] & 0x7F
    ensures forall i :: 0 <= i < 31 ==> c[i] == p[i]
  {
    p[31 := p[31] & 0x7F]
  }

  /** X448 scalar clamp: byte 55 gets bit 7 set, byte 0 its low two bits cleared. */
  function ClampScalar448(k: Op448): (c: Op448)
    ensures c[0] & 0x03 == 0 && c[0] & 0xFC == k[0] & 0xFC
    ensures c[55] & 0x80 == 0x80 && c[55] & 0x7F == k[55] & 0x7F
    ensures forall i :: 0 < i < 55 ==> c[i] == k[i]
  {
    k[55 := k[55] | 0x80][0 := k[0] & 0xFC]
  }

  lemma ClampIdempotent(k: Op25519, p: Op25519, k4: Op448)
    ensures ClampScalar25519(ClampScalar25519(k)) == ClampScalar25519(k)
    ensures ClampPoint25519(ClampPoint25519(p)) == ClampPoint25519(p)
    ensures ClampScalar448(ClampScalar448(k4)) == ClampScalar448(k4)
  {
    var c, d := ClampScalar25519(k), ClampScalar25519(ClampScalar25519(k));
    assert forall i :: 0 <= i < 32 ==> d[i] == c[i];
    var c4, d4 := ClampScalar448(k4), ClampScalar448(ClampScalar448(k4));
    assert forall i :: 0 <= i < 56 ==> d4[i] == c4[i];
    var q, e := ClampPoint25519(p), ClampPoint25519(ClampPoint25519(p));
    assert forall i :: 0 <= i < 32 ==> e[i] == q[i];
  }

  // ---------------------------------------------------------------------------------------
  // What the clamps mean for the little-endian value (RFC 7748 section 5)

  lemma ByteRange(b: byte)
    ensures b & 0xC0 == 0x40 ==> 64 <= b as nat < 128
    ensures b & 0x80 == 0x80 ==> 128 <= b as nat
    ensures b & 0x07 == 0 ==> b as nat % 8 == 0
    ensures b & 0x03 == 0 ==> b as nat % 4 == 0
    ensures b as nat == (b & 0x7F) as nat + 128 * (if b & 0x80 == 0 then 0 else 1)
  {
  }

  /** A clamped X25519 scalar is a multiple of 8 in [2^254, 2^255). */
  lemma ScalarValue25519(k: Op25519)
    ensures 64 * Pow(256, 31) <= LE(ClampScalar25519(k)) < 128 * Pow(256, 31)
    ensures LE(ClampScalar25519(k)) % 8 == 0
  {
    var c := ClampScalar25519(k);
    var w := Pow(256, 31);
    LESplitLast(c);
    LEBound(c[..31]);
    ByteRange(c[31]);
    MulLe(w, 64, c[31] as nat);
    MulLe(w, c[31] as nat, 127);
    LEModFirst(c, 8);
    ByteRange(c[0]);
  }

  /** A clamped X448 scalar is a multiple of 4 in [2^447, 2^448). */
  lemma ScalarValue448(k: Op448)
    ensures 128 * Pow(256, 55) <= LE(ClampScalar448(k)) < 256 * Pow(256, 55)
    ensures LE(ClampScalar448(k)) % 4 == 0
  {
    var c := ClampScalar448(k);
    var w := Pow(256, 55);
    LESplitLast(c);
    LEBound(c[..55]);
    ByteRange(c[55]);
    MulLe(w, 128, c[55] as nat);
    MulLe(w, c[55] as nat, 255);
    LEModFirst(c, 4);
    ByteRange(c[0]);
  }

  /** Clearing the top bit takes the u-coordinate modulo 2^255 (decodeUCoordinate): the value
   *  drops by 2^255 exactly when the top bit was set, and ends below 2^255. */
  lemma PointValue25519(p: Op25519)
    ensures LE(ClampPoint25519(p)) < 128 * Pow(256, 31)
    ensures LE(p) == LE(ClampPoint25519(p)) + 128 * Pow(256, 31) * (if p[31] & 0x80 == 0 then 0 else 1)
  {
    var c := ClampPoint25519(p);
    var w := Pow(256, 31);
    LESplitLast(c);
    LESplitLast(p);
    assert c[..31] == p[..31];
    var low := LE(c[..31]);
    LEBound(c[..31]);
    ByteRange(p[31]);
    var lo, hi := (p[31] & 0x7F) as nat, if p[31] & 0x80 == 0 then 0 else 1;
    assert c[31] as nat == lo;
    MulLe(w, lo, 127);
    TopBitSplit(w, lo, hi, p[31] as nat);
    assert LE(p) == low + w * (p[31] as nat);
    assert LE(c) == low + w * lo;
  }

  lemma TopBitSplit(w: int, lo: int, hi: int, b: int)
    requires b == lo + 128 * hi
    ensures w * b == w * lo + 128 * w * hi
  {
  }

  // ---------------------------------------------------------------------------------------
  // The requests

  /** Slot accesses of sx_x25519_ptmult after the listing: copy the point and the scalar, patch
   *  scalar bytes 31 and 0, patch point byte 31. */
  const X25519Writes: seq<PkCall> := [Write(P), Write(K), Patch(K, 31), Patch(K, 0), Patch(P, 31)]

  /** Slot accesses of sx_x448_ptmult: the point is not clamped. */
  const X448Writes: seq<PkCall> := [Write(P), Write(K), Patch(K, 55), Patch(K, 0)]

  /** The in-slot clamp of sx_x25519_ptmult: three read-modify-write byte patches. */
  method PatchClamp25519(req: PkRequest)
    requires P in req.slots && K in req.slots && |req.slots[P]| == 32 && |req.slots[K]| == 32
    modifies req
    ensures req.cmd == old(req.cmd) && req.opsize == old(req.opsize) && req.outputs == old(req.outputs)
    ensures req.slots == old(req.slots)[K := ClampScalar25519(old(req.slots[K]))][P := ClampPoint25519(old(req.slots[P]))]
    ensures req.calls == old(req.calls) + [Patch(K, 31), Patch(K, 0), Patch(P, 31)]
  {
    ghost var s0 := req.slots;
    ghost var k: Op25519, p: Op25519 := s0[K], s0[P];
    var k31 := (req.SlotByte(K, 31) | 0x40) & 0x7F;
    req.PatchSlotByte(K, 31, k31);
    var k0 := req.SlotByte(K, 0) & 0xF8;
    req.PatchSlotByte(K, 0, k0);
    var p31 := req.SlotByte(P, 31) & 0x7F;
    req.PatchSlotByte(P, 31, p31);
    assert req.slots == s0[K := k[31 := k31][0 := k0]][P := p[31 := p31]];
  }

  /** The in-slot clamp of sx_x448_ptmult: two read-modify-write byte patches of the scalar. */
  method PatchClamp448(req: PkRequest)
    requires K in req.slots && |req.slots[K]| == 56
    modifies req
    ensures req.cmd == old(req.cmd) && req.opsize == old(req.opsize) && req.outputs == old(req.outputs)
    ensures req.slots == old(req.slots)[K := ClampScalar448(old(req.slots[K]))]
    ensures req.calls == old(req.calls) + [Patch(K, 55), Patch(K, 0)]
  {
    ghost var s0 := req.slots;
    ghost var k: Op448 := s0[K];
    var k55 := req.SlotByte(K, 55) | 0x80;
    req.PatchSlotByte(K, 55, k55);
    var k0 := req.SlotByte(K, 0) & 0xFC;
    req.PatchSlotByte(K, 0, k0);
    assert req.slots == s0[K := k[55 := k55][0 := k0]];
  }

  /** The operand writes of sx_x25519_ptmult on a freshly listed request: copy, then clamp. */
  method WriteClamped25519(req: PkRequest, k: Op25519, pt: Op25519)
    requires req.slots == map[]
    modifies req
    ensures req.cmd == old(req.cmd) && req.opsize == old(req.opsize) && req.outputs == old(req.outputs)
    ensures req.slots == map[P := ClampPoint25519(pt), K := ClampScalar25519(k)]
    ensures req.calls == old(req.calls) + X25519Writes
  {
    req.WriteSlot(P, pt);
    req.WriteSlot(K, k);
    PatchClamp25519(req);
    assert req.slots == map[P := ClampPoint25519(pt), K := ClampScalar25519(k)];
  }

  /** The operand writes of sx_x448_ptmult on a freshly listed request: copy, then clamp. */
  method WriteClamped448(req: PkRequest, k: Op448, pt: Op448)
    requires req.slots == map[]
    modifies req
    ensures req.cmd == old(req.cmd) && req.opsize == old(req.opsize) && req.outputs == old(req.outputs)
    ensures req.slots == map[P := pt, K := ClampScalar448(k)]
    ensures req.calls == old(req.calls) + X448Writes
  {
    req.WriteSlot(P, pt);
    req.WriteSlot(K, k);
    PatchClamp448(req);
    assert req.slots == map[P := pt, K := ClampScalar448(k)];
  }

  /** sx_x25519_ptmult: r = k * pt on Curve25519 with the clamped scalar and point. */
  method X25519Ptmult(req: PkRequest, k: Op25519, pt: Op25519, r: array<byte>)
    returns (status: Status, ghost list: Status, ghost wait: Status)
    requires r.Length == X25519_OP_SZ
    modifies req, r
    ensures req.calls == old(req.calls) + Protocol(MontgomeryPtmul, ListEccSlots(X25519_OP_SZ, list), X25519Writes, wait, true)
    ensures status == FirstFailure(list, wait)
    ensures req.cmd == MontgomeryPtmul
    ensures list.Ok? ==> req.slots == map[P := ClampPoint25519(pt), K := ClampScalar25519(k)]
    ensures status.Ok? ==> |req.outputs| == 1 && r[..] == req.outputs[0] && |r[..]| == X25519_OP_SZ
    ensures !status.Ok? ==> r[..] == old(r[..])
  {
    req.SetCmd(MontgomeryPtmul);
    status := req.ListEccInslots(X25519_OP_SZ);
    list, wait := status, Ok;
    if status != Ok {
      ProtocolStopped(MontgomeryPtmul, ListEccSlots(X25519_OP_SZ, list), X25519Writes, wait, true);
      return;
    }
    ghost var before := req.calls;
    WriteClamped25519(req, k, pt);
    status := RunAndWait(req);
    wait := status;
    assert req.calls == before + X25519Writes + [RunCall, WaitCall(wait)];
    ProtocolRan(MontgomeryPtmul, ListEccSlots(X25519_OP_SZ, list), X25519Writes, wait, true);
    if status != Ok {
      return;
    }
    var outputs := req.GetOutputOps();
    CopyInto(r, 0, outputs[0]);
    assert r[..] == outputs[0];
  }

  /** sx_x448_ptmult: r = k * pt on Curve448 with the clamped scalar; the point is passed as is. */
  method X448Ptmult(req: PkRequest, k: Op448, pt: Op448, r: array<byte>)
    returns (status: Status, ghost list: Status, ghost wait: Status)
    requires r.Length == X448_OP_SZ
    modifies req, r
    ensures req.calls == old(req.calls) + Protocol(MontgomeryPtmul, ListEccSlots(X448_OP_SZ, list), X448Writes, wait, true)
    ensures status == FirstFailure(list, wait)
    ensures req.cmd == MontgomeryPtmul
    ensures list.Ok? ==> req.slots == map[P := pt, K := ClampScalar448(k)]
    ensures status.Ok? ==> |req.outputs| == 1 && r[..] == req.outputs[0] && |r[..]| == X448_OP_SZ
    ensures !status.Ok? ==> r[..] == old(r[..])
  {
    req.SetCmd(MontgomeryPtmul);
    status := req.ListEccInslots(X448_OP_SZ);
    list, wait := status, Ok;
    if status != Ok {
      ProtocolStopped(MontgomeryPtmul, ListEccSlots(X448_OP_SZ, list), X448Writes, wait, true);
      return;
    }
    ghost var before := req.calls;
    WriteClamped448(req, k, pt);
    status := RunAndWait(req);
    wait := status;
    assert req.calls == before + X448Writes + [RunCall, WaitCall(wait)];
    ProtocolRan(MontgomeryPtmul, ListEccSlots(X448_OP_SZ, list), X448Writes, wait, true);
    if status != Ok {
      return;
    }
    var outputs := req.GetOutputOps();
    CopyInto(r, 0, outputs[0]);
    assert r[..] == outputs[0];
  }
}
