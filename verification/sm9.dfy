/** SM9 requests (silexpk/sxops/sm9.h): the ten wrappers, the constants they write, and the
 *  scalar checks of GM/T 0044-2016 that their doc-comments promise. */
module Sm9 {
  import opened StatusCodes
  import opened Bytes
  import opened ModMath
  import opened PkEngine

  // ---------------------------------------------------------------------------------------
  // Operands

  /** A point in G1 (struct sx_pk_point). */
  datatype Point = Point(x: seq<byte>, y: seq<byte>)

  /** A point in G2, two coordinates over the quadratic extension (struct sx_pk_ef_4). */
  datatype Ef4 = Ef4(x0: seq<byte>, x1: seq<byte>, y0: seq<byte>, y1: seq<byte>)

  /** A GT value, twelve coefficients (struct sx_pk_ef_12). */
  type Ef12 = g: seq<seq<byte>> | |g| == 12 witness seq(12, _ => [])

  /** The caller's out-parameters of each shape. */
  datatype PointRef = PointRef(x: OpRef, y: OpRef)
  datatype Ef4Ref = Ef4Ref(x0: OpRef, x1: OpRef, y0: OpRef, y1: OpRef)
  type Ef12Ref = z: seq<OpRef> | |z| == 12 witness seq(12, _ => 0)

  /** sm9_t, the polynomial base of the curve (32 bytes, big-endian). */
  const Sm9T: seq<byte> := Zeros(24) + [0x60, 0x00, 0x00, 0x00, 0x00, 0x58, 0xf9, 0x8a]

  /** sm9_f, the Frobenius constant (32 bytes, big-endian). */
  const Sm9F: seq<byte> :=
    [0x3f, 0x23, 0xea, 0x58, 0xe5, 0x72, 0x0b, 0xdb, 0x84, 0x3c, 0x6c, 0xfa, 0x9c, 0x08, 0x67, 0x49,
     0x47, 0xc5, 0xc8, 0x6e, 0x0d, 0xdd, 0x04, 0xed, 0xa9, 0x1d, 0x83, 0x54, 0x37, 0x7b, 0x69, 0x8b]

  /** sm9_t is the BN parameter t = 0x600000000058F98A of the SM9 curve, padded to 32 bytes. */
  lemma Sm9TValue()
    ensures |Sm9T| == 32 && |Sm9F| == 32
    ensures BE(Sm9T) == 0x600000000058F98A
  {
    var tail: seq<byte> := [0x60, 0x00, 0x00, 0x00, 0x00, 0x58, 0xf9, 0x8a];
    BELeadingZeros(24, tail);
    var t1, t2, t3, t4 := tail[..1], tail[..2], tail[..3], tail[..4];
    var t5, t6, t7 := tail[..5], tail[..6], tail[..7];
    assert t1[..0] == [] && t2[..1] == t1 && t3[..2] == t2 && t4[..3] == t3;
    assert t5[..4] == t4 && t6[..5] == t5 && t7[..6] == t6 && tail[..7] == t7;
    assert BE(t1) == 0x60;
    assert BE(t2) == 0x6000;
    assert BE(t3) == 0x600000;
    assert BE(t4) == 0x60000000;
    assert BE(t5) == 0x6000000000;
    assert BE(t6) == 0x600000000058;
    assert BE(t7) == 0x600000000058F9;
  }

  // ---------------------------------------------------------------------------------------
  // Reference checks

  /** h = (h mod (n-1)) + 1, the reduction of sx_sm9_reduce_h. */
  function ReduceHRef(h: nat, n: nat): (r: nat)
    requires n > 1
    ensures 1 <= r <= n - 1
  {
    (h % (n - 1)) + 1
  }

  /** ReduceHRef is the one value in [1, n-1] that is one more than h modulo n-1. */
  lemma ReduceHUnique(h: nat, n: nat, c: nat)
    requires n > 1 && 1 <= c <= n - 1
    ensures c == ReduceHRef(h, n) <==> (c - 1 - h) % (n - 1) == 0
  {
    CongruentIff(c - 1, h, n - 1);
    DivModUnique(c - 1, n - 1, 0, c - 1);
  }

  /** The OUT_OF_RANGE rejection of sx_sm9_signature_verify: h must lie in [1, q). */
  function VerifyRangeCheck(h: nat, q: nat): (s: Status)
    ensures s.Ok? || s == Error(OutOfRange)
    ensures s == Error(OutOfRange) <==> h == 0 || h >= q
  {
    if h == 0 || h >= q then Error(OutOfRange) else Ok
  }

  /** A reduced h always passes the range check of signature verification against any bound q
   *  of at least n. */
  lemma ReduceHAccepted(h: nat, n: nat, q: nat)
    requires n > 1 && n <= q
    ensures VerifyRangeCheck(ReduceHRef(h, n), q) == Ok
  {
  }

  /** The NOT_INVERTIBLE rejection of a zero multiplier (ke of point multiplication, r of send
   *  key). */
  function ZeroScalarCheck(k: nat): (s: Status)
    ensures s.Ok? || s == Error(NotInvertible)
    ensures s == Error(NotInvertible) <==> k == 0
  {
    if k == 0 then Error(NotInvertible) else Ok
  }

  /** A multiplier is rejected exactly when every byte of its operand is zero. */
  lemma ZeroScalarBytes(k: seq<byte>)
    ensures ZeroScalarCheck(BE(k)) == Error(NotInvertible) <==> forall i :: 0 <= i < |k| ==> k[i] == 0
  {
    BEZeroIff(k);
  }

  /** t1 = h + k mod n and t2 = k * t1^-1 mod n, the scalar of the private-key generations
   *  (ks for signature keys, ke for encryption keys); NOT_INVERTIBLE when t1 has no inverse. */
  function KeygenScalarRef(h: nat, k: nat, n: nat): (r: Outcome<nat>)
    requires n > 0
    ensures r.Done? ==> r.value < n && (r.value * (h + k)) % n == k % n
    ensures (h + k) % n == 0 ==> r == Fail(NotInvertible)
    ensures r.Fail? ==> r.code == NotInvertible
  {
    var t1 := (h + k) % n;
    if t1 == 0 then Fail(NotInvertible)
    else
      match Inverse(t1, n)
      case None => Fail(NotInvertible)
      case Some(inv) =>
        KeygenScalarProduct(h, k, n, inv);
        Done((k * inv) % n)
  }

  lemma KeygenScalarProduct(h: int, k: int, n: int, inv: int)
    requires n > 0 && (((h + k) % n) * inv) % n == 1 % n
    ensures (((k * inv) % n) * (h + k)) % n == k % n
  {
    var t := h + k;
    ModMod(k * inv, n);
    ModMod(t, n);
    CongMul((k * inv) % n, k * inv, t, t % n, n);
    assert (k * inv) * (t % n) == k * ((t % n) * inv);
    ModMod(k, n);
    CongMul(k, k, (t % n) * inv, 1, n);
  }

  /** For a prime group order the key generation fails exactly when h + k == 0 modulo n, as the
   *  doc-comments say. */
  lemma KeygenScalarModPrime(h: nat, k: nat, n: nat)
    requires IsPrime(n)
    ensures KeygenScalarRef(h, k, n).Fail? <==> (h + k) % n == 0
  {
    var t1 := (h + k) % n;
    if t1 != 0 {
      DivModUnique(t1, n, 0, t1);
      InverseModPrime(t1, n);
    }
  }

  /** l = r - h mod n, the scalar of SM9 signing; NOT_INVERTIBLE when l is zero. */
  function SignScalarRef(r: nat, h: nat, n: nat): (l: Outcome<nat>)
    requires n > 0
    ensures l.Done? ==> 0 < l.value < n && (l.value + h) % n == r % n
    ensures l.Fail? <==> r % n == h % n
    ensures l.Fail? ==> l.code == NotInvertible
  {
    var d := (r - h) % n;
    CongruentIff(r, h, n);
    if d == 0 then Fail(NotInvertible)
    else
      ModMod(r - h, n);
      CongAdd(d, r - h, h, h, n);
      Done(d)
  }

  // ---------------------------------------------------------------------------------------
  // Slot layouts, in the order each wrapper writes them

  /** The twelve coefficient slots g[0..11], in index order. */
  function CoeffRoles(): (r: seq<Role>)
    ensures |r| == 12 && forall i :: 0 <= i < 12 ==> r[i] == Gc(i)
  {
    seq(12, i requires 0 <= i < 12 => Gc(i))
  }

  const ExpRoles: seq<Role> := [H, T] + CoeffRoles()
  const Pmulg1Roles: seq<Role> := [P1x0, P1y0, Ke, T]
  const Pmulg2Roles: seq<Role> := [P2x0, P2x1, P2y0, P2y1, Ke, T]
  const PairRoles: seq<Role> := [Px0, Py0, Qx0, Qx1, Qy0, Qy1, T, F]
  const SigKeygenRoles: seq<Role> := [P1x0, P1y0, H, Ks, T]
  const SignRoles: seq<Role> := [Dsx0, Dsy0, H, R, T]
  const VerifyRoles: seq<Role> :=
    [H1, P2x0, P2x1, P2y0, P2y1, PpubsX0, PpubsX1, PpubsY0, PpubsY1, Sx0, Sy0, H, F, T] + CoeffRoles()
  const EncrKeygenRoles: seq<Role> := [P2x0, P2x1, P2y0, P2y1, H, Ks, T]
  const SendKeyRoles: seq<Role> := [P1x0, P1y0, PpubeX0, PpubeY0, H, R, T]
  const ReduceHRoles: seq<Role> := [H, T]

  /** Every SM9 wrapper writes the t slot, and only pairing and signature verification write the
   *  f slot. */
  lemma ConstantSlotsWritten()
    ensures T in ExpRoles && T in Pmulg1Roles && T in Pmulg2Roles && T in PairRoles && T in SigKeygenRoles
    ensures T in SignRoles && T in VerifyRoles && T in EncrKeygenRoles && T in SendKeyRoles && T in ReduceHRoles
    ensures F in PairRoles && F in VerifyRoles
    ensures F !in ExpRoles && F !in Pmulg1Roles && F !in Pmulg2Roles && F !in SigKeygenRoles
    ensures F !in SignRoles && F !in EncrKeygenRoles && F !in SendKeyRoles && F !in ReduceHRoles
  {
    assert ExpRoles[1] == T;
    assert VerifyRoles[12] == F && VerifyRoles[13] == T;
  }

  /** After writing head followed by the twelve coefficients, slot g[i] holds coefficient i. */
  lemma CoefficientSlots(head: seq<Role>, headData: seq<seq<byte>>, g: Ef12)
    requires |head| == |headData| && forall j :: 0 <= j < |head| ==> !head[j].Gc?
    ensures forall i :: 0 <= i < 12 ==>
              Gc(i) in UpdateAll(map[], head + CoeffRoles(), headData + g)
              && UpdateAll(map[], head + CoeffRoles(), headData + g)[Gc(i)] == g[i]
  {
    var roles, data := head + CoeffRoles(), headData + g;
    forall i | 0 <= i < 12
      ensures Gc(i) in UpdateAll(map[], roles, data) && UpdateAll(map[], roles, data)[Gc(i)] == g[i]
    {
      var k := |head| + i;
      assert roles[k] == Gc(i) && data[k] == g[i];
      forall j | k < j < |roles|
        ensures roles[j] != roles[k]
      {
        assert roles[j] == Gc(j - |head|);
      }
      UpdateAllLastWins(map[], roles, data, k);
    }
  }

  /** Slot `roles[i]` holds data[i] when no later write reuses it. */
  lemma SlotHolds(roles: seq<Role>, data: seq<seq<byte>>, i: nat)
    requires |roles| == |data| && i < |roles| && roles[i] !in roles[i + 1..]
    ensures roles[i] in UpdateAll(map[], roles, data) && UpdateAll(map[], roles, data)[roles[i]] == data[i]
  {
    forall j | i < j < |roles|
      ensures roles[j] != roles[i]
    {
      assert roles[j] == roles[i + 1..][j - i - 1];
    }
    UpdateAllLastWins(map[], roles, data, i);
  }

  // ---------------------------------------------------------------------------------------
  // The requests. `width` is the operand width of the SM9 curve the connection reports
  // (sx_pk_get_curve_sm9).

  /** The slots of sx_sm9_exp: t holds sm9_t, no f slot, g[i] in the slot of coefficient i. */
  lemma ExpSlots(h: seq<byte>, g: Ef12)
    ensures var m := UpdateAll(map[], ExpRoles, [h, Sm9T] + g);
      && T in m && m[T] == Sm9T && F !in m
      && forall i :: 0 <= i < 12 ==> Gc(i) in m && m[Gc(i)] == g[i]
  {
    var data := [h, Sm9T] + g;
    CoefficientSlots([H, T], [h, Sm9T], g);
    SlotHolds(ExpRoles, data, 1);
    ConstantSlotsWritten();
    UpdateAllUntouched(map[], ExpRoles, data, F);
  }

  /** sx_sm9_exp: h, sm9_t and the twelve coefficients of g in index order; z receives the
   *  twelve outputs. */
  method Sm9Exp(req: PkRequest, store: OperandStore, width: nat, g: Ef12, h: seq<byte>, z: Ef12Ref)
    returns (status: Status, ghost list: Status, ghost wait: Status)
    modifies req, store
    ensures req.calls == old(req.calls) + Protocol(Command.Sm9Exp, ListEccSlots(width, list), WriteCalls(ExpRoles), wait, true)
    ensures status == FirstFailure(list, wait)
    ensures req.cmd == Command.Sm9Exp
    ensures list.Ok? ==> req.opsize == width && req.slots == UpdateAll(map[], ExpRoles, [h, Sm9T] + g)
    ensures list.Ok? ==> T in req.slots && req.slots[T] == Sm9T && F !in req.slots
    ensures list.Ok? ==> forall i :: 0 <= i < 12 ==> Gc(i) in req.slots && req.slots[Gc(i)] == g[i]
    ensures status.Ok? ==> |req.outputs| == 12 && store.ops == UpdateAll(old(store.ops), z, req.outputs)
    ensures !status.Ok? ==> store.ops == old(store.ops)
  {
    var data := [h, Sm9T] + g;
    var outs;
    status, outs, list, wait := EccRequest(req, Command.Sm9Exp, width, ExpRoles, data, true);
    if list.Ok? {
      ExpSlots(h, g);
    }
    if status == Ok {
      StoreOutputs(store, z, outs);
    }
  }

  /** sx_sm9_pmulg1: p1, ke and sm9_t; ppube receives outputs 0 and 1. */
  method Sm9Pmulg1(req: PkRequest, store: OperandStore, width: nat, p1: Point, ke: seq<byte>, ppube: PointRef)
    returns (status: Status, ghost list: Status, ghost wait: Status)
    modifies req, store
    ensures req.calls == old(req.calls) + Protocol(Command.Sm9Pmulg1, ListEccSlots(width, list), WriteCalls(Pmulg1Roles), wait, true)
    ensures status == FirstFailure(list, wait)
    ensures req.cmd == Command.Sm9Pmulg1
    ensures list.Ok? ==> req.opsize == width && req.slots == UpdateAll(map[], Pmulg1Roles, [p1.x, p1.y, ke, Sm9T])
    ensures list.Ok? ==> T in req.slots && req.slots[T] == Sm9T && F !in req.slots
    ensures status.Ok? ==> |req.outputs| == 2 && store.ops == UpdateAll(old(store.ops), [ppube.x, ppube.y], req.outputs)
    ensures !status.Ok? ==> store.ops == old(store.ops)
  {
    var data := [p1.x, p1.y, ke, Sm9T];
    var outs;
    status, outs, list, wait := EccRequest(req, Command.Sm9Pmulg1, width, Pmulg1Roles, data, true);
    if list.Ok? {
      SlotHolds(Pmulg1Roles, data, 3);
      UpdateAllUntouched(map[], Pmulg1Roles, data, F);
    }
    if status == Ok {
      StoreOutputs(store, [ppube.x, ppube.y], outs);
    }
  }

  /** sx_sm9_pmulg2: p2, the multiplier and sm9_t; ppubs receives x0, x1, y0, y1 from outputs
   *  0 to 3. */
  method Sm9Pmulg2(req: PkRequest, store: OperandStore, width: nat, p2: Ef4, ke: seq<byte>, ppubs: Ef4Ref)
    returns (status: Status, ghost list: Status, ghost wait: Status)
    modifies req, store
    ensures req.calls == old(req.calls) + Protocol(Command.Sm9Pmulg2, ListEccSlots(width, list), WriteCalls(Pmulg2Roles), wait, true)
    ensures status == FirstFailure(list, wait)
    ensures req.cmd == Command.Sm9Pmulg2
    ensures list.Ok? ==> req.opsize == width && req.slots == UpdateAll(map[], Pmulg2Roles, [p2.x0, p2.x1, p2.y0, p2.y1, ke, Sm9T])
    ensures list.Ok? ==> T in req.slots && req.slots[T] == Sm9T && F !in req.slots
    ensures status.Ok? ==> |req.outputs| == 4 && store.ops == UpdateAll(old(store.ops), [ppubs.x0, ppubs.x1, ppubs.y0, ppubs.y1], req.outputs)
    ensures !status.Ok? ==> store.ops == old(store.ops)
  {
    var data := [p2.x0, p2.x1, p2.y0, p2.y1, ke, Sm9T];
    var outs;
    status, outs, list, wait := EccRequest(req, Command.Sm9Pmulg2, width, Pmulg2Roles, data, true);
    if list.Ok? {
      SlotHolds(Pmulg2Roles, data, 5);
      UpdateAllUntouched(map[], Pmulg2Roles, data, F);
    }
    if status == Ok {
      StoreOutputs(store, [ppubs.x0, ppubs.x1, ppubs.y0, ppubs.y1], outs);
    }
  }

  /** sx_sm9_pair: p, q, sm9_t and sm9_f; r receives the twelve outputs. */
  method Sm9Pair(req: PkRequest, store: OperandStore, width: nat, p: Point, q: Ef4, r: Ef12Ref)
    returns (status: Status, ghost list: Status, ghost wait: Status)
    modifies req, store
    ensures req.calls == old(req.calls) + Protocol(Command.Sm9Pair, ListEccSlots(width, list), WriteCalls(PairRoles), wait, true)
    ensures status == FirstFailure(list, wait)
    ensures req.cmd == Command.Sm9Pair
    ensures list.Ok? ==> req.opsize == width && req.slots == UpdateAll(map[], PairRoles, [p.x, p.y, q.x0, q.x1, q.y0, q.y1, Sm9T, Sm9F])
    ensures list.Ok? ==> T in req.slots && req.slots[T] == Sm9T && F in req.slots && req.slots[F] == Sm9F
    ensures status.Ok? ==> |req.outputs| == 12 && store.ops == UpdateAll(old(store.ops), r, req.outputs)
    ensures !status.Ok? ==> store.ops == old(store.ops)
  {
    var data := [p.x, p.y, q.x0, q.x1, q.y0, q.y1, Sm9T, Sm9F];
    var outs;
    status, outs, list, wait := EccRequest(req, Command.Sm9Pair, width, PairRoles, data, true);
    if list.Ok? {
      SlotHolds(PairRoles, data, 6);
      SlotHolds(PairRoles, data, 7);
    }
    if status == Ok {
      StoreOutputs(store, r, outs);
    }
  }

  /** sx_sm9_generate_signature_private_key: p1, h, ks and sm9_t; ds receives outputs 0 and 1. */
  method Sm9SigKeygen(req: PkRequest, store: OperandStore, width: nat, p1: Point, h: seq<byte>, ks: seq<byte>, ds: PointRef)
    returns (status: Status, ghost list: Status, ghost wait: Status)
    modifies req, store
    ensures req.calls == old(req.calls) + Protocol(Sm9PrivSigKeygen, ListEccSlots(width, list), WriteCalls(SigKeygenRoles), wait, true)
    ensures status == FirstFailure(list, wait)
    ensures req.cmd == Sm9PrivSigKeygen
    ensures list.Ok? ==> req.opsize == width && req.slots == UpdateAll(map[], SigKeygenRoles, [p1.x, p1.y, h, ks, Sm9T])
    ensures list.Ok? ==> T in req.slots && req.slots[T] == Sm9T && F !in req.slots
    ensures status.Ok? ==> |req.outputs| == 2 && store.ops == UpdateAll(old(store.ops), [ds.x, ds.y], req.outputs)
    ensures !status.Ok? ==> store.ops == old(store.ops)
  {
    var data := [p1.x, p1.y, h, ks, Sm9T];
    var outs;
    status, outs, list, wait := EccRequest(req, Sm9PrivSigKeygen, width, SigKeygenRoles, data, true);
    if list.Ok? {
      SlotHolds(SigKeygenRoles, data, 4);
      UpdateAllUntouched(map[], SigKeygenRoles, data, F);
    }
    if status == Ok {
      StoreOutputs(store, [ds.x, ds.y], outs);
    }
  }

  /** sx_sm9_sign: ds, h, r and sm9_t; s receives outputs 0 and 1. */
  method Sm9Sign(req: PkRequest, store: OperandStore, width: nat, ds: Point, h: seq<byte>, r: seq<byte>, s: PointRef)
    returns (status: Status, ghost list: Status, ghost wait: Status)
    modifies req, store
    ensures req.calls == old(req.calls) + Protocol(Sm9SignatureGen, ListEccSlots(width, list), WriteCalls(SignRoles), wait, true)
    ensures status == FirstFailure(list, wait)
    ensures req.cmd == Sm9SignatureGen
    ensures list.Ok? ==> req.opsize == width && req.slots == UpdateAll(map[], SignRoles, [ds.x, ds.y, h, r, Sm9T])
    ensures list.Ok? ==> T in req.slots && req.slots[T] == Sm9T && F !in req.slots
    ensures status.Ok? ==> |req.outputs| == 2 && store.ops == UpdateAll(old(store.ops), [s.x, s.y], req.outputs)
    ensures !status.Ok? ==> store.ops == old(store.ops)
  {
    var data := [ds.x, ds.y, h, r, Sm9T];
    var outs;
    status, outs, list, wait := EccRequest(req, Sm9SignatureGen, width, SignRoles, data, true);
    if list.Ok? {
      SlotHolds(SignRoles, data, 4);
      UpdateAllUntouched(map[], SignRoles, data, F);
    }
    if status == Ok {
      StoreOutputs(store, [s.x, s.y], outs);
    }
  }

  /** The operands of sx_sm9_signature_verify in the order of VerifyRoles. */
  function VerifyData(h1: seq<byte>, p2: Ef4, ppubs: Ef4, s: Point, h: seq<byte>, g: Ef12): (d: seq<seq<byte>>)
    ensures |d| == |VerifyRoles|
  {
    [h1, p2.x0, p2.x1, p2.y0, p2.y1, ppubs.x0, ppubs.x1, ppubs.y0, ppubs.y1, s.x, s.y, h, Sm9F, Sm9T] + g
  }

  /** In the slots of signature verification, t holds sm9_t, f holds sm9_f and g[i] holds
   *  coefficient i. */
  lemma VerifyLayout(h1: seq<byte>, p2: Ef4, ppubs: Ef4, s: Point, h: seq<byte>, g: Ef12)
    ensures var slots := UpdateAll(map[], VerifyRoles, VerifyData(h1, p2, ppubs, s, h, g));
            T in slots && slots[T] == Sm9T && F in slots && slots[F] == Sm9F
            && forall i :: 0 <= i < 12 ==> Gc(i) in slots && slots[Gc(i)] == g[i]
  {
    var head := [H1, P2x0, P2x1, P2y0, P2y1, PpubsX0, PpubsX1, PpubsY0, PpubsY1, Sx0, Sy0, H, F, T];
    var headData := [h1, p2.x0, p2.x1, p2.y0, p2.y1, ppubs.x0, ppubs.x1, ppubs.y0, ppubs.y1, s.x, s.y, h, Sm9F, Sm9T];
    var data := VerifyData(h1, p2, ppubs, s, h, g);
    assert VerifyRoles == head + CoeffRoles();
    assert data == headData + g;
    CoefficientSlots(head, headData, g);
    SlotHolds(VerifyRoles, data, 12);
    SlotHolds(VerifyRoles, data, 13);
  }

  /** sx_sm9_signature_verify: h1, p2, ppubs, s, h, sm9_f, sm9_t and the twelve coefficients of g
   *  in index order; w receives the twelve outputs. */
  method Sm9SignatureVerify(req: PkRequest, store: OperandStore, width: nat, h1: seq<byte>, p2: Ef4, ppubs: Ef4,
                            s: Point, h: seq<byte>, g: Ef12, w: Ef12Ref)
    returns (status: Status, ghost list: Status, ghost wait: Status)
    modifies req, store
    ensures req.calls == old(req.calls) + Protocol(Command.Sm9SignatureVerify, ListEccSlots(width, list), WriteCalls(VerifyRoles), wait, true)
    ensures status == FirstFailure(list, wait)
    ensures req.cmd == Command.Sm9SignatureVerify
    ensures list.Ok? ==> req.opsize == width
    ensures list.Ok? ==> req.slots == UpdateAll(map[], VerifyRoles, VerifyData(h1, p2, ppubs, s, h, g))
    ensures list.Ok? ==> T in req.slots && req.slots[T] == Sm9T && F in req.slots && req.slots[F] == Sm9F
    ensures list.Ok? ==> forall i :: 0 <= i < 12 ==> Gc(i) in req.slots && req.slots[Gc(i)] == g[i]
    ensures status.Ok? ==> |req.outputs| == 12 && store.ops == UpdateAll(old(store.ops), w, req.outputs)
    ensures !status.Ok? ==> store.ops == old(store.ops)
  {
    var outs;
    status, outs, list, wait := EccRequest(req, Command.Sm9SignatureVerify, width, VerifyRoles, VerifyData(h1, p2, ppubs, s, h, g), true);
    if list.Ok? {
      VerifyLayout(h1, p2, ppubs, s, h, g);
    }
    if status == Ok {
      StoreOutputs(store, w, outs);
    }
  }

  /** sx_sm9_generate_encryption_private_key: p2, h, ke (into the ks slot) and sm9_t; de receives
   *  x0, x1, y0, y1 from outputs 0 to 3. */
  method Sm9EncrKeygen(req: PkRequest, store: OperandStore, width: nat, p2: Ef4, h: seq<byte>, ke: seq<byte>, de: Ef4Ref)
    returns (status: Status, ghost list: Status, ghost wait: Status)
    modifies req, store
    ensures req.calls == old(req.calls) + Protocol(Sm9PrivEncrKeygen, ListEccSlots(width, list), WriteCalls(EncrKeygenRoles), wait, true)
    ensures status == FirstFailure(list, wait)
    ensures req.cmd == Sm9PrivEncrKeygen
    ensures list.Ok? ==> req.opsize == width && req.slots == UpdateAll(map[], EncrKeygenRoles, [p2.x0, p2.x1, p2.y0, p2.y1, h, ke, Sm9T])
    ensures list.Ok? ==> T in req.slots && req.slots[T] == Sm9T && F !in req.slots
    ensures status.Ok? ==> |req.outputs| == 4 && store.ops == UpdateAll(old(store.ops), [de.x0, de.x1, de.y0, de.y1], req.outputs)
    ensures !status.Ok? ==> store.ops == old(store.ops)
  {
    var data := [p2.x0, p2.x1, p2.y0, p2.y1, h, ke, Sm9T];
    var outs;
    status, outs, list, wait := EccRequest(req, Sm9PrivEncrKeygen, width, EncrKeygenRoles, data, true);
    if list.Ok? {
      SlotHolds(EncrKeygenRoles, data, 6);
      UpdateAllUntouched(map[], EncrKeygenRoles, data, F);
    }
    if status == Ok {
      StoreOutputs(store, [de.x0, de.x1, de.y0, de.y1], outs);
    }
  }

  /** sx_sm9_send_key: p1, ppube, h, r and sm9_t; rx receives outputs 0 and 1. */
  method Sm9SendKey(req: PkRequest, store: OperandStore, width: nat, p1: Point, ppube: Point, h: seq<byte>, r: seq<byte>, rx: PointRef)
    returns (status: Status, ghost list: Status, ghost wait: Status)
    modifies req, store
    ensures req.calls == old(req.calls) + Protocol(Command.Sm9SendKey, ListEccSlots(width, list), WriteCalls(SendKeyRoles), wait, true)
    ensures status == FirstFailure(list, wait)
    ensures req.cmd == Command.Sm9SendKey
    ensures list.Ok? ==> req.opsize == width && req.slots == UpdateAll(map[], SendKeyRoles, [p1.x, p1.y, ppube.x, ppube.y, h, r, Sm9T])
    ensures list.Ok? ==> T in req.slots && req.slots[T] == Sm9T && F !in req.slots
    ensures status.Ok? ==> |req.outputs| == 2 && store.ops == UpdateAll(old(store.ops), [rx.x, rx.y], req.outputs)
    ensures !status.Ok? ==> store.ops == old(store.ops)
  {
    var data := [p1.x, p1.y, ppube.x, ppube.y, h, r, Sm9T];
    var outs;
    status, outs, list, wait := EccRequest(req, Command.Sm9SendKey, width, SendKeyRoles, data, true);
    if list.Ok? {
      SlotHolds(SendKeyRoles, data, 6);
      UpdateAllUntouched(map[], SendKeyRoles, data, F);
    }
    if status == Ok {
      StoreOutputs(store, [rx.x, rx.y], outs);
    }
  }

  /** sx_sm9_reduce_h: the slots are sized from h and sm9_t (not from the curve); h and sm9_t go
   *  to slots h and t; rh receives output 0. */
  method Sm9ReduceH(req: PkRequest, store: OperandStore, h: seq<byte>, rh: OpRef)
    returns (status: Status, ghost list: Status, ghost wait: Status)
    modifies req, store
    ensures req.calls == old(req.calls) + Protocol(Command.Sm9ReduceH, ListGfpSlots([|h|, 32], list), WriteCalls(ReduceHRoles), wait, true)
    ensures status == FirstFailure(list, wait)
    ensures req.cmd == Command.Sm9ReduceH
    ensures list.Ok? ==> req.slots == UpdateAll(map[], ReduceHRoles, [h, Sm9T])
    ensures list.Ok? ==> T in req.slots && req.slots[T] == Sm9T && F !in req.slots
    ensures list.Ok? ==> |h| <= req.opsize && 32 <= req.opsize
    ensures status.Ok? ==> |req.outputs| == 1 && store.ops == old(store.ops)[rh := req.outputs[0]]
    ensures !status.Ok? ==> store.ops == old(store.ops)
  {
    var data := [h, Sm9T];
    var outs;
    status, outs, list, wait := GfpRequest(req, Command.Sm9ReduceH, [|h|, 32], ReduceHRoles, data, true);
    if list.Ok? {
      assert [|h|, 32][0] == |h| && [|h|, 32][1] == 32;
      SlotHolds(ReduceHRoles, data, 1);
      UpdateAllUntouched(map[], ReduceHRoles, data, F);
    }
    if status == Ok {
      store.Store(rh, outs[0]);
    }
  }
}
