/** Ed448 and Ed448ph signing, verification and public-key derivation (cracenpsa/src/ed448.c),
 *  following the step order of RFC 8032 sections 5.2.5 to 5.2.7 as the code implements it.
 *  SHAKE256, decode_scalar_448 and the engine operations sx_ed448_ptmult, sx_ed448_sign and
 *  sx_ed448_verify are not part of this model: they are the uninterpreted fields of a
 *  Primitives value, each with its fixed output length. */
module Ed448 {
  import opened StatusCodes
  import opened Bytes

  /** SX_ED448_SZ == SX_ED448_PT_SZ: a scalar, an encoded point, half a digest. */
  const Ed448Size: nat := 57
  /** SX_ED448_DGST_SZ: a SHAKE256-114 digest, a signature. */
  const DigestSize: nat := 114
  /** The 5 * 57 bytes of workmem and the offsets of its areas. */
  const WorkmemSize: nat := 285
  const Area2Offset: nat := 57
  const Area4Offset: nat := 171

  type Bytes57 = s: seq<byte> | |s| == 57 witness seq(57, _ => 0)
  type Bytes114 = s: seq<byte> | |s| == 114 witness seq(114, _ => 0)

  /** The collaborators. A call that fails leaves its output buffer as it was. */
  datatype Primitives = Primitives(
    shake256: seq<seq<byte>> -> Outcome<Bytes114>,               // cracen_hash_all_inputs, SHAKE256-114
    decodeScalar: Bytes57 -> Bytes57,                             // decode_scalar_448, in place
    ptmult: Bytes114 -> Outcome<Bytes57>,                         // sx_ed448_ptmult: [s]B from a digest
    scalarSign: (Bytes114, Bytes114, Bytes57) -> Outcome<Bytes57>,  // sx_ed448_sign(k, r, s): S
    verify: (Bytes114, Bytes57, Bytes57, Bytes57) -> Status)      // sx_ed448_verify(k, A, S, R)

  /** One collaborator call, with its inputs and its status. */
  datatype Ed448Call =
    | HashCall(inputs: seq<seq<byte>>, status: Status)
    | DecodeCall(scalar: seq<byte>)
    | PtMultCall(digest: seq<byte>, status: Status)
    | SignCall(k: seq<byte>, r: seq<byte>, s: seq<byte>, status: Status)
    | VerifyCall(digest: seq<byte>, pub: seq<byte>, sPart: seq<byte>, rPart: seq<byte>, status: Status)

  datatype CallKind = HashKind | DecodeKind | PtMultKind | SignKind | VerifyKind

  function Kind(c: Ed448Call): CallKind
  {
    match c
    case HashCall(_, _) => HashKind
    case DecodeCall(_) => DecodeKind
    case PtMultCall(_, _) => PtMultKind
    case SignCall(_, _, _, _) => SignKind
    case VerifyCall(_, _, _, _, _) => VerifyKind
  }

  /** The status a call returned; decode_scalar_448 returns none. */
  function CallStatus(c: Ed448Call): Status
  {
    if c.DecodeCall? then Ok else c.status
  }

  function Kinds(calls: seq<Ed448Call>): (r: seq<CallKind>)
    ensures |r| == |calls| && forall i :: 0 <= i < |calls| ==> r[i] == Kind(calls[i])
  {
    seq(|calls|, i requires 0 <= i < |calls| => Kind(calls[i]))
  }

  /** The fixed order of the steps of ed448_sign_internal. */
  const SignOrder: seq<CallKind> := [HashKind, HashKind, PtMultKind, DecodeKind, PtMultKind, HashKind, SignKind]

  /** dom4 as the code has it: the 8 bytes "SigEd448" only. */
  const Dom4: seq<byte> := [0x53, 0x69, 0x67, 0x45, 0x64, 0x34, 0x34, 0x38]

  // ---------------------------------------------------------------------------------------
  // Hash-input selection: the inputs after `offset = prehash ? 0 : 1`

  /** The inputs of ed448_calculate_r: (dom4,) prefix, message. */
  function RHashInputs(prefix: seq<byte>, message: seq<byte>, prehash: bool): (r: seq<seq<byte>>)
    ensures prehash ==> r == [Dom4, prefix, message]
    ensures !prehash ==> r == [prefix, message]
  {
    var all := [Dom4, prefix, message];
    var offset := if prehash then 0 else 1;
    all[offset..]
  }

  /** The inputs of ed448_calculate_k: (dom4,) R, A, message. ed448_verify_internal hashes the
   *  same list, with the R half of the signature and the public key as R and A. */
  function KHashInputs(pointR: seq<byte>, pubA: seq<byte>, message: seq<byte>, prehash: bool): (r: seq<seq<byte>>)
    ensures prehash ==> r == [Dom4, pointR, pubA, message]
    ensures !prehash ==> r == [pointR, pubA, message]
  {
    var all := [Dom4, pointR, pubA, message];
    var offset := if prehash then 0 else 1;
    all[offset..]
  }

  // ---------------------------------------------------------------------------------------
  // Signing, as a function of the collaborators and the initial buffer contents

  /** What a run of ed448_sign_internal produces: its status, the calls it made, the final
   *  contents of workmem and of pnt_r. */
  datatype SignRun = SignRun(status: Status, calls: seq<Ed448Call>, wm: seq<byte>, pntR: seq<byte>)

  /** ed448_sign_internal step by step on workmem (initially wm0) and pnt_r (initially r0):
   *  digest of the key into [0,114); r into [171,285); R into pnt_r[0,57); s decoded in place
   *  in [0,57); [57,114) zeroed; A into [57,114); k into [57,171); S into pnt_r[57,114); then
   *  workmem is zeroed. Any failure returns at once with the buffers as they are. */
  function SignSpec(prim: Primitives, key: Bytes57, message: seq<byte>, prehash: bool, wm0: seq<byte>, r0: seq<byte>): (run: SignRun)
    requires |wm0| == WorkmemSize && |r0| == DigestSize
    ensures |run.wm| == WorkmemSize && |run.pntR| == DigestSize
  {
    var h := prim.shake256([key]);
    var c1 := HashCall([key], h.StatusOf());
    if h.Fail? then SignRun(h.StatusOf(), [c1], wm0, r0) else
    var rest := SignFromDigest(prim, message, prehash, Put(wm0, 0, h.value), r0);
    SignRun(rest.status, [c1] + rest.calls, rest.wm, rest.pntR)
  }

  /** The steps after the key digest: r, R, the decoded scalar and the cleared upper half. */
  function SignFromDigest(prim: Primitives, message: seq<byte>, prehash: bool, wm1: seq<byte>, r0: seq<byte>): (run: SignRun)
    requires |wm1| == WorkmemSize && |r0| == DigestSize
    ensures |run.wm| == WorkmemSize && |run.pntR| == DigestSize
  {
    var rIn := RHashInputs(wm1[57..114], message, prehash);
    var r := prim.shake256(rIn);
    var c2 := HashCall(rIn, r.StatusOf());
    if r.Fail? then SignRun(r.StatusOf(), [c2], wm1, r0) else
    var wm2 := Put(wm1, 171, r.value);
    var pointR := prim.ptmult(wm2[171..285]);
    var c3 := PtMultCall(wm2[171..285], pointR.StatusOf());
    if pointR.Fail? then SignRun(pointR.StatusOf(), [c2, c3], wm2, r0) else
    var s := prim.decodeScalar(wm2[..57]);
    var rest := SignFromScalar(prim, message, prehash, ScalarMem(wm1, r.value, s), Put(r0, 0, pointR.value));
    SignRun(rest.status, [c2, c3, DecodeCall(wm2[..57])] + rest.calls, rest.wm, rest.pntR)
  }

  /** workmem once r is in [171,285), s decoded into [0,57) and [57,114) cleared. */
  function ScalarMem(wm1: seq<byte>, r: Bytes114, s: Bytes57): (m: seq<byte>)
    requires |wm1| == WorkmemSize
    ensures |m| == WorkmemSize
  {
    Put(Put(Put(wm1, 171, r), 0, s), 57, Zeros(57))
  }

  /** The areas of ScalarMem: s and zeros in [0,114), r still in [171,285). */
  lemma ScalarMemLayout(wm1: seq<byte>, r: Bytes114, s: Bytes57)
    requires |wm1| == WorkmemSize
    ensures var m := ScalarMem(wm1, r, s);
            m[..114] == s + Zeros(57) && m[..57] == s && m[171..285] == r
  {
    var wm2 := Put(wm1, 171, r);
    var withS := Put(wm2, 0, s);
    var m := Put(withS, 57, Zeros(57));
    assert m[..57] == s by {
      PutOutside(withS, 57, Zeros(57), 0, 57);
      PutInside(wm2, 0, s, 0, 57);
    }
    assert m[57..114] == Zeros(57);
    assert m[..114] == m[..57] + m[57..114];
    assert m[171..285] == r by {
      PutOutside(withS, 57, Zeros(57), 171, 285);
      PutOutside(wm2, 0, s, 171, 285);
    }
  }

  /** The steps after the scalar: A, k, S, and the scrubbing of workmem. */
  function SignFromScalar(prim: Primitives, message: seq<byte>, prehash: bool, wm3: seq<byte>, pr1: seq<byte>): (run: SignRun)
    requires |wm3| == WorkmemSize && |pr1| == DigestSize
    ensures |run.wm| == WorkmemSize && |run.pntR| == DigestSize
  {
    var pubA := prim.ptmult(wm3[..114]);
    var c5 := PtMultCall(wm3[..114], pubA.StatusOf());
    if pubA.Fail? then SignRun(pubA.StatusOf(), [c5], wm3, pr1) else
    var wm4 := Put(wm3, 57, pubA.value);
    var kIn := KHashInputs(pr1[..57], wm4[57..114], message, prehash);
    var k := prim.shake256(kIn);
    var c6 := HashCall(kIn, k.StatusOf());
    if k.Fail? then SignRun(k.StatusOf(), [c5, c6], wm4, pr1) else
    var wm5 := Put(wm4, 57, k.value);
    var sig := prim.scalarSign(wm5[57..171], wm5[171..285], wm5[..57]);
    var c7 := SignCall(wm5[57..171], wm5[171..285], wm5[..57], sig.StatusOf());
    if sig.Fail? then SignRun(sig.StatusOf(), [c5, c6, c7], wm5, pr1) else
    SignRun(Ok, [c5, c6, c7], Zeros(WorkmemSize), Put(pr1, 57, sig.value))
  }

  // The values a signing run computes, named for the lemmas below.

  function KeyDigest(prim: Primitives, key: Bytes57): Outcome<Bytes114>
  {
    prim.shake256([key])
  }

  /** The ptmult input that derives A: the decoded scalar followed by 57 zero bytes. */
  function ScalarDigest(prim: Primitives, h: Bytes114): Bytes114
  {
    prim.decodeScalar(h[..57]) + Zeros(57)
  }

  /** What the steps after the scalar compute: A from workmem[0,114), the k-hash inputs from R
   *  and A, the final call on the three areas, S after R on success. */
  lemma FromScalarFacts(prim: Primitives, message: seq<byte>, prehash: bool, wm3: seq<byte>, pr1: seq<byte>)
    requires |wm3| == WorkmemSize && |pr1| == DigestSize
    ensures var run := SignFromScalar(prim, message, prehash, wm3, pr1);
            run.calls[0].PtMultCall? && run.calls[0].digest == wm3[..114]
            && (|run.calls| >= 2 ==>
                  prim.ptmult(wm3[..114]).Done? && run.calls[1].HashCall?
                  && run.calls[1].inputs == KHashInputs(pr1[..57], prim.ptmult(wm3[..114]).value, message, prehash))
            && (|run.calls| == 3 ==>
                  prim.shake256(run.calls[1].inputs).Done? && run.calls[2].SignCall?
                  && run.calls[2].k == prim.shake256(run.calls[1].inputs).value
                  && run.calls[2].r == wm3[171..285] && run.calls[2].s == wm3[..57])
            && (run.status.Ok? ==>
                  |run.calls| == 3 && run.wm == Zeros(WorkmemSize)
                  && prim.scalarSign(run.calls[2].k, run.calls[2].r, run.calls[2].s).Done?
                  && run.pntR == pr1[..57] + prim.scalarSign(run.calls[2].k, run.calls[2].r, run.calls[2].s).value)
            && (!run.status.Ok? ==> run.wm[..57] == wm3[..57])
  {
    var pubA := prim.ptmult(wm3[..114]);
    if pubA.Done? {
      var wm4 := Put(wm3, 57, pubA.value);
      assert wm4[..57] == wm3[..57] by { PutOutside(wm3, 57, pubA.value, 0, 57); }
      assert wm4[171..285] == wm3[171..285] by { PutOutside(wm3, 57, pubA.value, 171, 285); }
      var k := prim.shake256(KHashInputs(pr1[..57], wm4[57..114], message, prehash));
      if k.Done? {
        var wm5 := Put(wm4, 57, k.value);
        assert wm5[..57] == wm3[..57] by { PutOutside(wm4, 57, k.value, 0, 57); }
        assert wm5[171..285] == wm3[171..285] by { PutOutside(wm4, 57, k.value, 171, 285); }
        var sig := prim.scalarSign(wm5[57..171], wm5[171..285], wm5[..57]);
        if sig.Done? {
          var pr2 := Put(pr1, 57, sig.value);
          assert pr2[..57] == pr1[..57] by { PutOutside(pr1, 57, sig.value, 0, 57); }
          assert pr2 == pr2[..57] + pr2[57..114];
        }
      }
    }
  }

  /** What the steps after the key digest compute: the r-hash inputs from workmem[57,114), R from
   *  r, s from workmem[0,57), then the steps after the scalar on ScalarMem. */
  lemma FromDigestFacts(prim: Primitives, message: seq<byte>, prehash: bool, wm1: seq<byte>, r0: seq<byte>)
    requires |wm1| == WorkmemSize && |r0| == DigestSize
    ensures var run := SignFromDigest(prim, message, prehash, wm1, r0);
            var rIn := RHashInputs(wm1[57..114], message, prehash);
            run.calls[0] == HashCall(rIn, prim.shake256(rIn).StatusOf())
            && (|run.calls| >= 2 ==>
                  prim.shake256(rIn).Done? && run.calls[1].PtMultCall? && run.calls[1].digest == prim.shake256(rIn).value)
            && (!run.status.Ok? && |run.calls| <= 2 ==> run.wm[..114] == wm1[..114])
            && (|run.calls| >= 3 ==>
                  prim.shake256(rIn).Done? && prim.ptmult(prim.shake256(rIn).value).Done?
                  && run.calls[2] == DecodeCall(wm1[..57])
                  && (var rest := SignFromScalar(prim, message, prehash,
                                    ScalarMem(wm1, prim.shake256(rIn).value, prim.decodeScalar(wm1[..57])),
                                    Put(r0, 0, prim.ptmult(prim.shake256(rIn).value).value));
                      run.status == rest.status && run.calls[3..] == rest.calls && run.wm == rest.wm && run.pntR == rest.pntR))
  {
    var r := prim.shake256(RHashInputs(wm1[57..114], message, prehash));
    if r.Done? {
      var wm2 := Put(wm1, 171, r.value);
      assert wm2[..114] == wm1[..114] by { PutOutside(wm1, 171, r.value, 0, 114); }
      assert wm2[..57] == wm1[..57] by { PutOutside(wm1, 171, r.value, 0, 57); }
    }
  }

  /** After a successful key digest, workmem holds the digest in [0,114) and the run is the steps
   *  after the digest behind the digest call. */
  lemma SignStructure(prim: Primitives, key: Bytes57, message: seq<byte>, prehash: bool, wm0: seq<byte>, r0: seq<byte>)
    returns (wm1: seq<byte>)
    requires |wm0| == WorkmemSize && |r0| == DigestSize && KeyDigest(prim, key).Done?
    ensures |wm1| == WorkmemSize
    ensures wm1[..114] == KeyDigest(prim, key).value && wm1[57..114] == KeyDigest(prim, key).value[57..]
            && wm1[..57] == KeyDigest(prim, key).value[..57]
    ensures var run := SignSpec(prim, key, message, prehash, wm0, r0);
            var rest := SignFromDigest(prim, message, prehash, wm1, r0);
            run.status == rest.status && run.calls == [HashCall([key], Ok)] + rest.calls
            && run.wm == rest.wm && run.pntR == rest.pntR
  {
    var h := KeyDigest(prim, key).value;
    wm1 := Put(wm0, 0, h);
    assert wm1[57..114] == h[57..] by { PutInside(wm0, 0, h, 57, 114); }
    assert wm1[..57] == h[..57] by { PutInside(wm0, 0, h, 0, 57); }
  }

  /** The r-hash inputs hold the second half of the key digest and the message, after dom4 when
   *  prehash is set; R is computed from the r digest. */
  lemma SignRInputs(prim: Primitives, key: Bytes57, message: seq<byte>, prehash: bool, wm0: seq<byte>, r0: seq<byte>)
    requires |wm0| == WorkmemSize && |r0| == DigestSize
    ensures var run := SignSpec(prim, key, message, prehash, wm0, r0);
            |run.calls| >= 2 ==>
              KeyDigest(prim, key).Done? && run.calls[1].HashCall?
              && run.calls[1].inputs == (if prehash then [Dom4] else []) + [KeyDigest(prim, key).value[57..], message]
    ensures var run := SignSpec(prim, key, message, prehash, wm0, r0);
            |run.calls| >= 3 ==>
              run.calls[1].HashCall? && run.calls[2].PtMultCall? && prim.shake256(run.calls[1].inputs).Done?
              && run.calls[2].digest == prim.shake256(run.calls[1].inputs).value
  {
    if KeyDigest(prim, key).Done? {
      var wm1 := SignStructure(prim, key, message, prehash, wm0, r0);
      FromDigestFacts(prim, message, prehash, wm1, r0);
    }
  }

  /** A = [s]B is computed from the decoded scalar followed by 57 zero bytes. */
  lemma SignPtMultInput(prim: Primitives, key: Bytes57, message: seq<byte>, prehash: bool, wm0: seq<byte>, r0: seq<byte>)
    requires |wm0| == WorkmemSize && |r0| == DigestSize
    ensures var run := SignSpec(prim, key, message, prehash, wm0, r0);
            |run.calls| >= 5 ==>
              KeyDigest(prim, key).Done?
              && run.calls[3] == DecodeCall(KeyDigest(prim, key).value[..57]) && run.calls[4].PtMultCall?
              && run.calls[4].digest == ScalarDigest(prim, KeyDigest(prim, key).value)
  {
    if KeyDigest(prim, key).Done? {
      var wm1 := SignStructure(prim, key, message, prehash, wm0, r0);
      FromDigestFacts(prim, message, prehash, wm1, r0);
      var rest := SignFromDigest(prim, message, prehash, wm1, r0);
      if |rest.calls| >= 3 {
        var rIn := RHashInputs(wm1[57..114], message, prehash);
        var r := prim.shake256(rIn).value;
        var wm3 := ScalarMem(wm1, r, prim.decodeScalar(wm1[..57]));
        ScalarMemLayout(wm1, r, prim.decodeScalar(wm1[..57]));
        FromScalarFacts(prim, message, prehash, wm3, Put(r0, 0, prim.ptmult(r).value));
      }
    }
  }

  /** The k-hash inputs are R, A and the message, after dom4 when prehash is set. */
  lemma SignKInputs(prim: Primitives, key: Bytes57, message: seq<byte>, prehash: bool, wm0: seq<byte>, r0: seq<byte>)
    requires |wm0| == WorkmemSize && |r0| == DigestSize
    ensures var run := SignSpec(prim, key, message, prehash, wm0, r0);
            |run.calls| >= 6 ==>
              run.calls[2].PtMultCall? && run.calls[4].PtMultCall? && run.calls[5].HashCall?
              && |run.calls[2].digest| == DigestSize && |run.calls[4].digest| == DigestSize
              && prim.ptmult(run.calls[2].digest).Done? && prim.ptmult(run.calls[4].digest).Done?
              && run.calls[5].inputs ==
                 (if prehash then [Dom4] else [])
                 + [prim.ptmult(run.calls[2].digest).value, prim.ptmult(run.calls[4].digest).value, message]
  {
    if KeyDigest(prim, key).Done? {
      var wm1 := SignStructure(prim, key, message, prehash, wm0, r0);
      FromDigestFacts(prim, message, prehash, wm1, r0);
      var rest := SignFromDigest(prim, message, prehash, wm1, r0);
      if |rest.calls| >= 3 {
        var rIn := RHashInputs(wm1[57..114], message, prehash);
        var r := prim.shake256(rIn).value;
        var wm3 := ScalarMem(wm1, r, prim.decodeScalar(wm1[..57]));
        var pr1 := Put(r0, 0, prim.ptmult(r).value);
        ScalarMemLayout(wm1, r, prim.decodeScalar(wm1[..57]));
        FromScalarFacts(prim, message, prehash, wm3, pr1);
      }
    }
  }

  /** At the final call the three areas hold what was computed for them: k (the k digest) at
   *  [57,171), r (the r digest) at [171,285) and the decoded scalar s at [0,57). */
  lemma SignFinalArguments(prim: Primitives, key: Bytes57, message: seq<byte>, prehash: bool, wm0: seq<byte>, r0: seq<byte>)
    requires |wm0| == WorkmemSize && |r0| == DigestSize
    ensures var run := SignSpec(prim, key, message, prehash, wm0, r0);
            |run.calls| == 7 ==>
              KeyDigest(prim, key).Done? && run.calls[1].HashCall? && run.calls[5].HashCall? && run.calls[6].SignCall?
              && prim.shake256(run.calls[1].inputs).Done? && prim.shake256(run.calls[5].inputs).Done?
              && run.calls[6].k == prim.shake256(run.calls[5].inputs).value
              && run.calls[6].r == prim.shake256(run.calls[1].inputs).value
              && run.calls[6].s == prim.decodeScalar(KeyDigest(prim, key).value[..57])
  {
    if KeyDigest(prim, key).Done? {
      var wm1 := SignStructure(prim, key, message, prehash, wm0, r0);
      FromDigestFacts(prim, message, prehash, wm1, r0);
      var rest := SignFromDigest(prim, message, prehash, wm1, r0);
      if |rest.calls| >= 3 {
        var rIn := RHashInputs(wm1[57..114], message, prehash);
        var r := prim.shake256(rIn).value;
        var wm3 := ScalarMem(wm1, r, prim.decodeScalar(wm1[..57]));
        ScalarMemLayout(wm1, r, prim.decodeScalar(wm1[..57]));
        FromScalarFacts(prim, message, prehash, wm3, Put(r0, 0, prim.ptmult(r).value));
      }
    }
  }

  /** A run made the calls of `order` up to the first failure and returned that call's status. */
  predicate StopsAtFirstFailure(run: SignRun, order: seq<CallKind>)
  {
    1 <= |run.calls| <= |order| && Kinds(run.calls) == order[..|run.calls|]
    && (forall i :: 0 <= i < |run.calls| - 1 ==> CallStatus(run.calls[i]) == Ok)
    && run.status == CallStatus(run.calls[|run.calls| - 1])
    && (run.status.Ok? ==> |run.calls| == |order|)
  }

  /** Successful calls in front of a run that stops at its first failure give a run that stops
   *  at its first failure. */
  lemma PrefixStops(done: seq<Ed448Call>, first: seq<CallKind>, rest: SignRun, order: seq<CallKind>, run: SignRun)
    requires Kinds(done) == first && forall i :: 0 <= i < |done| ==> CallStatus(done[i]) == Ok
    requires StopsAtFirstFailure(rest, order)
    requires run.status == rest.status && run.calls == done + rest.calls
    ensures StopsAtFirstFailure(run, first + order)
  {
    assert Kinds(run.calls) == Kinds(done) + Kinds(rest.calls);
    assert (first + order)[..|run.calls|] == first + order[..|rest.calls|];
    forall i | 0 <= i < |run.calls| - 1
      ensures CallStatus(run.calls[i]) == Ok
    {
      if i >= |done| {
        assert run.calls[i] == rest.calls[i - |done|];
      }
    }
    assert run.calls[|run.calls| - 1] == rest.calls[|rest.calls| - 1];
  }

  lemma FromScalarStops(prim: Primitives, message: seq<byte>, prehash: bool, wm3: seq<byte>, pr1: seq<byte>)
    requires |wm3| == WorkmemSize && |pr1| == DigestSize
    ensures StopsAtFirstFailure(SignFromScalar(prim, message, prehash, wm3, pr1), [PtMultKind, HashKind, SignKind])
  {
  }

  lemma FromDigestStops(prim: Primitives, message: seq<byte>, prehash: bool, wm1: seq<byte>, r0: seq<byte>)
    requires |wm1| == WorkmemSize && |r0| == DigestSize
    ensures StopsAtFirstFailure(SignFromDigest(prim, message, prehash, wm1, r0), SignOrder[1..])
  {
    var r := prim.shake256(RHashInputs(wm1[57..114], message, prehash));
    if r.Done? {
      var wm2 := Put(wm1, 171, r.value);
      var pointR := prim.ptmult(wm2[171..285]);
      if pointR.Done? {
        var s := prim.decodeScalar(wm2[..57]);
        var wm3 := ScalarMem(wm1, r.value, s);
        var pr1 := Put(r0, 0, pointR.value);
        var rest := SignFromScalar(prim, message, prehash, wm3, pr1);
        var run := SignFromDigest(prim, message, prehash, wm1, r0);
        var done := [HashCall(RHashInputs(wm1[57..114], message, prehash), Ok), PtMultCall(wm2[171..285], Ok), DecodeCall(wm2[..57])];
        assert run.calls == done + rest.calls && run.status == rest.status;
        assert Kinds(done) == [HashKind, PtMultKind, DecodeKind];
        assert forall i :: 0 <= i < |done| ==> CallStatus(done[i]) == Ok;
        assert SignOrder[1..] == [HashKind, PtMultKind, DecodeKind] + [PtMultKind, HashKind, SignKind];
        FromScalarStops(prim, message, prehash, wm3, pr1);
        PrefixStops(done, [HashKind, PtMultKind, DecodeKind], rest, [PtMultKind, HashKind, SignKind], run);
      }
    }
  }

  /** Steps run in the fixed order, every call before the last one succeeded, and the status
   *  returned is that of the last call made: any failure returns at once. */
  lemma SignEarlyReturn(prim: Primitives, key: Bytes57, message: seq<byte>, prehash: bool, wm0: seq<byte>, r0: seq<byte>)
    requires |wm0| == WorkmemSize && |r0| == DigestSize
    ensures var run := SignSpec(prim, key, message, prehash, wm0, r0);
            1 <= |run.calls| <= 7 && Kinds(run.calls) == SignOrder[..|run.calls|]
            && (forall i :: 0 <= i < |run.calls| - 1 ==> CallStatus(run.calls[i]) == Ok)
            && run.status == CallStatus(run.calls[|run.calls| - 1])
            && (run.status.Ok? ==> |run.calls| == 7)
  {
    var h := prim.shake256([key]);
    if h.Done? {
      var wm1 := Put(wm0, 0, h.value);
      FromDigestStops(prim, message, prehash, wm1, r0);
      assert SignOrder == [HashKind] + SignOrder[1..];
      PrefixStops([HashCall([key], Ok)], [HashKind], SignFromDigest(prim, message, prehash, wm1, r0), SignOrder[1..],
                  SignSpec(prim, key, message, prehash, wm0, r0));
    }
  }

  /** The seven calls of a run that got to sx_ed448_sign, with their argument lengths. */
  predicate SuccessShape(run: SignRun)
  {
    |run.calls| == 7 && run.calls[1].HashCall? && run.calls[2].PtMultCall? && run.calls[4].PtMultCall?
    && run.calls[5].HashCall? && run.calls[6].SignCall?
    && |run.calls[2].digest| == DigestSize && |run.calls[4].digest| == DigestSize
    && |run.calls[6].k| == DigestSize && |run.calls[6].r| == DigestSize && |run.calls[6].s| == Ed448Size
  }

  /** On success the signature is R followed by S and workmem is all zero; after a failure past
   *  the key digest, secret material is still in workmem. */
  lemma SignScrubbing(prim: Primitives, key: Bytes57, message: seq<byte>, prehash: bool, wm0: seq<byte>, r0: seq<byte>)
    requires |wm0| == WorkmemSize && |r0| == DigestSize
    ensures var run := SignSpec(prim, key, message, prehash, wm0, r0);
            run.status.Ok? ==>
              SuccessShape(run) && run.wm == Zeros(WorkmemSize)
              && prim.ptmult(run.calls[2].digest).Done?
              && prim.scalarSign(run.calls[6].k, run.calls[6].r, run.calls[6].s).Done?
              && run.pntR == prim.ptmult(run.calls[2].digest).value + prim.scalarSign(run.calls[6].k, run.calls[6].r, run.calls[6].s).value
    ensures var run := SignSpec(prim, key, message, prehash, wm0, r0);
            !run.status.Ok? && 2 <= |run.calls| <= 3 ==> run.wm[..114] == KeyDigest(prim, key).value
    ensures var run := SignSpec(prim, key, message, prehash, wm0, r0);
            !run.status.Ok? && |run.calls| >= 5 ==> run.wm[..57] == prim.decodeScalar(KeyDigest(prim, key).value[..57])
  {
    if KeyDigest(prim, key).Done? {
      var wm1 := SignStructure(prim, key, message, prehash, wm0, r0);
      FromDigestFacts(prim, message, prehash, wm1, r0);
      var rest := SignFromDigest(prim, message, prehash, wm1, r0);
      if |rest.calls| >= 3 {
        var rIn := RHashInputs(wm1[57..114], message, prehash);
        var r := prim.shake256(rIn).value;
        var wm3 := ScalarMem(wm1, r, prim.decodeScalar(wm1[..57]));
        var pr1 := Put(r0, 0, prim.ptmult(r).value);
        ScalarMemLayout(wm1, r, prim.decodeScalar(wm1[..57]));
        FromScalarFacts(prim, message, prehash, wm3, pr1);
      }
    }
  }

  // ---------------------------------------------------------------------------------------
  // Signing on buffers

  /** ed448_calculate_r on workmem: hash (dom4,) workmem[57,114) and the message into
   *  workmem[171,285). */
  method CalculateR(prim: Primitives, workmem: array<byte>, message: seq<byte>, prehash: bool)
    returns (status: Status, ghost call: Ed448Call)
    requires workmem.Length == WorkmemSize
    modifies workmem
    ensures var d := prim.shake256(RHashInputs(old(workmem[57..114]), message, prehash));
            status == d.StatusOf() && call == HashCall(RHashInputs(old(workmem[57..114]), message, prehash), status)
            && workmem[..] == if d.Done? then Put(old(workmem[..]), 171, d.value) else old(workmem[..])
  {
    var inputs := RHashInputs(workmem[57..114], message, prehash);
    var d := prim.shake256(inputs);
    status := d.StatusOf();
    call := HashCall(inputs, status);
    if d.Done? {
      CopyInto(workmem, 171, d.value);
    }
  }

  /** ed448_calculate_k on workmem: hash (dom4,) pnt_r[0,57), workmem[57,114) and the message
   *  into workmem[57,171). */
  method CalculateK(prim: Primitives, workmem: array<byte>, pntR: array<byte>, message: seq<byte>, prehash: bool)
    returns (status: Status, ghost call: Ed448Call)
    requires workmem.Length == WorkmemSize && pntR.Length == DigestSize
    modifies workmem
    ensures var d := prim.shake256(KHashInputs(pntR[..57], old(workmem[57..114]), message, prehash));
            status == d.StatusOf() && call == HashCall(KHashInputs(pntR[..57], old(workmem[57..114]), message, prehash), status)
            && workmem[..] == if d.Done? then Put(old(workmem[..]), 57, d.value) else old(workmem[..])
  {
    var inputs := KHashInputs(pntR[..57], workmem[57..114], message, prehash);
    var d := prim.shake256(inputs);
    status := d.StatusOf();
    call := HashCall(inputs, status);
    if d.Done? {
      CopyInto(workmem, 57, d.value);
    }
  }

  /** ed448_sign_internal: workmem and pnt_r start with whatever the stack held (wm0, r0); the
   *  run is SignSpec, and the signature buffer receives pnt_r only on success. */
  method SignInternal(prim: Primitives, privKey: Bytes57, signature: array<byte>, message: seq<byte>, prehash: bool)
    returns (status: Status, ghost calls: seq<Ed448Call>, ghost wm0: seq<byte>, ghost r0: seq<byte>, ghost wm: seq<byte>)
    requires signature.Length == DigestSize
    modifies signature
    ensures |wm0| == WorkmemSize && |r0| == DigestSize
    ensures var run := SignSpec(prim, privKey, message, prehash, wm0, r0);
            status == run.status && calls == run.calls && wm == run.wm
            && signature[..] == if status.Ok? then run.pntR else old(signature[..])
  {
    var workmem := new byte[WorkmemSize];
    var pntR := new byte[DigestSize];
    wm0, r0 := workmem[..], pntR[..];
    // the key digest into [0,114)
    var h := prim.shake256([privKey]);
    status := h.StatusOf();
    calls := [HashCall([privKey], status)];
    if h.Fail? {
      wm := workmem[..];
      return;
    }
    CopyInto(workmem, 0, h.value);
    ghost var rest;
    status, rest := SignAfterDigest(prim, workmem, pntR, signature, message, prehash);
    calls := calls + rest;
    wm := workmem[..];
  }

  /** The part of ed448_sign_internal after the key digest, proved against SignFromDigest. */
  method SignAfterDigest(prim: Primitives, workmem: array<byte>, pntR: array<byte>, signature: array<byte>, message: seq<byte>, prehash: bool)
    returns (status: Status, ghost calls: seq<Ed448Call>)
    requires workmem.Length == WorkmemSize && pntR.Length == DigestSize && signature.Length == DigestSize
    requires workmem != pntR && workmem != signature && pntR != signature
    modifies workmem, pntR, signature
    ensures var run := SignFromDigest(prim, message, prehash, old(workmem[..]), old(pntR[..]));
            status == run.status && calls == run.calls && workmem[..] == run.wm
            && signature[..] == if status.Ok? then run.pntR else old(signature[..])
  {
    ghost var wm1 := workmem[..];
    ghost var sig0 := signature[..];
    ghost var pr0 := pntR[..];
    ghost var spec := SignFromDigest(prim, message, prehash, wm1, pr0);
    ghost var r := prim.shake256(RHashInputs(wm1[57..114], message, prehash));
    // r into [171,285)
    ghost var c2;
    status, c2 := CalculateR(prim, workmem, message, prehash);
    calls := [c2];
    if status != Ok {
      assert spec == SignRun(status, [c2], wm1, pr0);
      return;
    }
    ghost var wm2 := workmem[..];
    assert wm2 == Put(wm1, 171, r.value);
    // R = [r]B into pnt_r[0,57)
    var pointR := prim.ptmult(workmem[171..285]);
    status := pointR.StatusOf();
    calls := calls + [PtMultCall(wm2[171..285], status)];
    if pointR.Fail? {
      assert spec == SignRun(status, calls, wm2, pr0);
      return;
    }
    CopyInto(pntR, 0, pointR.value);
    // s decoded in place, [57,114) cleared
    DecodeScalarInPlace(prim, workmem);
    calls := calls + [DecodeCall(wm2[..57])];
    assert workmem[..] == ScalarMem(wm1, r.value, prim.decodeScalar(wm2[..57]));
    assert pntR[..] == Put(pr0, 0, pointR.value);
    assert signature[..] == sig0;
    ghost var rest;
    status, rest := SignAfterScalar(prim, workmem, pntR, signature, message, prehash);
    calls := calls + rest;
  }

  /** decode_scalar_448 on workmem[0,57) written back in place, then [57,114) cleared. */
  method DecodeScalarInPlace(prim: Primitives, workmem: array<byte>)
    requires workmem.Length == WorkmemSize
    modifies workmem
    ensures workmem[..] == Put(Put(old(workmem[..]), 0, prim.decodeScalar(old(workmem[..57]))), 57, Zeros(57))
  {
    var s := prim.decodeScalar(workmem[..57]);
    CopyInto(workmem, 0, s);
    CopyInto(workmem, 57, Zeros(57));
  }

  /** The part of ed448_sign_internal after the scalar, proved against SignFromScalar. */
  method SignAfterScalar(prim: Primitives, workmem: array<byte>, pntR: array<byte>, signature: array<byte>, message: seq<byte>, prehash: bool)
    returns (status: Status, ghost calls: seq<Ed448Call>)
    requires workmem.Length == WorkmemSize && pntR.Length == DigestSize && signature.Length == DigestSize
    requires workmem != pntR && workmem != signature && pntR != signature
    modifies workmem, pntR, signature
    ensures var run := SignFromScalar(prim, message, prehash, old(workmem[..]), old(pntR[..]));
            status == run.status && calls == run.calls && workmem[..] == run.wm
            && signature[..] == if status.Ok? then run.pntR else old(signature[..])
  {
    ghost var wm3 := workmem[..];
    // A = [s]B into [57,114)
    var pubA := prim.ptmult(workmem[..114]);
    status := pubA.StatusOf();
    calls := [PtMultCall(wm3[..114], status)];
    if pubA.Fail? {
      return;
    }
    CopyInto(workmem, 57, pubA.value);
    // k into [57,171)
    ghost var c6;
    status, c6 := CalculateK(prim, workmem, pntR, message, prehash);
    calls := calls + [c6];
    if status != Ok {
      return;
    }
    ghost var wm5 := workmem[..];
    // S = sx_ed448_sign(k, r, s) into pnt_r[57,114)
    var sig := prim.scalarSign(workmem[57..171], workmem[171..285], workmem[..57]);
    status := sig.StatusOf();
    calls := calls + [SignCall(wm5[57..171], wm5[171..285], wm5[..57], status)];
    if sig.Fail? {
      return;
    }
    CopyInto(pntR, 57, sig.value);
    CopyInto(signature, 0, pntR[..]);
    CopyInto(workmem, 0, Zeros(WorkmemSize));
  }

  /** cracen_ed448_sign: signing without prehash. */
  method Sign(prim: Primitives, privKey: Bytes57, signature: array<byte>, message: seq<byte>)
    returns (status: Status, ghost calls: seq<Ed448Call>, ghost wm0: seq<byte>, ghost r0: seq<byte>, ghost wm: seq<byte>)
    requires signature.Length == DigestSize
    modifies signature
    ensures |wm0| == WorkmemSize && |r0| == DigestSize
    ensures var run := SignSpec(prim, privKey, message, false, wm0, r0);
            status == run.status && calls == run.calls && wm == run.wm
            && signature[..] == if status.Ok? then run.pntR else old(signature[..])
  {
    status, calls, wm0, r0, wm := SignInternal(prim, privKey, signature, message, false);
  }

  /** cracen_ed448ph_sign: with is_message the message is first hashed to 114 bytes and that
   *  digest signed; otherwise the caller's bytes are signed as the pre-hash. Both with prehash. */
  method PhSign(prim: Primitives, privKey: Bytes57, signature: array<byte>, message: seq<byte>, isMessage: bool)
    returns (status: Status, ghost calls: seq<Ed448Call>, ghost wm0: seq<byte>, ghost r0: seq<byte>, ghost wm: seq<byte>)
    requires signature.Length == DigestSize
    modifies signature
    ensures |wm0| == WorkmemSize && |r0| == DigestSize
    ensures isMessage && prim.shake256([message]).Fail? ==>
              status == prim.shake256([message]).StatusOf() && calls == [HashCall([message], status)]
              && signature[..] == old(signature[..])
    ensures isMessage && prim.shake256([message]).Done? ==>
              var run := SignSpec(prim, privKey, prim.shake256([message]).value, true, wm0, r0);
              status == run.status && calls == [HashCall([message], Ok)] + run.calls
              && signature[..] == if status.Ok? then run.pntR else old(signature[..])
    ensures !isMessage ==>
              var run := SignSpec(prim, privKey, message, true, wm0, r0);
              status == run.status && calls == run.calls
              && signature[..] == if status.Ok? then run.pntR else old(signature[..])
  {
    if isMessage {
      var d := prim.shake256([message]);
      if d.Fail? {
        status := d.StatusOf();
        calls := [HashCall([message], status)];
        wm0, r0, wm := Zeros(WorkmemSize), Zeros(DigestSize), Zeros(WorkmemSize);
        return;
      }
      ghost var inner;
      status, inner, wm0, r0, wm := SignInternal(prim, privKey, signature, d.value, true);
      calls := [HashCall([message], Ok)] + inner;
    } else {
      status, calls, wm0, r0, wm := SignInternal(prim, privKey, signature, message, true);
    }
  }

  // ---------------------------------------------------------------------------------------
  // Verification

  /** What ed448_verify_internal returns, and the calls it made. */
  datatype VerifyRun = VerifyRun(status: Status, calls: seq<Ed448Call>)

  /** ed448_verify_internal: hash (dom4,) the R half of the signature, the public key and the
   *  message into a digest, then sx_ed448_verify(digest, pub, S half, R half). */
  function VerifyInternal(prim: Primitives, pub: Bytes57, message: seq<byte>, signature: Bytes114, prehash: bool): (v: VerifyRun)
    ensures 1 <= |v.calls| <= 2 && v.calls[0].HashCall?
            && v.calls[0].inputs == KHashInputs(signature[..57], pub, message, prehash)
    ensures |v.calls| == 1 <==> prim.shake256(v.calls[0].inputs).Fail?
    ensures |v.calls| == 1 ==> v.status == v.calls[0].status && !v.status.Ok?
    ensures |v.calls| == 2 ==>
              v.calls[0].status == Ok
              && v.calls[1] == VerifyCall(prim.shake256(v.calls[0].inputs).value, pub, signature[57..], signature[..57], v.status)
  {
    var inputs := KHashInputs(signature[..57], pub, message, prehash);
    var d := prim.shake256(inputs);
    if d.Fail? then VerifyRun(d.StatusOf(), [HashCall(inputs, d.StatusOf())])
    else
      var st := prim.verify(d.value, pub, signature[57..], signature[..57]);
      VerifyRun(st, [HashCall(inputs, Ok), VerifyCall(d.value, pub, signature[57..], signature[..57], st)])
  }

  /** cracen_ed448_verify: verification without prehash. */
  function Verify(prim: Primitives, pub: Bytes57, message: seq<byte>, signature: Bytes114): (v: VerifyRun)
    ensures v == VerifyInternal(prim, pub, message, signature, false)
  {
    VerifyInternal(prim, pub, message, signature, false)
  }

  /** cracen_ed448ph_verify: with is_message the message is hashed to 114 bytes first; both ways
   *  verification runs with prehash. */
  function PhVerify(prim: Primitives, pub: Bytes57, message: seq<byte>, signature: Bytes114, isMessage: bool): (v: VerifyRun)
    ensures isMessage && prim.shake256([message]).Fail? ==>
              v == VerifyRun(prim.shake256([message]).StatusOf(), [HashCall([message], prim.shake256([message]).StatusOf())])
    ensures isMessage && prim.shake256([message]).Done? ==>
              v.status == VerifyInternal(prim, pub, prim.shake256([message]).value, signature, true).status
              && v.calls == [HashCall([message], Ok)] + VerifyInternal(prim, pub, prim.shake256([message]).value, signature, true).calls
    ensures !isMessage ==> v == VerifyInternal(prim, pub, message, signature, true)
  {
    if isMessage then
      var d := prim.shake256([message]);
      if d.Fail? then VerifyRun(d.StatusOf(), [HashCall([message], d.StatusOf())])
      else
        var inner := VerifyInternal(prim, pub, d.value, signature, true);
        VerifyRun(inner.status, [HashCall([message], Ok)] + inner.calls)
    else VerifyInternal(prim, pub, message, signature, true)
  }

  // ---------------------------------------------------------------------------------------
  // Public-key derivation

  /** What cracen_ed448_create_pubkey produces: status, calls, final digest buffer, public key. */
  datatype PubkeyRun = PubkeyRun(status: Status, calls: seq<Ed448Call>, digest: seq<byte>, pub: seq<byte>)

  /** cracen_ed448_create_pubkey on the 114-byte digest buffer (initially d0): key digest, s
   *  decoded in place, [57,114) cleared, A = [s]B into [57,114), A copied out, digest zeroed. */
  function PubkeySpec(prim: Primitives, key: Bytes57, d0: seq<byte>): (run: PubkeyRun)
    requires |d0| == DigestSize
    ensures |run.digest| == DigestSize
    ensures run.status.Ok? ==> |run.pub| == Ed448Size
  {
    var h := prim.shake256([key]);
    var c1 := HashCall([key], h.StatusOf());
    if h.Fail? then PubkeyRun(h.StatusOf(), [c1], d0, []) else
    var s := prim.decodeScalar(h.value[..57]);
    var d2 := Put(Put(h.value, 0, s), 57, Zeros(57));
    var pubA := prim.ptmult(d2);
    var c3 := PtMultCall(d2, pubA.StatusOf());
    if pubA.Fail? then PubkeyRun(pubA.StatusOf(), [c1, DecodeCall(h.value[..57]), c3], d2, []) else
    PubkeyRun(Ok, [c1, DecodeCall(h.value[..57]), c3], Zeros(DigestSize), pubA.value)
  }

  /** The public key is [s]B from the decoded scalar followed by 57 zero bytes (the same input as
   *  the A of signing); on success the digest buffer is all zero. */
  lemma PubkeyInput(prim: Primitives, key: Bytes57, d0: seq<byte>)
    requires |d0| == DigestSize
    ensures var run := PubkeySpec(prim, key, d0);
            |run.calls| == 3 ==>
              KeyDigest(prim, key).Done?
              && run.calls[2].digest == ScalarDigest(prim, KeyDigest(prim, key).value)
              && (run.status.Ok? ==> run.digest == Zeros(DigestSize) && run.pub == prim.ptmult(run.calls[2].digest).value)
              && (!run.status.Ok? ==> run.digest == ScalarDigest(prim, KeyDigest(prim, key).value))
    ensures var run := PubkeySpec(prim, key, d0);
            |run.calls| == 1 ==> !run.status.Ok? && !KeyDigest(prim, key).Done? && run.digest == d0
    ensures var run := PubkeySpec(prim, key, d0);
            run.status.Ok? <==> |run.calls| == 3 && run.calls[2].status == Ok
  {
    var h := prim.shake256([key]);
    if h.Done? {
      var s := prim.decodeScalar(h.value[..57]);
      assert Put(Put(h.value, 0, s), 57, Zeros(57)) == s + Zeros(57);
    }
  }

  /** cracen_ed448_create_pubkey: the public key buffer receives A only on success. */
  method CreatePubkey(prim: Primitives, privKey: Bytes57, pubKey: array<byte>)
    returns (status: Status, ghost calls: seq<Ed448Call>, ghost d0: seq<byte>, ghost digestAfter: seq<byte>)
    requires pubKey.Length == Ed448Size
    modifies pubKey
    ensures |d0| == DigestSize
    ensures var run := PubkeySpec(prim, privKey, d0);
            status == run.status && calls == run.calls && digestAfter == run.digest
            && pubKey[..] == if status.Ok? then run.pub else old(pubKey[..])
  {
    var digest := new byte[DigestSize];
    d0 := digest[..];
    var h := prim.shake256([privKey]);
    status := h.StatusOf();
    calls := [HashCall([privKey], status)];
    if h.Fail? {
      digestAfter := digest[..];
      return;
    }
    CopyInto(digest, 0, h.value);
    assert digest[..] == h.value;
    var s := prim.decodeScalar(digest[..57]);
    calls := calls + [DecodeCall(h.value[..57])];
    CopyInto(digest, 0, s);
    CopyInto(digest, 57, Zeros(57));
    ghost var d2 := digest[..];
    var pubA := prim.ptmult(digest[..]);
    status := pubA.StatusOf();
    calls := calls + [PtMultCall(d2, status)];
    if pubA.Fail? {
      digestAfter := digest[..];
      return;
    }
    CopyInto(digest, 57, pubA.value);
    CopyInto(pubKey, 0, digest[57..114]);
    CopyInto(digest, 0, Zeros(DigestSize));
    digestAfter := digest[..];
  }

  // ---------------------------------------------------------------------------------------
  // Sign and verify agree on what the engine sees

  /** The A that signing derives is the public key that create_pubkey derives from the same key. */
  lemma SignUsesPublicKey(prim: Primitives, key: Bytes57, message: seq<byte>, prehash: bool, wm0: seq<byte>, r0: seq<byte>, d0: seq<byte>)
    requires |wm0| == WorkmemSize && |r0| == DigestSize && |d0| == DigestSize
    requires |SignSpec(prim, key, message, prehash, wm0, r0).calls| >= 6 && PubkeySpec(prim, key, d0).status.Ok?
    ensures SignSpec(prim, key, message, prehash, wm0, r0).calls[4].PtMultCall?
            && |SignSpec(prim, key, message, prehash, wm0, r0).calls[4].digest| == DigestSize
            && prim.ptmult(SignSpec(prim, key, message, prehash, wm0, r0).calls[4].digest).Done?
            && prim.ptmult(SignSpec(prim, key, message, prehash, wm0, r0).calls[4].digest).value == PubkeySpec(prim, key, d0).pub
  {
    SignPtMultInput(prim, key, message, prehash, wm0, r0);
    PubkeyInput(prim, key, d0);
    SignEarlyReturn(prim, key, message, prehash, wm0, r0);
  }

  /** For a signature produced with some key and the public key derived from that key, with the
   *  same message and prehash flag: verification hashes exactly sign's k-input list, and when that
   *  hash succeeds it hands the engine sign's k, the public key, and the S and R that signing
   *  produced. */
  lemma VerifySeesSignValues(prim: Primitives, key: Bytes57, message: seq<byte>, prehash: bool, wm0: seq<byte>, r0: seq<byte>, d0: seq<byte>)
    requires |wm0| == WorkmemSize && |r0| == DigestSize && |d0| == DigestSize
    requires SignSpec(prim, key, message, prehash, wm0, r0).status.Ok? && PubkeySpec(prim, key, d0).status.Ok?
    ensures var run := SignSpec(prim, key, message, prehash, wm0, r0);
            var pub: Bytes57 := PubkeySpec(prim, key, d0).pub;
            var v := VerifyInternal(prim, pub, message, run.pntR, prehash);
            SuccessShape(run) && v.calls[0].inputs == run.calls[5].inputs
            && (|v.calls| == 2 ==>
                  v.calls[1].digest == run.calls[6].k && v.calls[1].pub == pub
                  && prim.ptmult(run.calls[2].digest).Done?
                  && prim.scalarSign(run.calls[6].k, run.calls[6].r, run.calls[6].s).Done?
                  && v.calls[1].rPart == prim.ptmult(run.calls[2].digest).value
                  && v.calls[1].sPart == prim.scalarSign(run.calls[6].k, run.calls[6].r, run.calls[6].s).value)
  {
    var run := SignSpec(prim, key, message, prehash, wm0, r0);
    SignEarlyReturn(prim, key, message, prehash, wm0, r0);
    SignScrubbing(prim, key, message, prehash, wm0, r0);
    SignKInputs(prim, key, message, prehash, wm0, r0);
    SignFinalArguments(prim, key, message, prehash, wm0, r0);
    SignUsesPublicKey(prim, key, message, prehash, wm0, r0, d0);
    var pointR := prim.ptmult(run.calls[2].digest).value;
    var sPart := prim.scalarSign(run.calls[6].k, run.calls[6].r, run.calls[6].s).value;
    assert run.pntR[..57] == pointR && run.pntR[57..] == sPart;
  }
}
