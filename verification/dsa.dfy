/** DSA signature generation and verification requests (silexpk/sxops/dsa.h) and the FIPS 186
 *  arithmetic their doc-comments spell out. */
module Dsa {
  import opened StatusCodes
  import opened Bytes
  import opened ModMath
  import opened PkEngine

  // ---------------------------------------------------------------------------------------
  // Reference arithmetic

  datatype DsaSignature = DsaSignature(r: nat, s: nat)

  /** k * s == h + x * r modulo q whenever s == k^-1 * (h + x * r) modulo q. */
  lemma SignEquation(k: int, kinv: int, e: int, s: int, q: int)
    requires q > 0 && (k * kinv) % q == 1 % q && s == (kinv * e) % q
    ensures (k * s) % q == e % q
  {
    ModMod(kinv * e, q);
    CongMul(k, k, s, kinv * e, q);
    assert k * (kinv * e) == (k * kinv) * e;
    CongMul(k * kinv, 1, e, e, q);
  }

  /** A unit times e is zero modulo q exactly when e is. */
  lemma UnitTimesZero(k: int, kinv: int, e: int, s: int, q: int)
    requires q > 0 && (k * kinv) % q == 1 % q && s == (kinv * e) % q
    ensures s == 0 <==> e % q == 0
  {
    DivModUnique(0, q, 0, 0);
    if s == 0 {
      assert (k * s) % q == e % q by { SignEquation(k, kinv, e, s, q); }
      assert k * s == 0;
    }
    if e % q == 0 {
      var kr := kinv % q;
      assert (kinv * e) % q == (kr * 0) % q by { MulMod(kinv, e, q); }
    }
  }

  /** Signature generation as listed in the doc-comment of sx_dsa_sign: r = (g^k mod p) mod q,
   *  rejected when zero; s = k^-1 * (h + x*r) mod q, NOT_INVERTIBLE when k has no inverse,
   *  rejected when zero. */
  function DsaSignRef(p: nat, q: nat, g: nat, k: nat, x: nat, h: nat): (r: Outcome<DsaSignature>)
    requires p > 0 && q > 0
    ensures r.Done? ==> 0 < r.value.r < q && 0 < r.value.s < q
    ensures r.Done? ==> r.value.r == ModPow(g, k, p) % q
    ensures r.Done? ==> (k * r.value.s) % q == (h + x * r.value.r) % q
    ensures ModPow(g, k, p) % q == 0 ==> r == Fail(InvalidSignature)
    ensures r.Fail? ==> r.code == InvalidSignature || (r.code == NotInvertible && Gcd(k % q, q) != 1)
    ensures ModPow(g, k, p) % q != 0 && Gcd(k % q, q) != 1 ==> r == Fail(NotInvertible)
    ensures r.Done? <==>
      ModPow(g, k, p) % q != 0 && Gcd(k % q, q) == 1 && (h + x * (ModPow(g, k, p) % q)) % q != 0
  {
    var rr := ModPow(g, k, p) % q;
    if rr == 0 then Fail(InvalidSignature)
    else
      match Inverse(k, q)
      case None => Fail(NotInvertible)
      case Some(kinv) =>
        var s := (kinv * (h + x * rr)) % q;
        UnitTimesZero(k, kinv, h + x * rr, s, q);
        if s == 0 then Fail(InvalidSignature)
        else
          SignEquation(k, kinv, h + x * rr, s, q);
          Done(DsaSignature(rr, s))
  }

  /** With a prime q and k not a multiple of q, signing never reports NOT_INVERTIBLE. */
  lemma SignInvertibleModPrime(p: nat, q: nat, g: nat, k: nat, x: nat, h: nat)
    requires p > 0 && IsPrime(q) && k % q != 0
    ensures DsaSignRef(p, q, g, k, x, h) != Fail(NotInvertible)
  {
    InverseModPrime(k, q);
  }

  /** The domain check of the doc-comment of sx_dsa_ver: p of 1024 or 2048 bits, q of 160, 224 or
   *  256 bits, and 1 < g < p. */
  predicate DsaDomainValid(p: nat, q: nat, g: nat)
    ensures DsaDomainValid(p, q, g) ==> p > 2 && q > 1 && 0 < g < p
  {
    (Pow(2, 1023) < p < Pow(2, 1024) || Pow(2, 2047) < p < Pow(2, 2048))
    && (Pow(2, 159) < q < Pow(2, 160) || Pow(2, 223) < q < Pow(2, 224) || Pow(2, 255) < q < Pow(2, 256))
    && 1 < g < p
  }

  /** The computation of sx_dsa_ver on a valid domain: NOT_INVERTIBLE when s has no inverse
   *  modulo q, otherwise v = (g^u1 * y^u2 mod p) mod q compared with r. */
  function VerifyCore(p: nat, q: nat, g: nat, y: nat, h: nat, r: nat, s: nat): (v: Status)
    requires p > 0 && q > 0
    ensures v.Ok? ==> Gcd(s % q, q) == 1
    ensures v.Error? ==> v.code == NotInvertible || v.code == InvalidSignature
    ensures Gcd(s % q, q) != 1 ==> v == Error(NotInvertible)
  {
    match Inverse(s, q)
    case None => Error(NotInvertible)
    case Some(w) =>
      var u1 := (h * w) % q;
      var u2 := (r * w) % q;
      var big := (ModPow(g, u1, p) * ModPow(y, u2, p)) % p;
      if big % q == r then Ok else Error(InvalidSignature)
  }

  /** Signature verification as listed in the doc-comment of sx_dsa_ver: OUT_OF_RANGE for a
   *  domain outside the listed sizes, otherwise VerifyCore. */
  function DsaVerifyRef(p: nat, q: nat, g: nat, y: nat, h: nat, r: nat, s: nat): (v: Status)
    ensures !DsaDomainValid(p, q, g) ==> v == Error(OutOfRange)
    ensures v.Ok? ==> DsaDomainValid(p, q, g) && Gcd(s % q, q) == 1
    ensures v.Error? ==> v.code in {OutOfRange, NotInvertible, InvalidSignature}
  {
    if !DsaDomainValid(p, q, g) then Error(OutOfRange)
    else
      VerifyCore(p, q, g, y, h, r, s)
  }

  /** An inverse modulo q is unique among the residues. */
  lemma InverseUnique(s: int, w: int, w': int, q: int)
    requires q > 0 && 0 <= w < q && 0 <= w' < q && (s * w) % q == 1 % q && (s * w') % q == 1 % q
    ensures w == w'
  {
    var sww := (s * w) * w';
    assert sww % q == w' % q by { CongMul(s * w, 1, w', w', q); }
    assert sww % q == w % q by {
      assert sww == (s * w') * w;
      CongMul(s * w', 1, w, w, q);
    }
    assert w % q == w by { DivModUnique(w, q, 0, w); }
    assert w' % q == w' by { DivModUnique(w', q, 0, w'); }
  }

  /** The acceptance rule of sx_dsa_ver: with w any inverse of s modulo q, the signature is
   *  accepted exactly when (g^(h*w mod q) * y^(r*w mod q) mod p) mod q equals r. */
  lemma VerifyAccepts(p: nat, q: nat, g: nat, y: nat, h: nat, r: nat, s: nat, w: nat)
    requires p > 0 && q > 0 && w < q && (s * w) % q == 1 % q
    ensures VerifyCore(p, q, g, y, h, r, s) == Ok <==>
      (ModPow(g, (h * w) % q, p) * ModPow(y, (r * w) % q, p)) % p % q == r
    ensures VerifyCore(p, q, g, y, h, r, s) != Ok ==> VerifyCore(p, q, g, y, h, r, s) == Error(InvalidSignature)
  {
    InverseNeedsCoprime(s, q, w);
    InverseUnique(s, Inverse(s, q).value, w, q);
  }

  /** The same rule for the full verification on a domain of the listed sizes. */
  lemma DsaVerifyAccepts(p: nat, q: nat, g: nat, y: nat, h: nat, r: nat, s: nat, w: nat)
    requires DsaDomainValid(p, q, g) && w < q && (s * w) % q == 1 % q
    ensures DsaVerifyRef(p, q, g, y, h, r, s) == Ok <==>
      (ModPow(g, (h * w) % q, p) * ModPow(y, (r * w) % q, p)) % p % q == r
  {
    VerifyAccepts(p, q, g, y, h, r, s, w);
  }

  /** The exponent u1 + x*u2 of the verification is congruent to k modulo q. */
  lemma VerifyExponent(k: int, kinv: int, h: int, x: int, r: int, s: int, w: int, q: int)
    requires q > 0 && (k * kinv) % q == 1 % q && s == (kinv * (h + x * r)) % q && (s * w) % q == 1 % q
    ensures ((h * w) % q + x * ((r * w) % q)) % q == k % q
  {
    var e := h + x * r;
    SignEquation(k, kinv, e, s, q);
    // e*w == s*k*w == k
    CongMul(e, s * k, w, w, q);
    assert (s * k) * w == (s * w) * k;
    CongMul(s * w, 1, k, k, q);
    // the residues u1 and u2 stand for h*w and r*w
    ModMod(h * w, q);
    ModMod(r * w, q);
    CongMul(x, x, (r * w) % q, r * w, q);
    CongAdd((h * w) % q, h * w, x * ((r * w) % q), x * (r * w), q);
    assert h * w + x * (r * w) == e * w;
  }

  /** g^u1 * (g^x)^u2 == g^k modulo p when g has order dividing q and u1 + x*u2 == k modulo q. */
  lemma VerifyPower(p: nat, q: nat, g: nat, x: nat, u1: nat, u2: nat, k: nat)
    requires p > 1 && q > 0 && Pow(g, q) % p == 1 && (u1 + x * u2) % q == k % q
    ensures (ModPow(g, u1, p) * ModPow(ModPow(g, x, p), u2, p)) % p == ModPow(g, k, p)
  {
    MulNonneg(x, u2);
    var xu: nat := x * u2;
    PowMod(Pow(g, x), u2, p);
    PowMul(g, x, u2);
    MulMod(Pow(g, u1), Pow(g, xu), p);
    PowAdd(g, u1, xu);
    PowReduceExponent(g, u1 + xu, q, p);
    PowReduceExponent(g, k, q, p);
  }

  /** The arithmetic half of the round trip, on any p > 1 and prime q. */
  lemma SignThenVerifyCore(p: nat, q: nat, g: nat, x: nat, k: nat, h: nat)
    requires p > 1 && IsPrime(q) && Pow(g, q) % p == 1 && DsaSignRef(p, q, g, k, x, h).Done?
    ensures VerifyCore(p, q, g, ModPow(g, x, p), h, DsaSignRef(p, q, g, k, x, h).value.r,
                       DsaSignRef(p, q, g, k, x, h).value.s) == Ok
  {
    var sig := DsaSignRef(p, q, g, k, x, h).value;
    var kinv := Inverse(k, q).value;
    assert sig.s == (kinv * (h + x * sig.r)) % q;
    DivModUnique(sig.s, q, 0, sig.s);
    InverseModPrime(sig.s, q);
    var w := Inverse(sig.s, q).value;
    VerifyExponent(k, kinv, h, x, sig.r, sig.s, w, q);
    var u1, u2 := (h * w) % q, (sig.r * w) % q;
    VerifyPower(p, q, g, x, u1, u2, k);
  }

  /** Round trip: for a valid domain with a prime q, a generator g whose order divides q and the
   *  public key y = g^x mod p, every signature DsaSignRef produces with the private key x
   *  verifies. */
  lemma DsaSignThenVerify(p: nat, q: nat, g: nat, x: nat, k: nat, h: nat)
    requires DsaDomainValid(p, q, g) && IsPrime(q) && Pow(g, q) % p == 1
    requires p > 1 && DsaSignRef(p, q, g, k, x, h).Done?
    ensures DsaVerifyRef(p, q, g, ModPow(g, x, p), h, DsaSignRef(p, q, g, k, x, h).value.r,
                         DsaSignRef(p, q, g, k, x, h).value.s) == Ok
  {
    SignThenVerifyCore(p, q, g, x, k, h);
  }

  // ---------------------------------------------------------------------------------------
  // The requests

  /** sx_dsa_sign: p, q, g, k, the private key and h go to their slots; r and s receive outputs 0
   *  and 1 after a successful wait. */
  method DsaSign(req: PkRequest, store: OperandStore, p: seq<byte>, q: seq<byte>, g: seq<byte>, k: seq<byte>,
                 privkey: seq<byte>, h: seq<byte>, r: OpRef, s: OpRef)
    returns (status: Status, ghost list: Status, ghost wait: Status)
    modifies req, store
    ensures req.calls == old(req.calls) + Protocol(Command.DsaSign, ListGfpSlots([|p|, |q|, |g|, |k|, |privkey|, |h|], list),
                                                   WriteCalls([P, Q, G, K, PrivKey, H]), wait, true)
    ensures status == FirstFailure(list, wait)
    ensures req.cmd == Command.DsaSign
    ensures list.Ok? ==> req.slots == UpdateAll(map[], [P, Q, G, K, PrivKey, H], [p, q, g, k, privkey, h])
    ensures status.Ok? ==> |req.outputs| == 2 && store.ops == UpdateAll(old(store.ops), [r, s], req.outputs)
    ensures !status.Ok? ==> store.ops == old(store.ops)
  {
    var outs;
    status, outs, list, wait := GfpRequest(req, Command.DsaSign, [|p|, |q|, |g|, |k|, |privkey|, |h|],
                                           [P, Q, G, K, PrivKey, H], [p, q, g, k, privkey, h], true);
    if status == Ok {
      StoreOutputs(store, [r, s], outs);
    }
  }

  /** The trace of sx_dsa_ver: the listing status is not checked, so the operands are written and
   *  the engine started whatever it was. */
  function VerTrace(sizes: seq<nat>, list: Status, wait: Status): (t: seq<PkCall>)
    ensures list.Ok? ==> t == Protocol(Command.DsaVer, ListGfpSlots(sizes, list), WriteCalls([P, Q, G, PubKey, H, R, S]), wait, false)
    ensures !list.Ok? ==> t == Protocol(Command.DsaVer, ListGfpSlots(sizes, list), WriteCalls([P, Q, G, PubKey, H, R, S]), wait, false)
                             + WriteCalls([P, Q, G, PubKey, H, R, S]) + [RunCall, WaitCall(wait)]
  {
    [SetCmdCall(Command.DsaVer), ListGfpSlots(sizes, list)] + WriteCalls([P, Q, G, PubKey, H, R, S]) + [RunCall, WaitCall(wait)]
  }

  /** sx_dsa_ver follows the request lifecycle exactly when the listing succeeds; after a refused
   *  listing its slot writes come in the wrong state. */
  lemma VerTraceConforms(s: Lifecycle, sizes: seq<nat>, list: Status, wait: Status)
    requires s != Running
    ensures Conforms(s, VerTrace(sizes, list, wait)) <==> list.Ok?
  {
    var l := ListGfpSlots(sizes, list);
    var writes := WriteCalls([P, Q, G, PubKey, H, R, S]);
    var head := [SetCmdCall(Command.DsaVer), l];
    var rest := writes + [RunCall, WaitCall(wait)];
    assert VerTrace(sizes, list, wait) == head + rest;
    HeadConforms(s, Command.DsaVer, l);
    ConformsAppend(s, head, rest);
    if list.Ok? {
      ProtocolConforms(s, Command.DsaVer, l, writes, wait, false);
      ProtocolRan(Command.DsaVer, l, writes, wait, false);
    } else {
      assert rest[0] == Write(P);
      assert !Admissible(Commanded, Write(P));
    }
  }

  /** sx_dsa_ver: p, q, g, the public key, h, r and s go to their slots even when the listing
   *  failed; the status of the wait is returned and no output is read. */
  method DsaVer(req: PkRequest, p: seq<byte>, q: seq<byte>, g: seq<byte>, pubkey: seq<byte>,
                h: seq<byte>, r: seq<byte>, s: seq<byte>)
    returns (status: Status, ghost list: Status)
    modifies req
    ensures req.calls == old(req.calls) + VerTrace([|p|, |q|, |g|, |pubkey|, |h|, |r|, |s|], list, status)
    ensures req.cmd == Command.DsaVer
    ensures req.slots == UpdateAll(map[], [P, Q, G, PubKey, H, R, S], [p, q, g, pubkey, h, r, s])
  {
    req.SetCmd(Command.DsaVer);
    list := req.ListGfpInslots([|p|, |q|, |g|, |pubkey|, |h|, |r|, |s|]);
    WriteSlots(req, [P, Q, G, PubKey, H, R, S], [p, q, g, pubkey, h, r, s]);
    status := RunAndWait(req);
  }
}
