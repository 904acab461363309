/** RSA and GF(p) requests (silexpk/sxops/rsa.h) and the arithmetic their doc-comments promise. */
module Rsa {
  import opened StatusCodes
  import opened Bytes
  import opened ModMath
  import opened PkEngine

  // ---------------------------------------------------------------------------------------
  // Reference arithmetic

  predicate SingleOperandCommand(cmd: Command)
  {
    cmd == OddModReduce || cmd == EvenModReduce || cmd == OddModInv || cmd == EvenModInv
  }

  predicate TwoOperandCommand(cmd: Command)
  {
    cmd == ModAdd || cmd == ModSub || cmd == OddModMult || cmd == OddModDiv
  }

  /** b mod modulo, or 1 / b mod modulo; NOT_INVERTIBLE when b has no inverse. */
  function ModSingleRef(cmd: Command, modulo: nat, b: nat): (r: Outcome<nat>)
    requires SingleOperandCommand(cmd) && modulo > 0
    ensures r.Done? ==> r.value < modulo
    ensures (cmd == OddModReduce || cmd == EvenModReduce) ==> r.Done? && (b - r.value) % modulo == 0
    ensures (cmd == OddModInv || cmd == EvenModInv) ==>
              (r.Done? <==> Gcd(b % modulo, modulo) == 1)
              && (r.Done? ==> (b * r.value) % modulo == 1 % modulo)
              && (r.Fail? ==> r.code == NotInvertible)
  {
    if cmd == OddModReduce || cmd == EvenModReduce then
      CongruentIff(b, b % modulo, modulo);
      ModMod(b, modulo);
      Done(b % modulo)
    else
      match Inverse(b, modulo)
      case None => Fail(NotInvertible)
      case Some(w) => Done(w)
  }

  /** a + b, a - b, a * b or a / b modulo `modulo`, as a residue in [0, modulo). */
  function ModPrimitiveRef(cmd: Command, modulo: nat, a: int, b: int): (r: Outcome<nat>)
    requires TwoOperandCommand(cmd) && modulo > 0
    ensures r.Done? ==> r.value < modulo
    ensures r.Fail? <==> cmd == OddModDiv && Gcd(b % modulo, modulo) != 1
    ensures r.Fail? ==> r.code == NotInvertible
  {
    match cmd
    case ModAdd => Done((a + b) % modulo)
    case ModSub => Done((a - b) % modulo)
    case OddModMult => Done((a * b) % modulo)
    case OddModDiv =>
      match Inverse(b, modulo)
      case None => Fail(NotInvertible)
      case Some(w) => Done((a * w) % modulo)
  }

  /** Subtraction is undone by addition. */
  lemma SubThenAdd(m: nat, a: int, b: int)
    requires m > 0
    ensures ModPrimitiveRef(ModAdd, m, ModPrimitiveRef(ModSub, m, a, b).value, b) == Done(a % m)
  {
    var d := (a - b) % m;
    AddMod(d, b, m);
    ModMod(a - b, m);
    AddMod(a - b, b, m);
    assert (a - b) + b == a;
  }

  /** Division is undone by multiplication whenever it succeeds. */
  lemma DivThenMult(m: nat, a: int, b: int)
    requires m > 0 && ModPrimitiveRef(OddModDiv, m, a, b).Done?
    ensures ModPrimitiveRef(OddModMult, m, ModPrimitiveRef(OddModDiv, m, a, b).value, b) == Done(a % m)
  {
    var w := Inverse(b, m).value;
    var x := (a * w) % m;
    assert (b * w) % m == 1 % m;
    MulMod(x, b, m);
    ModMod(a * w, m);
    MulMod(a * w, b, m);
    assert (a * w) * b == a * (w * b);
    MulMod(a, w * b, m);
    assert w * b == b * w;
    ModMod(a, m);
    assert ((a % m) * (1 % m)) % m == a % m by {
      if m == 1 {
      } else {
        assert 1 % m == 1;
      }
    }
  }

  /** A NOT_INVERTIBLE result means that no inverse exists at all. */
  lemma InverseAbsent(modulo: nat, b: nat, z: int)
    requires modulo > 0 && ModSingleRef(OddModInv, modulo, b).Fail?
    ensures (b * z) % modulo != 1 % modulo
  {
    NoInverse(b, modulo, z);
  }

  /** input ^ e mod m. */
  function ModExpRef(input: nat, e: nat, m: nat): (r: nat)
    requires m > 0
    ensures r < m
  {
    ModPow(input, e, m)
  }

  /** The CRT recombination steps of sx_crt_mod_exp. */
  function CrtModExpRef(input: nat, p: nat, q: nat, dp: nat, dq: nat, qinv: nat): (r: nat)
    requires p > 0 && q > 0
    ensures r < p * q
  {
    var vp := ModExpRef(input, dp, p);
    var vq := ModExpRef(input, dq, q);
    var u := ((vp - vq) * qinv) % p;
    MulLe(q, u, p - 1);
    assert q * (p - 1) == p * q - q;
    vq + u * q
  }

  lemma MulModLeft(x: int, y: int, m: int)
    requires m > 0
    ensures ((x % m) * y) % m == (x * y) % m
  {
    MulMod(x % m, y, m);
    ModMod(x, m);
    MulMod(x, y, m);
  }

  /** The term u * q of the recombination is congruent to vp - vq modulo p. */
  lemma CrtTerm(vp: int, vq: int, p: nat, q: nat, qinv: nat)
    requires p > 0 && (qinv * q) % p == 1 % p
    ensures ((((vp - vq) * qinv) % p) * q) % p == (vp - vq) % p
  {
    var d := vp - vq;
    MulModLeft(d * qinv, q, p);
    assert (d * qinv) * q == d * (qinv * q);
    MulMod(d, qinv * q, p);
    MulMod(d, 1, p);
  }

  /** RFC 8017 section 5.1.2 recombination: the result is congruent to vp modulo p and to vq
   *  modulo q, and lies in [0, p*q), provided qinv is the inverse of q modulo p. */
  lemma CrtRecombination(input: nat, p: nat, q: nat, dp: nat, dq: nat, qinv: nat)
    requires p > 0 && q > 0 && (qinv * q) % p == 1 % p
    ensures CrtModExpRef(input, p, q, dp, dq, qinv) % p == ModExpRef(input, dp, p)
    ensures CrtModExpRef(input, p, q, dp, dq, qinv) % q == ModExpRef(input, dq, q)
    ensures CrtModExpRef(input, p, q, dp, dq, qinv) < p * q
  {
    var vp := ModExpRef(input, dp, p);
    var vq := ModExpRef(input, dq, q);
    var u := ((vp - vq) * qinv) % p;
    var r := vq + u * q;
    assert r == CrtModExpRef(input, p, q, dp, dq, qinv);
    // modulo q
    DivModUnique(r, q, u, vq);
    // modulo p
    CrtTerm(vp, vq, p, q, qinv);
    AddMod(vq, u * q, p);
    AddMod(vq, vp - vq, p);
    assert vq + (vp - vq) == vp;
    DivModUnique(vp, p, 0, vp);
    // range
    MulLe(q, u, p - 1);
    assert q * (p - 1) == p * q - q;
  }

  /** Bezout coefficients of p and q turn a common multiple z of both into a multiple of p*q. */
  lemma CoprimeSplit(p: int, q: int, s: int, t: int, zp: int, zq: int, z: int)
    requires p * s + q * t == 1 && z == p * zp && z == q * zq
    ensures z == (p * q) * (zq * s + zp * t)
  {
    calc {
      z;
      z * (p * s + q * t);
      z * (p * s) + z * (q * t);
      { assert z * (p * s) == (q * zq) * (p * s); assert z * (q * t) == (p * zp) * (q * t); }
      (q * zq) * (p * s) + (p * zp) * (q * t);
      (p * q) * (zq * s) + (p * q) * (zp * t);
    }
  }

  /** Coprime divisors of z divide it together. */
  lemma CoprimeDivisors(p: nat, q: nat, z: int)
    requires p > 0 && q > 0 && Gcd(p, q) == 1 && z % p == 0 && z % q == 0
    ensures z % (p * q) == 0
  {
    var c := ExtGcd(p, q);
    var zp, zq := z / p, z / q;
    CoprimeSplit(p, q, c.0, c.1, zp, zq, z);
    MulSign(p, q);
    ModOfMultiple(zq * c.0 + zp * c.1, p * q);
  }

  /** The only multiple of n strictly between -n and n is zero. */
  lemma SmallMultiple(d: int, n: int, k: int)
    requires n > 0 && d == n * k && -n < d < n
    ensures d == 0
  {
    MulSign(n, k);
  }

  /** A multiple of n strictly between -n and n is zero. */
  lemma ZeroMultiple(d: int, n: int)
    requires n > 0 && d % n == 0 && -n < d < n
    ensures d == 0
  {
    var k, r := DivDecompose(d, n);
    assert d == n * k;
    SmallMultiple(d, n, k);
  }

  /** Chinese remainder theorem, uniqueness half: for coprime p and q, one number in [0, p*q) has
   *  given residues modulo p and q, so the recombination is that number. */
  lemma CrtUnique(x: nat, y: nat, p: nat, q: nat)
    requires p > 0 && q > 0 && Gcd(p, q) == 1
    requires x < p * q && y < p * q && x % p == y % p && x % q == y % q
    ensures x == y
  {
    MulSign(p, q);
    CongruentIff(x, y, p);
    CongruentIff(x, y, q);
    CoprimeDivisors(p, q, x - y);
    ZeroMultiple(x - y, p * q);
  }

  /** The key triple of sx_rsa_keygen. */
  datatype RsaKey = RsaKey(n: nat, lambda: nat, d: nat)

  /** n = p*q, lambda_n = lcm(p-1, q-1), d = e^-1 mod lambda_n; no key when e has no inverse. */
  function RsaKeygenRef(p: nat, q: nat, e: nat): (r: Option<RsaKey>)
    requires p > 1 && q > 1
    ensures r.Some? ==> r.value.n == p * q
    ensures r.Some? ==> r.value.lambda > 0 && r.value.lambda % (p - 1) == 0 && r.value.lambda % (q - 1) == 0
    ensures r.Some? ==> r.value.d < r.value.lambda && (r.value.d * e) % r.value.lambda == 1 % r.value.lambda
    ensures r.Some? ==> forall m: int :: m % (p - 1) == 0 && m % (q - 1) == 0 ==> m % r.value.lambda == 0
    ensures r.None? <==> Gcd(e % Lcm(p - 1, q - 1), Lcm(p - 1, q - 1)) != 1
  {
    var lambda := Lcm(p - 1, q - 1);
    LcmLeast(p - 1, q - 1);
    match Inverse(e, lambda)
    case None => None
    case Some(d) =>
      assert d * e == e * d;
      Some(RsaKey(p * q, lambda, d))
  }

  /** The CRT parameters of sx_rsa_crt_keyparams. */
  datatype CrtKey = CrtKey(dp: nat, dq: nat, qinv: nat)

  /** dp = d mod (p-1), dq = d mod (q-1), qinv = q^-1 mod p; NOT_INVERTIBLE when q has no inverse
   *  modulo p. */
  function CrtParamsRef(p: nat, q: nat, d: nat): (r: Outcome<CrtKey>)
    requires p > 1 && q > 1
    ensures r.Done? ==> r.value.dp < p - 1 && (d - r.value.dp) % (p - 1) == 0
    ensures r.Done? ==> r.value.dq < q - 1 && (d - r.value.dq) % (q - 1) == 0
    ensures r.Done? ==> r.value.qinv < p && (r.value.qinv * q) % p == 1 % p
    ensures r.Fail? <==> Gcd(q % p, p) != 1
    ensures r.Fail? ==> r.code == NotInvertible
  {
    match Inverse(q, p)
    case None => Fail(NotInvertible)
    case Some(qinv) =>
      CongruentIff(d, d % (p - 1), p - 1);
      ModMod(d, p - 1);
      CongruentIff(d, d % (q - 1), q - 1);
      ModMod(d, q - 1);
      assert qinv * q == q * qinv;
      Done(CrtKey(d % (p - 1), d % (q - 1), qinv))
  }

  /** For distinct primes the CRT parameters always exist. */
  lemma CrtParamsExist(p: nat, q: nat, d: nat)
    requires IsPrime(p) && IsPrime(q) && p != q
    ensures CrtParamsRef(p, q, d).Done?
  {
    if q % p == 0 {
      DivisorAtMost(p, q);
    }
    InverseModPrime(q, p);
  }

  /** Keys from RsaKeygenRef feed CrtParamsRef consistently: dp and dq are private exponents
   *  modulo p-1 and q-1, and qinv meets the precondition of the recombination. */
  lemma KeygenThenCrt(p: nat, q: nat, e: nat)
    requires p > 1 && q > 1
    requires RsaKeygenRef(p, q, e).Some? && CrtParamsRef(p, q, RsaKeygenRef(p, q, e).value.d).Done?
    ensures var key := RsaKeygenRef(p, q, e).value;
            var crt := CrtParamsRef(p, q, key.d).value;
            (crt.dp * e) % (p - 1) == 1 % (p - 1) && (crt.dq * e) % (q - 1) == 1 % (q - 1)
            && (crt.qinv * q) % p == 1 % p
  {
    var key := RsaKeygenRef(p, q, e).value;
    var crt := CrtParamsRef(p, q, key.d).value;
    ExponentModDivisor(key.d, e, key.lambda, p - 1, crt.dp);
    ExponentModDivisor(key.d, e, key.lambda, q - 1, crt.dq);
  }

  /** If d*e = 1 modulo lambda, m divides lambda and dm = d modulo m, then dm*e = 1 modulo m. */
  lemma ExponentModDivisor(d: nat, e: nat, lambda: nat, m: nat, dm: nat)
    requires lambda > 0 && m > 0 && lambda % m == 0
    requires (d * e) % lambda == 1 % lambda && (d - dm) % m == 0
    ensures (dm * e) % m == 1 % m
  {
    CongruenceToDivisor(d * e, 1, lambda, m);
    CongruentIff(d, dm, m);
    MulModLeft(d, e, m);
    MulModLeft(dm, e, m);
  }

  // ---------------------------------------------------------------------------------------
  // The requests

  /** sx_mod_single_op_cmd: modulo goes to slot n and b to slot b; result receives output 0
   *  after a successful wait. */
  method ModSingleOpCmd(req: PkRequest, store: OperandStore, cmd: Command, modulo: seq<byte>, b: seq<byte>, result: OpRef)
    returns (status: Status, ghost list: Status, ghost wait: Status)
    requires SingleOperandCommand(cmd)
    modifies req, store
    ensures req.calls == old(req.calls) + Protocol(cmd, ListGfpSlots([|modulo|, |b|], list), WriteCalls([N, B]), wait, true)
    ensures status == FirstFailure(list, wait)
    ensures req.cmd == cmd
    ensures list.Ok? ==> req.slots == UpdateAll(map[], [N, B], [modulo, b])
    ensures status.Ok? ==> |req.outputs| == 1 && store.ops == old(store.ops)[result := req.outputs[0]]
    ensures !status.Ok? ==> store.ops == old(store.ops)
  {
    var outs;
    status, outs, list, wait := GfpRequest(req, cmd, [|modulo|, |b|], [N, B], [modulo, b], true);
    if status == Ok {
      store.Store(result, outs[0]);
    }
  }

  /** The trace of sx_mod_primitive_cmd: after a successful listing it fetches the outputs
   *  whatever the wait returned. */
  function PrimitiveTrace(cmd: Command, sizes: seq<nat>, list: Status, wait: Status): (t: seq<PkCall>)
    ensures !list.Ok? || wait.Ok? ==> t == Protocol(cmd, ListGfpSlots(sizes, list), WriteCalls([N, A, B]), wait, true)
    ensures list.Ok? && !wait.Ok? ==> t == Protocol(cmd, ListGfpSlots(sizes, list), WriteCalls([N, A, B]), wait, true) + [GetOutputs]
  {
    [SetCmdCall(cmd), ListGfpSlots(sizes, list)]
    + (if list.Ok? then WriteCalls([N, A, B]) + [RunCall, WaitCall(wait), GetOutputs] else [])
  }

  /** sx_mod_primitive_cmd breaks the lifecycle exactly when the wait fails: it then fetches the
   *  outputs of a failed request. */
  lemma PrimitiveTraceConforms(s: Lifecycle, cmd: Command, sizes: seq<nat>, list: Status, wait: Status)
    requires s != Running
    ensures Conforms(s, PrimitiveTrace(cmd, sizes, list, wait)) <==> !list.Ok? || wait.Ok?
  {
    var writes := WriteCalls([N, A, B]);
    var l := ListGfpSlots(sizes, list);
    ProtocolConforms(s, cmd, l, writes, wait, true);
    if list.Ok? {
      ProtocolRan(cmd, l, writes, wait, true);
      var ran := [SetCmdCall(cmd), l] + writes + [RunCall, WaitCall(wait)];
      assert PrimitiveTrace(cmd, sizes, list, wait) == ran + [GetOutputs];
      if !wait.Ok? {
        assert Protocol(cmd, l, writes, wait, true) == ran;
        ConformsAppend(s, ran, [GetOutputs]);
        assert !Admissible(Failed, GetOutputs);
      } else {
        assert Protocol(cmd, l, writes, wait, true) == ran + [GetOutputs];
      }
    } else {
      ProtocolStopped(cmd, l, writes, wait, true);
    }
  }

  /** sx_mod_primitive_cmd: modulo, a and b go to slots n, a, b. After a successful listing,
   *  result receives output 0 even when the wait failed; the wait status is returned. */
  method ModPrimitiveCmd(req: PkRequest, store: OperandStore, cmd: Command, modulo: seq<byte>, a: seq<byte>, b: seq<byte>, result: OpRef)
    returns (status: Status, ghost list: Status, ghost wait: Status)
    requires TwoOperandCommand(cmd)
    modifies req, store
    ensures req.calls == old(req.calls) + PrimitiveTrace(cmd, [|modulo|, |a|, |b|], list, wait)
    ensures status == FirstFailure(list, wait)
    ensures req.cmd == cmd
    ensures list.Ok? ==> req.slots == UpdateAll(map[], [N, A, B], [modulo, a, b])
    ensures list.Ok? ==> |req.outputs| == 1 && store.ops == old(store.ops)[result := req.outputs[0]]
    ensures !list.Ok? ==> store.ops == old(store.ops)
  {
    req.SetCmd(cmd);
    var sizes := [|modulo|, |a|, |b|];
    status := req.ListGfpInslots(sizes);
    list, wait := status, Ok;
    if status != Ok {
      return;
    }
    WriteSlots(req, [N, A, B], [modulo, a, b]);
    status := RunAndWait(req);
    wait := status;
    var outputs := req.GetOutputOps();
    store.Store(result, outputs[0]);
  }

  /** sx_mod_exp: sizes are listed as (m, input, e) and m, input, e go to slots n, a, b. */
  method ModExp(req: PkRequest, store: OperandStore, input: seq<byte>, e: seq<byte>, m: seq<byte>, result: OpRef)
    returns (status: Status, ghost list: Status, ghost wait: Status)
    modifies req, store
    ensures req.calls == old(req.calls) + Protocol(Command.ModExp, ListGfpSlots([|m|, |input|, |e|], list), WriteCalls([N, A, B]), wait, true)
    ensures status == FirstFailure(list, wait)
    ensures req.cmd == Command.ModExp
    ensures list.Ok? ==> req.slots == UpdateAll(map[], [N, A, B], [m, input, e])
    ensures status.Ok? ==> |req.outputs| == 1 && store.ops == old(store.ops)[result := req.outputs[0]]
    ensures !status.Ok? ==> store.ops == old(store.ops)
  {
    var outs;
    status, outs, list, wait := GfpRequest(req, Command.ModExp, [|m|, |input|, |e|], [N, A, B], [m, input, e], true);
    if status == Ok {
      store.Store(result, outs[0]);
    }
  }

  /** sx_crt_mod_exp: sizes are listed as (p, q, in, dp, dq, qinv); every operand goes to its
   *  slot of the same name. */
  method CrtModExp(req: PkRequest, store: OperandStore, input: seq<byte>, p: seq<byte>, q: seq<byte>,
                   dp: seq<byte>, dq: seq<byte>, qinv: seq<byte>, result: OpRef)
    returns (status: Status, ghost list: Status, ghost wait: Status)
    modifies req, store
    ensures req.calls == old(req.calls) + Protocol(ModExpCrt, ListGfpSlots([|p|, |q|, |input|, |dp|, |dq|, |qinv|], list),
                                                   WriteCalls([In, P, Q, Dp, Dq, QInv]), wait, true)
    ensures status == FirstFailure(list, wait)
    ensures req.cmd == ModExpCrt
    ensures list.Ok? ==> req.slots == UpdateAll(map[], [In, P, Q, Dp, Dq, QInv], [input, p, q, dp, dq, qinv])
    ensures status.Ok? ==> |req.outputs| == 1 && store.ops == old(store.ops)[result := req.outputs[0]]
    ensures !status.Ok? ==> store.ops == old(store.ops)
  {
    var outs;
    status, outs, list, wait := GfpRequest(req, ModExpCrt, [|p|, |q|, |input|, |dp|, |dq|, |qinv|],
                                           [In, P, Q, Dp, Dq, QInv], [input, p, q, dp, dq, qinv], true);
    if status == Ok {
      store.Store(result, outs[0]);
    }
  }

  /** The store after sx_rsa_keygen: n from output 0, lambda_n from output 1 when the caller
   *  asked for it, privkey from output 2. */
  function KeygenStore(ops: map<OpRef, seq<byte>>, n: OpRef, lambda: Option<OpRef>, privkey: OpRef, outputs: seq<seq<byte>>)
    : map<OpRef, seq<byte>>
    requires |outputs| >= 3
  {
    var withN := ops[n := outputs[0]];
    var withLambda := if lambda.Some? then withN[lambda.value := outputs[1]] else withN;
    withLambda[privkey := outputs[2]]
  }

  /** sx_rsa_keygen: p, q and the public exponent go to slots p, q, e. */
  method RsaKeygen(req: PkRequest, store: OperandStore, p: seq<byte>, q: seq<byte>, publicExpo: seq<byte>,
                   n: OpRef, lambda: Option<OpRef>, privkey: OpRef)
    returns (status: Status, ghost list: Status, ghost wait: Status)
    modifies req, store
    ensures req.calls == old(req.calls) + Protocol(Command.RsaKeygen, ListGfpSlots([|p|, |q|, |publicExpo|], list), WriteCalls([P, Q, E]), wait, true)
    ensures status == FirstFailure(list, wait)
    ensures req.cmd == Command.RsaKeygen
    ensures list.Ok? ==> req.slots == UpdateAll(map[], [P, Q, E], [p, q, publicExpo])
    ensures status.Ok? ==> |req.outputs| == 3 && store.ops == KeygenStore(old(store.ops), n, lambda, privkey, req.outputs)
    ensures !status.Ok? ==> store.ops == old(store.ops)
  {
    var outs;
    status, outs, list, wait := GfpRequest(req, Command.RsaKeygen, [|p|, |q|, |publicExpo|], [P, Q, E], [p, q, publicExpo], true);
    if status != Ok {
      return;
    }
    store.Store(n, outs[0]);
    if lambda.Some? {
      store.Store(lambda.value, outs[1]);
    }
    store.Store(privkey, outs[2]);
  }

  /** sx_rsa_crt_keyparams: p, q and the private key go to slots p, q, privkey; dp, dq, qinv
   *  receive outputs 0, 1, 2 in that order. */
  method RsaCrtKeyparams(req: PkRequest, store: OperandStore, p: seq<byte>, q: seq<byte>, privkey: seq<byte>,
                         dp: OpRef, dq: OpRef, qinv: OpRef)
    returns (status: Status, ghost list: Status, ghost wait: Status)
    modifies req, store
    ensures req.calls == old(req.calls) + Protocol(Command.RsaCrtKeyparams, ListGfpSlots([|p|, |q|, |privkey|], list), WriteCalls([P, Q, PrivKey]), wait, true)
    ensures status == FirstFailure(list, wait)
    ensures req.cmd == Command.RsaCrtKeyparams
    ensures list.Ok? ==> req.slots == UpdateAll(map[], [P, Q, PrivKey], [p, q, privkey])
    ensures status.Ok? ==> |req.outputs| == 3 && store.ops == UpdateAll(old(store.ops), [dp, dq, qinv], req.outputs)
    ensures !status.Ok? ==> store.ops == old(store.ops)
  {
    var outs;
    status, outs, list, wait := GfpRequest(req, Command.RsaCrtKeyparams, [|p|, |q|, |privkey|], [P, Q, PrivKey], [p, q, privkey], true);
    if status == Ok {
      StoreOutputs(store, [dp, dq, qinv], outs);
    }
  }

  /** sx_miller_rabin: n and a go to slots n, a; no output is read, the status of the wait is the
   *  verdict (COMPOSITE_VALUE when n is composite). */
  method MillerRabin(req: PkRequest, n: seq<byte>, a: seq<byte>)
    returns (status: Status, ghost list: Status, ghost wait: Status)
    modifies req
    ensures req.calls == old(req.calls) + Protocol(Command.MillerRabin, ListGfpSlots([|n|, |a|], list), WriteCalls([N, A]), wait, false)
    ensures status == FirstFailure(list, wait)
    ensures req.cmd == Command.MillerRabin
    ensures list.Ok? ==> req.slots == UpdateAll(map[], [N, A], [n, a])
  {
    var outs;
    status, outs, list, wait := GfpRequest(req, Command.MillerRabin, [|n|, |a|], [N, A], [n, a], false);
  }
}
