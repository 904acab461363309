# Ed448, X25519/X448 and the sxops wrappers of the CRACEN public-key engine

This project models the part of the CRACEN driver that composes public-key operations out of
engine requests and hash calls, and it proves properties of that model in Dafny.

- **Ed448 and Ed448ph** (`cracenpsa/src/ed448.c`). Signing runs as seven collaborator calls over a
  285-byte `workmem` and a 114-byte `pnt_r`. The steps, in order:
  1. hash the private key;
  2. hash for the nonce r;
  3. compute R = [r]B;
  4. decode the scalar s in place;
  5. compute A = [s]B;
  6. hash for k;
  7. compute S through `sx_ed448_sign`.

  The model also covers verification, the pre-hash entry points and public-key derivation.
- **X25519 and X448 point multiplication** (`silexpk/src/montgomery.c`). Each copies the scalar
  and the point into the engine's slots, then clamps them in place with byte patches.
- **The sxops wrappers of `rsa.h`, `dsa.h` and `sm9.h`.** Each one follows the same path:
  1. select a command;
  2. list the input slots;
  3. write the operands;
  4. run and wait;
  5. copy the output operands into the caller's operands.

The engine channel is the class `PkEngine.PkRequest`. Its fields are:
- the command;
- the operand size;
- the slot contents;
- the output operands;
- a ghost trace of every call made on the request.

The trace is checked against a lifecycle automaton (`Conforms`): Idle, Commanded, Configured,
Running, then Completed or Failed. The caller's output operands are the class
`PkEngine.OperandStore`, a map from operand handles to bytes, so two out-parameters that alias
are modelled exactly. Ed448's collaborators form a `Primitives` value. Its fields are functions,
one per collaborator:
- SHAKE256-114;
- `decode_scalar_448`;
- `sx_ed448_ptmult`;
- `sx_ed448_sign`;
- `sx_ed448_verify`.

Each collaborator's result has a fixed length.

The methods are proved against specification functions, which are also the reference
definitions:
- `Ed448.SignSpec` on the initial buffer contents, split at two points into `SignFromDigest` and
  `SignFromScalar`;
- `PubkeySpec` and `VerifyInternal` for public-key derivation and verification;
- `PkEngine.Protocol` for the engine call sequence;
- the arithmetic the doc-comments promise: `Rsa.ModSingleRef`, `ModPrimitiveRef`,
  `CrtModExpRef`, `RsaKeygenRef`, `CrtParamsRef`, `Dsa.DsaSignRef`, `DsaVerifyRef`,
  `Sm9.KeygenScalarRef`, `SignScalarRef` and `ReduceHRef`.

Lemmas then relate these definitions to one another:
- DSA signatures verify;
- CRT recombination has the right residues;
- subtraction is undone by addition;
- signing derives the same A as `create_pubkey`;
- verification hashes exactly the inputs signing hashed for k;
- the clamps bound the little-endian value as RFC 7748 section 5 requires.

## Where the code and its documentation differ

The model follows the code.

- **dom4 is 8 bytes.** `dom4` (ed448.c:26) holds only "SigEd448". The comment above it says the
  PHflag and the context length are appended, and section 5.2 of RFC 8032 defines dom4 with both
  bytes. `Ed448.Dom4` has the code's 8 bytes.
- **dom4 is left out without prehash.** With `prehash == false`, all three hash-input lists drop
  dom4 entirely: ed448.c:33, 45 and 158. `RHashInputs` and `KHashInputs` (which verification uses
  as well) state both cases.
- **The Ed448ph pre-hash is 114 bytes.** `cracen_ed448ph_sign` and `cracen_ed448ph_verify` hash
  the message to 114 bytes with SHAKE256 (ed448.c:139, 190). RFC 8032 prescribes 64 bytes.
- **No scrubbing on failure.** Secret buffers are not zeroed on every exit path. The code zeroes `workmem` (ed448.c:121) and the digest buffer (ed448.c:231) only on
  success. `Ed448.SignScrubbing` proves both halves:
  - on success, `workmem` is all zero;
  - after a failure past the key digest, `workmem` still holds the key digest or the decoded
    scalar.
- **`sx_mod_primitive_cmd` ignores a failed wait.** It reads the outputs and writes the result
  even when the wait failed (rsa.h:167-172). `Rsa.PrimitiveTraceConforms` proves that this
  breaks the request lifecycle exactly when the wait fails.
- **`sx_dsa_ver` ignores the listing status.** It does not check the status of the slot listing
  (dsa.h:175), so it writes the operands and runs the engine regardless. `Dsa.VerTraceConforms`
  proves that the trace conforms exactly when the listing succeeded.
- **Ill-formed lines, modelled by their evident intent.** Several lines in the headers do not
  compile as written:
  - `sm9.h`:
    - `count` is undeclared (143, 344, 570); the model reads 12 outputs;
    - `opsz` is declared twice (125 and 141);
    - `sx_pk_get_output_ops` is missing in `sx_sm9_sign` before `outputs` is used (482);
    - `r->x` and `r->y` should be `rx` (718-719);
    - `req` is passed by value (382).
  - `dsa.h`:
    - `rivkey` stands for `privkey` (86);
    - `sx_pk_get_output_ops(&)` stands for `sx_pk_get_output_ops(req)` (108).

## Model

Source cells are paths relative to the repository root.

| member | source | states |
|---|---|---|
| StatusCodes.FirstFailure | subsys/nrf_security/src/drivers/cracen/silexpk/include/silexpk/sxops/rsa.h:87-99 | the wrapper succeeds iff both the listing and the wait succeed; a listing failure is returned as is, otherwise the wait status |
| PkEngine.ProtocolSteps | subsys/nrf_security/src/drivers/cracen/silexpk/include/silexpk/sxops/rsa.h:79-100 | after a failed listing only set-cmd and list happen; the engine runs iff the listing succeeded; outputs are fetched iff listing and wait succeeded and the wrapper reads outputs |
| PkEngine.ProtocolShape | subsys/nrf_security/src/drivers/cracen/silexpk/include/silexpk/sxops/rsa.h:79-100 | the wrapper call sequence is set-cmd, the listing, and after a successful listing the writes in order, run, wait, and a fetch only after a successful wait; its length is 2, 4 + writes or 5 + writes accordingly |
| PkEngine.ConformsEvery | subsys/nrf_security/src/drivers/cracen/silexpk/include/silexpk/sxops/rsa.h:79-100 | a trace conforms to the request lifecycle iff each call is admissible in the state the calls before it lead to |
| PkEngine.ProtocolConforms | subsys/nrf_security/src/drivers/cracen/silexpk/include/silexpk/sxops/rsa.h:79-100 | the wrapper call sequence is admissible in the request lifecycle from any non-running state and ends Commanded, Completed or Failed according to the two statuses |
| PkEngine.HistoryConforms | subsys/nrf_security/src/drivers/cracen/silexpk/include/silexpk/sxops/rsa.h:79-100 | appending a wrapper's calls to a conforming, non-running history keeps it conforming |
| PkEngine.ConformsAppend | subsys/nrf_security/src/drivers/cracen/silexpk/include/silexpk/sxops/rsa.h:79-100 | a concatenated trace conforms iff its first part does and the second conforms from the state the first leads to |
| PkEngine.PkRequest.ListGfpInslots | subsys/nrf_security/src/drivers/cracen/silexpk/include/silexpk/sxops/rsa.h:82-90 | when the engine accepts the listing, the operand size covers every listed operand size; slots, command and outputs unchanged |
| PkEngine.PkRequest.SetCmd | subsys/nrf_security/src/drivers/cracen/silexpk/include/silexpk/sxops/rsa.h:79 | selecting a command clears the slots and outputs, keeps the operand size, records one set-cmd call |
| PkEngine.PkRequest.ListEccInslots | subsys/nrf_security/src/drivers/cracen/silexpk/include/silexpk/sxops/sm9.h:120 | when the engine accepts a curve listing, the operand size becomes the curve width; slots, command and outputs unchanged |
| PkEngine.PkRequest.WriteSlot | subsys/nrf_security/src/drivers/cracen/silexpk/include/silexpk/sxops/rsa.h:91-92 | an operand write replaces exactly the slot of its role, nothing else changes |
| PkEngine.PkRequest.Run | subsys/nrf_security/src/drivers/cracen/silexpk/include/silexpk/sxops/rsa.h:94 | starting the engine changes nothing but the call record |
| PkEngine.PkRequest.Wait | subsys/nrf_security/src/drivers/cracen/silexpk/include/silexpk/sxops/rsa.h:96 | the wait returns the engine status and leaves one output per command output, each of the operand size; command, size and slots unchanged |
| PkEngine.PkRequest.GetOutputOps | subsys/nrf_security/src/drivers/cracen/silexpk/include/silexpk/sxops/rsa.h:100 | the outputs are read as they are, nothing changes but the call record |
| PkEngine.PkRequest.PatchSlotByte | subsys/nrf_security/src/drivers/cracen/silexpk/src/montgomery.c:35-39 | a byte patch changes exactly byte i of one slot |
| PkEngine.WriteSlots | subsys/nrf_security/src/drivers/cracen/silexpk/include/silexpk/sxops/rsa.h:161-163 | writing operands in order leaves the slot map updated key by key (a later write wins) and records one write call per operand |
| PkEngine.UpdateAllDistinct | subsys/nrf_security/src/drivers/cracen/silexpk/include/silexpk/sxops/rsa.h:287-292 | with distinct slot names, exactly the written slots exist and each holds its own operand |
| PkEngine.StoreOutputs | subsys/nrf_security/src/drivers/cracen/silexpk/include/silexpk/sxops/rsa.h:438-440 | output i lands in the caller's operand i, in order, nothing else changes |
| PkEngine.GfpRequest | subsys/nrf_security/src/drivers/cracen/silexpk/include/silexpk/sxops/rsa.h:79-104 | the call trace is the protocol; status is first failure; after a successful listing the slots hold exactly the operands and the operand size covers them; on success, a wrapper that reads outputs gets the engine's output operands; a conforming history that is not running stays conforming and not running |
| PkEngine.EccRequest | subsys/nrf_security/src/drivers/cracen/silexpk/include/silexpk/sxops/sm9.h:117-145 | the same for a curve listing, with the operand size equal to the curve width; a conforming history that is not running stays conforming and not running |
| PkEngine.WriteRunFetch | subsys/nrf_security/src/drivers/cracen/silexpk/include/silexpk/sxops/rsa.h:91-100 | after the listing: writes, run, wait, and a fetch only after a successful wait |
| Montgomery.ClampScalar25519 | subsys/nrf_security/src/drivers/cracen/silexpk/src/montgomery.c:34-36 | byte 0 has its low three bits cleared, byte 31 has bit 6 set and bit 7 cleared, the other bits and bytes are kept |
| Montgomery.ClampPoint25519 | subsys/nrf_security/src/drivers/cracen/silexpk/src/montgomery.c:38-39 | byte 31 loses its top bit, everything else is kept |
| Montgomery.ClampScalar448 | subsys/nrf_security/src/drivers/cracen/silexpk/src/montgomery.c:72-74 | byte 0 has its low two bits cleared, byte 55 has bit 7 set, everything else is kept |
| Montgomery.ClampIdempotent | subsys/nrf_security/src/drivers/cracen/silexpk/src/montgomery.c:34-39 | clamping twice is clamping once, for all three clamps |
| Montgomery.ScalarValue25519 | subsys/nrf_security/src/drivers/cracen/silexpk/src/montgomery.c:34-36 | a clamped X25519 scalar is a multiple of 8 in [2^254, 2^255) (RFC 7748 section 5) |
| Montgomery.ScalarValue448 | subsys/nrf_security/src/drivers/cracen/silexpk/src/montgomery.c:72-74 | a clamped X448 scalar is a multiple of 4 in [2^447, 2^448) |
| Montgomery.PointValue25519 | subsys/nrf_security/src/drivers/cracen/silexpk/src/montgomery.c:38-39 | the clamped u-coordinate is below 2^255 and is the input minus 2^255 exactly when the top bit was set |
| Montgomery.PatchClamp25519 | subsys/nrf_security/src/drivers/cracen/silexpk/src/montgomery.c:34-39 | the three read-modify-write patches leave the scalar slot clamped and the point slot clamped, nothing else changed |
| Montgomery.PatchClamp448 | subsys/nrf_security/src/drivers/cracen/silexpk/src/montgomery.c:72-74 | the two patches leave the scalar slot clamped |
| Montgomery.WriteClamped25519 | subsys/nrf_security/src/drivers/cracen/silexpk/src/montgomery.c:32-39 | after copy and clamp the slots hold exactly the clamped point and the clamped scalar |
| Montgomery.WriteClamped448 | subsys/nrf_security/src/drivers/cracen/silexpk/src/montgomery.c:70-74 | after copy and clamp the slots hold the point as given and the clamped scalar |
| Montgomery.X25519Ptmult | subsys/nrf_security/src/drivers/cracen/silexpk/src/montgomery.c:17-53 | trace is the protocol with the five slot accesses; status is first failure; the engine sees the clamped operands; r receives output 0 only on success and is untouched otherwise |
| Montgomery.X448Ptmult | subsys/nrf_security/src/drivers/cracen/silexpk/src/montgomery.c:55-89 | the same for X448, with the point not clamped |
| Rsa.ModSingleRef | subsys/nrf_security/src/drivers/cracen/silexpk/include/silexpk/sxops/rsa.h:41-44 | the result lies in [0, modulo); reduction is congruent to b; inversion succeeds iff gcd(b, modulo) = 1, gives b*r = 1 mod modulo, and otherwise fails NOT_INVERTIBLE |
| Rsa.ModPrimitiveRef | subsys/nrf_security/src/drivers/cracen/silexpk/include/silexpk/sxops/rsa.h:110-113 | the result lies in [0, modulo); only division can fail, exactly when b is not invertible, with NOT_INVERTIBLE |
| Rsa.SubThenAdd | subsys/nrf_security/src/drivers/cracen/silexpk/include/silexpk/sxops/rsa.h:110-111 | (a - b) + b = a mod modulo |
| Rsa.DivThenMult | subsys/nrf_security/src/drivers/cracen/silexpk/include/silexpk/sxops/rsa.h:112-113 | (a / b) * b = a mod modulo whenever the division succeeds |
| Rsa.InverseAbsent | subsys/nrf_security/src/drivers/cracen/silexpk/include/silexpk/sxops/rsa.h:43-59 | when inversion reports NOT_INVERTIBLE, no z has b*z = 1 mod modulo |
| Rsa.ModExpRef | subsys/nrf_security/src/drivers/cracen/silexpk/include/silexpk/sxops/rsa.h:179 | input^e mod m lies in [0, m) |
| Rsa.CrtModExpRef | subsys/nrf_security/src/drivers/cracen/silexpk/include/silexpk/sxops/rsa.h:240-245 | the recombined result lies in [0, p*q) |
| Rsa.CrtRecombination | subsys/nrf_security/src/drivers/cracen/silexpk/include/silexpk/sxops/rsa.h:240-245 | vq + u*q is congruent to vp mod p and to vq mod q and lies in [0, p*q), given qinv*q = 1 mod p |
| Rsa.CrtUnique | subsys/nrf_security/src/drivers/cracen/silexpk/include/silexpk/sxops/rsa.h:240-245 | for coprime p and q, two numbers in [0, p*q) with the same residues are equal, so the recombination is the CRT value |
| Rsa.RsaKeygenRef | subsys/nrf_security/src/drivers/cracen/silexpk/include/silexpk/sxops/rsa.h:311-316 | n = p*q; lambda is a positive common multiple of p-1 and q-1 that divides every common multiple, so it is lcm(p-1, q-1); d < lambda with d*e = 1 mod lambda; no key exactly when e is not invertible mod lambda |
| ModMath.LcmLeast | subsys/nrf_security/src/drivers/cracen/silexpk/include/silexpk/sxops/rsa.h:313 | Lcm(a, b) divides every common multiple of a and b and is at most every positive one |
| Rsa.CrtParamsRef | subsys/nrf_security/src/drivers/cracen/silexpk/include/silexpk/sxops/rsa.h:380-385 | dp = d mod (p-1), dq = d mod (q-1) as residues, qinv*q = 1 mod p; NOT_INVERTIBLE exactly when q is not invertible mod p |
| Rsa.CrtParamsExist | subsys/nrf_security/src/drivers/cracen/silexpk/include/silexpk/sxops/rsa.h:380-385 | for distinct primes the CRT parameters always exist |
| Rsa.KeygenThenCrt | subsys/nrf_security/src/drivers/cracen/silexpk/include/silexpk/sxops/rsa.h:378-385 | from a generated key, dp and dq are inverses of e mod p-1 and q-1, and qinv meets the recombination's precondition |
| Rsa.ModSingleOpCmd | subsys/nrf_security/src/drivers/cracen/silexpk/include/silexpk/sxops/rsa.h:71-106 | protocol trace with slots n, b; status is first failure; result receives output 0 only on success |
| Rsa.PrimitiveTraceConforms | subsys/nrf_security/src/drivers/cracen/silexpk/include/silexpk/sxops/rsa.h:157-172 | the trace of sx_mod_primitive_cmd conforms iff the listing failed or the wait succeeded |
| Rsa.PrimitiveTrace | subsys/nrf_security/src/drivers/cracen/silexpk/include/silexpk/sxops/rsa.h:157-172 | the trace of sx_mod_primitive_cmd is the wrapper protocol, with one extra fetch after a successful listing and a failed wait |
| Rsa.ModPrimitiveCmd | subsys/nrf_security/src/drivers/cracen/silexpk/include/silexpk/sxops/rsa.h:139-175 | slots n, a, b; after a successful listing result receives output 0 whatever the wait returned; the status is first failure |
| Rsa.ModExp | subsys/nrf_security/src/drivers/cracen/silexpk/include/silexpk/sxops/rsa.h:200-234 | sizes listed as (m, input, e), operands to n, a, b; result only on success |
| Rsa.CrtModExp | subsys/nrf_security/src/drivers/cracen/silexpk/include/silexpk/sxops/rsa.h:269-307 | sizes (p, q, in, dp, dq, qinv); each operand in its own slot; result only on success |
| Rsa.RsaKeygen | subsys/nrf_security/src/drivers/cracen/silexpk/include/silexpk/sxops/rsa.h:337-376 | slots p, q, e; n from output 0, lambda_n from output 1 only when requested, privkey from output 2, only on success |
| Rsa.RsaCrtKeyparams | subsys/nrf_security/src/drivers/cracen/silexpk/include/silexpk/sxops/rsa.h:408-443 | slots p, q, privkey; dp, dq, qinv from outputs 0, 1, 2 in that order, only on success |
| Rsa.MillerRabin | subsys/nrf_security/src/drivers/cracen/silexpk/include/silexpk/sxops/rsa.h:471-493 | slots n, a; no output is fetched; the status is the first failure of listing and wait |
| Dsa.DsaSignRef | subsys/nrf_security/src/drivers/cracen/silexpk/include/silexpk/sxops/dsa.h:39-46 | r = (g^k mod p) mod q and s are in (0, q) with k*s = h + x*r mod q; success iff r != 0, k is invertible mod q and h + x*r != 0 mod q; r = 0 gives INVALID_SIGNATURE; a non-invertible k with r != 0 gives NOT_INVERTIBLE, and NOT_INVERTIBLE only then |
| Dsa.SignInvertibleModPrime | subsys/nrf_security/src/drivers/cracen/silexpk/include/silexpk/sxops/dsa.h:43-52 | with prime q and k not a multiple of q, signing never reports NOT_INVERTIBLE |
| Dsa.VerifyCore | subsys/nrf_security/src/drivers/cracen/silexpk/include/silexpk/sxops/dsa.h:119-126 | acceptance implies s is invertible mod q; a non-invertible s gives NOT_INVERTIBLE; the only rejections are NOT_INVERTIBLE and INVALID_SIGNATURE |
| Dsa.VerifyAccepts | subsys/nrf_security/src/drivers/cracen/silexpk/include/silexpk/sxops/dsa.h:119-126 | for any inverse w of s mod q, the signature is accepted iff (g^(h*w mod q) * y^(r*w mod q) mod p) mod q = r, and otherwise rejected with INVALID_SIGNATURE |
| Dsa.DsaVerifyRef | subsys/nrf_security/src/drivers/cracen/silexpk/include/silexpk/sxops/dsa.h:119-132 | a domain outside the listed sizes gives OUT_OF_RANGE; acceptance implies a valid domain and an invertible s |
| Dsa.DsaVerifyAccepts | subsys/nrf_security/src/drivers/cracen/silexpk/include/silexpk/sxops/dsa.h:117-132 | on a domain of the listed sizes, with w any inverse of s mod q, verification accepts iff (g^(h*w mod q) * y^(r*w mod q) mod p) mod q = r |
| Dsa.DsaDomainValid | subsys/nrf_security/src/drivers/cracen/silexpk/include/silexpk/sxops/dsa.h:128-132 | a domain of the listed sizes has p > 2, q > 1 and 0 < g < p |
| Dsa.DsaSignThenVerify | subsys/nrf_security/src/drivers/cracen/silexpk/include/silexpk/sxops/dsa.h:37-132 | on a valid domain with prime q and g of order dividing q, every signature made with x verifies under y = g^x mod p |
| Dsa.DsaSign | subsys/nrf_security/src/drivers/cracen/silexpk/include/silexpk/sxops/dsa.h:74-115 | slots p, q, g, k, privkey, h; r and s from outputs 0 and 1, only on success |
| Dsa.VerTraceConforms | subsys/nrf_security/src/drivers/cracen/silexpk/include/silexpk/sxops/dsa.h:175-187 | the trace of sx_dsa_ver conforms iff the listing succeeded |
| Dsa.VerTrace | subsys/nrf_security/src/drivers/cracen/silexpk/include/silexpk/sxops/dsa.h:175-187 | after a successful listing the trace of sx_dsa_ver is the wrapper protocol without fetch; after a refused one it is the two-call protocol followed by the seven writes, run and wait |
| Dsa.DsaVer | subsys/nrf_security/src/drivers/cracen/silexpk/include/silexpk/sxops/dsa.h:160-190 | the seven operands are written and the engine run whatever the listing returned; the status returned is the one the trace records for the wait |
| Sm9.Sm9TValue | subsys/nrf_security/src/drivers/cracen/silexpk/include/silexpk/sxops/sm9.h:77-83 | sm9_t and sm9_f are 32 bytes and sm9_t is the big-endian value 0x600000000058F98A |
| Sm9.ReduceHRef | subsys/nrf_security/src/drivers/cracen/silexpk/include/silexpk/sxops/sm9.h:727 | the reduced h lies in [1, n-1] |
| Sm9.ReduceHUnique | subsys/nrf_security/src/drivers/cracen/silexpk/include/silexpk/sxops/sm9.h:727 | it is the only value in [1, n-1] congruent to h + 1 mod n-1 (both directions) |
| Sm9.VerifyRangeCheck | subsys/nrf_security/src/drivers/cracen/silexpk/include/silexpk/sxops/sm9.h:496-497 | h is rejected with OUT_OF_RANGE iff h = 0 or h >= q, and accepted otherwise |
| Sm9.ReduceHAccepted | subsys/nrf_security/src/drivers/cracen/silexpk/include/silexpk/sxops/sm9.h:496-497 | a value reduced modulo an order n always passes the range check against any bound q >= n |
| Sm9.ZeroScalarCheck | subsys/nrf_security/src/drivers/cracen/silexpk/include/silexpk/sxops/sm9.h:155-156 | a multiplier is rejected with NOT_INVERTIBLE iff it is zero, and accepted otherwise |
| Sm9.ZeroScalarBytes | subsys/nrf_security/src/drivers/cracen/silexpk/include/silexpk/sxops/sm9.h:659-660 | a multiplier operand is rejected iff all of its bytes are zero |
| Sm9.KeygenScalarRef | subsys/nrf_security/src/drivers/cracen/silexpk/include/silexpk/sxops/sm9.h:355-360 | t2 < n with t2*(h + ks) = ks mod n; t1 = 0 gives NOT_INVERTIBLE, the only error |
| Sm9.KeygenScalarModPrime | subsys/nrf_security/src/drivers/cracen/silexpk/include/silexpk/sxops/sm9.h:582-587 | for prime n, key generation fails exactly when h + k = 0 mod n |
| Sm9.SignScalarRef | subsys/nrf_security/src/drivers/cracen/silexpk/include/silexpk/sxops/sm9.h:425-429 | l is in (0, n) with l + h = r mod n; NOT_INVERTIBLE exactly when r = h mod n |
| Sm9.ConstantSlotsWritten | subsys/nrf_security/src/drivers/cracen/silexpk/include/silexpk/sxops/sm9.h:332-333 | every SM9 wrapper writes the t slot, and only pairing and signature verification write the f slot |
| Sm9.VerifyLayout | subsys/nrf_security/src/drivers/cracen/silexpk/include/silexpk/sxops/sm9.h:554-559 | in the verification slots t holds sm9_t, f holds sm9_f and g[i] holds coefficient i |
| Sm9.Sm9Exp | subsys/nrf_security/src/drivers/cracen/silexpk/include/silexpk/sxops/sm9.h:110-148 | slots h, t = sm9_t, g[0..11]; no f slot; the twelve outputs land in z in order, only on success |
| Sm9.Sm9Pmulg1 | subsys/nrf_security/src/drivers/cracen/silexpk/include/silexpk/sxops/sm9.h:178-214 | slots p1, ke, t = sm9_t; ppube from outputs 0 and 1 only on success |
| Sm9.Sm9Pmulg2 | subsys/nrf_security/src/drivers/cracen/silexpk/include/silexpk/sxops/sm9.h:243-283 | slots p2, ke, t = sm9_t; ppubs from outputs 0 to 3 only on success |
| Sm9.Sm9Pair | subsys/nrf_security/src/drivers/cracen/silexpk/include/silexpk/sxops/sm9.h:309-349 | slots p, q, t = sm9_t, f = sm9_f; r from the twelve outputs only on success |
| Sm9.Sm9SigKeygen | subsys/nrf_security/src/drivers/cracen/silexpk/include/silexpk/sxops/sm9.h:382-420 | slots p1, h, ks, t = sm9_t; ds from outputs 0 and 1 only on success |
| Sm9.Sm9Sign | subsys/nrf_security/src/drivers/cracen/silexpk/include/silexpk/sxops/sm9.h:451-486 | slots ds, h, r, t = sm9_t; s from outputs 0 and 1 only on success |
| Sm9.Sm9SignatureVerify | subsys/nrf_security/src/drivers/cracen/silexpk/include/silexpk/sxops/sm9.h:523-575 | slots h1, p2, ppubs, s, h, f = sm9_f, t = sm9_t, g[0..11]; w from the twelve outputs only on success |
| Sm9.Sm9EncrKeygen | subsys/nrf_security/src/drivers/cracen/silexpk/include/silexpk/sxops/sm9.h:609-651 | slots p2, h, ke written into the ks slot, t = sm9_t; de from outputs 0 to 3 only on success |
| Sm9.Sm9SendKey | subsys/nrf_security/src/drivers/cracen/silexpk/include/silexpk/sxops/sm9.h:682-722 | slots p1, ppube, h, r, t = sm9_t; rx from outputs 0 and 1 only on success |
| Sm9.Sm9ReduceH | subsys/nrf_security/src/drivers/cracen/silexpk/include/silexpk/sxops/sm9.h:746-779 | sizes listed from h and sm9_t, with no curve; slots h and t = sm9_t; rh from output 0 only on success |
| Ed448.RHashInputs | subsys/nrf_security/src/drivers/cracen/cracenpsa/src/ed448.c:31-36 | with prehash, the inputs are dom4, prefix, message; without it, prefix and message |
| Ed448.KHashInputs | subsys/nrf_security/src/drivers/cracen/cracenpsa/src/ed448.c:43-48 | with prehash, the inputs are dom4, R, A, message; without it, R, A and message; verification (ed448.c:158-164) hashes the same list with the signature's R half and the public key |
| Ed448.ScalarMemLayout | subsys/nrf_security/src/drivers/cracen/cracenpsa/src/ed448.c:88-93 | after decoding and clearing, workmem[0,114) is s followed by 57 zeros and r is still in [171,285) |
| Ed448.SignRInputs | subsys/nrf_security/src/drivers/cracen/cracenpsa/src/ed448.c:71-83 | the r hash reads the second half of the key digest and the message, after dom4 with prehash; R is computed from the r digest |
| Ed448.SignPtMultInput | subsys/nrf_security/src/drivers/cracen/cracenpsa/src/ed448.c:85-98 | A = [s]B is computed from the decoded first half of the key digest followed by 57 zero bytes |
| Ed448.SignKInputs | subsys/nrf_security/src/drivers/cracen/cracenpsa/src/ed448.c:104-107 | the k hash reads R, A and the message, after dom4 with prehash |
| Ed448.SignFinalArguments | subsys/nrf_security/src/drivers/cracen/cracenpsa/src/ed448.c:112-115 | sx_ed448_sign receives the k digest, the r digest and the decoded scalar s |
| Ed448.SignEarlyReturn | subsys/nrf_security/src/drivers/cracen/cracenpsa/src/ed448.c:62-118 | the calls follow the fixed seven-step order; every call before the last succeeded; the status returned is the last call's; success means all seven ran |
| Ed448.SignScrubbing | subsys/nrf_security/src/drivers/cracen/cracenpsa/src/ed448.c:112-121 | on success the signature is R followed by S and workmem is all zero; after a failure past the key digest, the key digest or the decoded scalar is still in workmem |
| Ed448.CalculateR | subsys/nrf_security/src/drivers/cracen/cracenpsa/src/ed448.c:28-38 | hashes workmem[57,114) and the message (after dom4 with prehash) into workmem[171,285), leaving the buffer unchanged on failure |
| Ed448.CalculateK | subsys/nrf_security/src/drivers/cracen/cracenpsa/src/ed448.c:40-50 | hashes pnt_r[0,57), workmem[57,114) and the message into workmem[57,171), leaving the buffer unchanged on failure |
| Ed448.SignInternal | subsys/nrf_security/src/drivers/cracen/cracenpsa/src/ed448.c:52-124 | status, calls and final workmem are those of SignSpec on the initial stack contents; the signature receives pnt_r only on success |
| Ed448.SignSpec | subsys/nrf_security/src/drivers/cracen/cracenpsa/src/ed448.c:52-124 | the reference run of sign_internal on given buffers: workmem and pnt_r keep their sizes (114 + 57 + 114 and 114 bytes); its steps are stated by SignEarlyReturn, SignRInputs, SignPtMultInput, SignKInputs, SignFinalArguments and SignScrubbing |
| Ed448.SignFromDigest | subsys/nrf_security/src/drivers/cracen/cracenpsa/src/ed448.c:68-118 | the run after the key digest: workmem and pnt_r keep their sizes |
| Ed448.SignFromScalar | subsys/nrf_security/src/drivers/cracen/cracenpsa/src/ed448.c:94-121 | the run after the scalar is decoded: workmem and pnt_r keep their sizes |
| Ed448.SignAfterDigest | subsys/nrf_security/src/drivers/cracen/cracenpsa/src/ed448.c:68-118 | the steps after the key digest on the arrays equal SignFromDigest on their contents |
| Ed448.SignAfterScalar | subsys/nrf_security/src/drivers/cracen/cracenpsa/src/ed448.c:94-121 | the steps after the scalar on the arrays equal SignFromScalar on their contents |
| Ed448.Sign | subsys/nrf_security/src/drivers/cracen/cracenpsa/src/ed448.c:126-130 | signing without prehash is SignSpec with prehash false |
| Ed448.PhSign | subsys/nrf_security/src/drivers/cracen/cracenpsa/src/ed448.c:132-150 | with is_message, a failed message hash is returned with the signature untouched, otherwise its digest is signed with prehash; without is_message the bytes are signed with prehash |
| Ed448.VerifyInternal | subsys/nrf_security/src/drivers/cracen/cracenpsa/src/ed448.c:152-175 | one hash of the listed inputs; on its failure its status and no engine call; otherwise sx_ed448_verify(digest, pub, S half, R half) and its status |
| Ed448.Verify | subsys/nrf_security/src/drivers/cracen/cracenpsa/src/ed448.c:177-181 | verification without prehash is verify_internal with prehash false |
| Ed448.PhVerify | subsys/nrf_security/src/drivers/cracen/cracenpsa/src/ed448.c:183-200 | with is_message the message is hashed first and a failure returned; both ways verification runs with prehash |
| Ed448.PubkeyInput | subsys/nrf_security/src/drivers/cracen/cracenpsa/src/ed448.c:208-231 | the public key is [s]B on the decoded scalar followed by 57 zeros; on success the digest buffer is zero, after a failed multiplication it still holds that scalar and the zeros, after a failed hash it is untouched; success iff all three calls ran and the multiplication succeeded |
| Ed448.PubkeySpec | subsys/nrf_security/src/drivers/cracen/cracenpsa/src/ed448.c:202-234 | the reference run of create_pubkey: the digest buffer keeps its 114 bytes and a successful run yields a 57-byte key; its steps are stated by PubkeyInput |
| Ed448.CreatePubkey | subsys/nrf_security/src/drivers/cracen/cracenpsa/src/ed448.c:202-234 | status, calls and final digest buffer are PubkeySpec's; the public-key buffer receives A only on success |
| Ed448.SignUsesPublicKey | subsys/nrf_security/src/drivers/cracen/cracenpsa/src/ed448.c:94-98 | the A that signing derives equals the public key create_pubkey derives from the same private key |
| Ed448.VerifySeesSignValues | subsys/nrf_security/src/drivers/cracen/cracenpsa/src/ed448.c:161-172 | for a signature from signing and the derived public key, verification hashes exactly sign's k inputs and hands the engine sign's k, the public key, S and R |

## Left out

- **Collaborator internals** are not part of this model: SHAKE256, `decode_scalar_448`, and the
  engine's Ed448 point multiplication, signing and verification. Each is an uninterpreted
  function of its inputs. A failed call is modelled as leaving its output buffer unchanged.
- **Engine arithmetic.** The engine's SM9 pairing and point arithmetic, X25519/X448
  multiplication, Miller–Rabin and RSA/DSA computations are not computed. The wrappers return
  whatever status and outputs the engine produces; the reference functions state what the
  doc-comments promise of them.
- **Operand conversion.** Operands go through `sx_pk_op2vmem`, `sx_pk_ecop2mem`, `sx_pk_mem2op`
  and `sx_pk_mem2ecop`, which handle padding and endianness. A slot and an output are modelled as
  the operand bytes as given.
- **The SM9 curve width.** The width the connection reports for the SM9 curve is a parameter.
- **Platform details:**
  - `safe_memzero` and `safe_memset` are modelled as plain zeroing, so their resistance to
    compiler elision is not modelled;
  - concurrency and engine locking are not modelled;
  - the status codes header is not part of this model; its codes are named after the
    doc-comments.
- **Prehash separation.** A signature made with prehash must fail verification without prehash.
  That follows from the collision properties of SHAKE256, which are outside the model; the model
  shows only that the two modes hash different input lists.
- Rsa.CrtModExpRef: proved to have the right residues and the range [0, p*q), and, with
  `CrtUnique`, to be the CRT value. That this equals in^d mod n needs Fermat's little theorem,
  which is not proved.
- Rsa.MillerRabin: COMPOSITE_VALUE is the engine's verdict; the model states only the request
  protocol, not the primality test.
- Rsa.RsaKeygenRef: returns no key when e is not invertible modulo lambda_n; the doc-comment
  names no error code for that case, so the model gives none.
- Dsa.DsaVerifyRef: reads the domain check of the doc-comment as an OUT_OF_RANGE result, the
  code that the doc-comment lists.
- Sm9.ReduceHRef, Sm9.VerifyRangeCheck, Sm9.ZeroScalarCheck, Sm9.KeygenScalarRef and
  Sm9.SignScalarRef are reference definitions of checks the engine makes. The wrappers forward
  the engine's status, so these checks are not tied to the wrapper methods.
- Ed448.SignSpec and Ed448.PubkeySpec: their own ensures state only buffer lengths. What they
  compute is stated by the lemmas in the table above.
