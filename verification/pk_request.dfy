/** The acceleration-request channel of the public-key engine as the sxops wrappers use it.
 *  The engine itself (sx_pk_set_cmd, sx_pk_list_*_inslots, sx_pk_run, sx_pk_wait,
 *  sx_pk_get_output_ops) is not part of this model: PkRequest keeps only what the wrappers can
 *  observe (the command, the operand size, the slot contents, the output operands) plus a ghost
 *  lifecycle state and a ghost trace of every call made on the request. Statuses that the engine
 *  decides are chosen nondeterministically. */
module PkEngine {
  import opened StatusCodes
  import opened Bytes

  /** Where a request is in its life. A request must be commanded, then configured (slots
   *  listed), then running, then completed or failed. */
  datatype Lifecycle = Idle | Commanded | Configured | Running | Completed | Failed

  /** The command definitions the wrappers pass to sx_pk_set_cmd. */
  datatype Command =
    | OddModReduce | EvenModReduce | OddModInv | EvenModInv
    | ModAdd | ModSub | OddModMult | OddModDiv
    | ModExp | ModExpCrt | RsaKeygen | RsaCrtKeyparams | MillerRabin
    | DsaSign | DsaVer
    | MontgomeryPtmul
    | Sm9Exp | Sm9Pmulg1 | Sm9Pmulg2 | Sm9Pair | Sm9PrivSigKeygen | Sm9SignatureGen
    | Sm9SignatureVerify | Sm9PrivEncrKeygen | Sm9SendKey | Sm9ReduceH

  /** The named input slots of the `sx_pk_inops_*` structures (one name per field). */
  datatype Role =
    | N | A | B | In | P | Q | Dp | Dq | QInv | E | PrivKey | G | K | H | PubKey | R | S
    | T | F | Gc(i: nat)
    | P1x0 | P1y0 | Ke | Ks | P2x0 | P2x1 | P2y0 | P2y1
    | Px0 | Py0 | Qx0 | Qx1 | Qy0 | Qy1 | Dsx0 | Dsy0 | H1
    | PpubsX0 | PpubsX1 | PpubsY0 | PpubsY1 | Sx0 | Sy0 | PpubeX0 | PpubeY0

  /** How many output operands the engine produces for each command (the number the wrappers
   *  read back, or zero for the commands whose wrapper reads none). */
  function OutputCount(cmd: Command): nat
  {
    match cmd
    case RsaKeygen => 3
    case RsaCrtKeyparams => 3
    case MillerRabin => 0
    case DsaVer => 0
    case DsaSign => 2
    case Sm9Pmulg1 => 2
    case Sm9PrivSigKeygen => 2
    case Sm9SignatureGen => 2
    case Sm9SendKey => 2
    case Sm9Pmulg2 => 4
    case Sm9PrivEncrKeygen => 4
    case Sm9Exp => 12
    case Sm9Pair => 12
    case Sm9SignatureVerify => 12
    case _ => 1
  }

  /** One call made on a request, with the status the engine returned where there is one. */
  datatype PkCall =
    | SetCmdCall(cmd: Command)
    | ListGfpSlots(sizes: seq<nat>, status: Status)
    | ListEccSlots(width: nat, status: Status)
    | Write(role: Role)
    | Patch(role: Role, index: nat)
    | RunCall
    | WaitCall(status: Status)
    | GetOutputs

  predicate IsList(c: PkCall)
  {
    c.ListGfpSlots? || c.ListEccSlots?
  }

  predicate IsSlotWrite(c: PkCall)
  {
    c.Write? || c.Patch?
  }

  /** Whether the engine accepts call c in state s. */
  predicate Admissible(s: Lifecycle, c: PkCall)
  {
    match c
    case SetCmdCall(_) => s != Running
    case ListGfpSlots(_, _) => s == Commanded
    case ListEccSlots(_, _) => s == Commanded
    case Write(_) => s == Configured
    case Patch(_, _) => s == Configured
    case RunCall => s == Configured
    case WaitCall(_) => s == Running
    case GetOutputs => s == Completed
  }

  /** The state a call leads to. */
  function After(s: Lifecycle, c: PkCall): Lifecycle
  {
    match c
    case SetCmdCall(_) => Commanded
    case ListGfpSlots(_, st) => if st.Ok? then Configured else Commanded
    case ListEccSlots(_, st) => if st.Ok? then Configured else Commanded
    case Write(_) => s
    case Patch(_, _) => s
    case RunCall => Running
    case WaitCall(st) => if st.Ok? then Completed else Failed
    case GetOutputs => s
  }

  /** The state after a whole trace. */
  function Final(s: Lifecycle, calls: seq<PkCall>): Lifecycle
    decreases |calls|
  {
    if calls == [] then s else Final(After(s, calls[0]), calls[1..])
  }

  /** Every call of the trace is admissible in the state the previous calls lead to. */
  predicate Conforms(s: Lifecycle, calls: seq<PkCall>)
    decreases |calls|
  {
    calls == [] || (Admissible(s, calls[0]) && Conforms(After(s, calls[0]), calls[1..]))
  }

  /** Conforms, read call by call: each call is admissible in the state its predecessors lead to. */
  lemma {:induction false} ConformsEvery(s: Lifecycle, calls: seq<PkCall>)
    ensures Conforms(s, calls) <==> forall i :: 0 <= i < |calls| ==> Admissible(Final(s, calls[..i]), calls[i])
    decreases |calls|
  {
    if calls != [] {
      var rest := calls[1..];
      var t := After(s, calls[0]);
      ConformsEvery(t, rest);
      assert calls[..0] == [];
      forall i | 1 <= i < |calls|
        ensures Final(s, calls[..i]) == Final(t, rest[..i - 1]) && calls[i] == rest[i - 1]
      {
        assert calls[..i][0] == calls[0];
        assert calls[..i][1..] == rest[..i - 1];
      }
      if forall i :: 0 <= i < |calls| ==> Admissible(Final(s, calls[..i]), calls[i]) {
        assert Admissible(Final(s, calls[..0]), calls[0]);
        forall j | 0 <= j < |rest|
          ensures Admissible(Final(t, rest[..j]), rest[j])
        {
          assert Admissible(Final(s, calls[..j + 1]), calls[j + 1]);
        }
      }
    }
  }

  /** The call sequence every wrapper follows: set the command, list the slots, and only when the
   *  listing succeeded write the operands, run and wait; the outputs are fetched only when the
   *  wait succeeded and the wrapper has outputs to read. */
  function Protocol(cmd: Command, list: PkCall, writes: seq<PkCall>, wait: Status, fetch: bool)
    : seq<PkCall>
    requires IsList(list)
  {
    [SetCmdCall(cmd), list]
    + (if list.status.Ok? then writes + [RunCall, WaitCall(wait)] + (if wait.Ok? && fetch then [GetOutputs] else [])
       else [])
  }

  /** The layout of the protocol: set-cmd, the listing, then (after a successful listing) the
   *  writes in order, run, wait, and the fetch only after a successful wait. */
  lemma ProtocolShape(cmd: Command, list: PkCall, writes: seq<PkCall>, wait: Status, fetch: bool)
    requires IsList(list)
    ensures var r := Protocol(cmd, list, writes, wait, fetch);
      && |r| == (if !list.status.Ok? then 2 else if wait.Ok? && fetch then 5 + |writes| else 4 + |writes|)
      && r[0] == SetCmdCall(cmd) && r[1] == list
      && (list.status.Ok? ==> r[2..2 + |writes|] == writes && r[2 + |writes|] == RunCall && r[3 + |writes|] == WaitCall(wait))
      && (list.status.Ok? && wait.Ok? && fetch ==> r[4 + |writes|] == GetOutputs)
  {
    var r := Protocol(cmd, list, writes, wait, fetch);
    if list.status.Ok? {
      var tail := if wait.Ok? && fetch then [GetOutputs] else [];
      assert r == [SetCmdCall(cmd), list] + writes + [RunCall, WaitCall(wait)] + tail;
    }
  }

  /** Protocol unfolded for a listing that failed. */
  lemma ProtocolStopped(cmd: Command, list: PkCall, writes: seq<PkCall>, wait: Status, fetch: bool)
    requires IsList(list) && !list.status.Ok?
    ensures Protocol(cmd, list, writes, wait, fetch) == [SetCmdCall(cmd), list]
  {
  }

  /** Protocol unfolded for a listing that succeeded, by outcome of the wait. */
  lemma ProtocolRan(cmd: Command, list: PkCall, writes: seq<PkCall>, wait: Status, fetch: bool)
    requires IsList(list) && list.status.Ok?
    ensures !(wait.Ok? && fetch) ==> Protocol(cmd, list, writes, wait, fetch) == [SetCmdCall(cmd), list] + writes + [RunCall, WaitCall(wait)]
    ensures wait.Ok? && fetch ==> Protocol(cmd, list, writes, wait, fetch) == [SetCmdCall(cmd), list] + writes + [RunCall, WaitCall(wait)] + [GetOutputs]
  {
    var body := [SetCmdCall(cmd), list] + writes + [RunCall, WaitCall(wait)];
    assert body + [] == body;
  }

  lemma {:induction false} ConformsAppend(s: Lifecycle, a: seq<PkCall>, b: seq<PkCall>)
    ensures Conforms(s, a + b) <==> Conforms(s, a) && Conforms(Final(s, a), b)
    ensures Final(s, a + b) == Final(Final(s, a), b)
    decreases |a|
  {
    if a != [] {
      assert (a + b)[0] == a[0];
      assert (a + b)[1..] == a[1..] + b;
      ConformsAppend(After(s, a[0]), a[1..], b);
    } else {
      assert a + b == b;
    }
  }

  /** Slot writes are admissible in the configured state and keep it. */
  lemma {:induction false} WritesConform(writes: seq<PkCall>)
    requires forall i :: 0 <= i < |writes| ==> IsSlotWrite(writes[i])
    ensures Conforms(Configured, writes) && Final(Configured, writes) == Configured
    decreases |writes|
  {
    if writes != [] {
      WritesConform(writes[1..]);
    }
  }

  /** Setting the command and listing the slots is admissible from any state but Running. */
  lemma HeadConforms(s: Lifecycle, cmd: Command, list: PkCall)
    requires s != Running && IsList(list)
    ensures Conforms(s, [SetCmdCall(cmd), list])
    ensures Final(s, [SetCmdCall(cmd), list]) == if list.status.Ok? then Configured else Commanded
  {
    var head := [SetCmdCall(cmd), list];
    assert head[1..] == [list];
    assert head[1..][1..] == [];
    assert Final(s, head) == Final(Commanded, [list]);
    assert Final(Commanded, [list]) == Final(After(Commanded, list), []);
  }

  /** Running, waiting and (after a successful wait) fetching outputs is admissible once the
   *  request is configured. */
  lemma TailConforms(wait: Status, fetch: bool)
    ensures Conforms(Configured, [RunCall, WaitCall(wait)] + (if wait.Ok? && fetch then [GetOutputs] else []))
    ensures Final(Configured, [RunCall, WaitCall(wait)] + (if wait.Ok? && fetch then [GetOutputs] else []))
            == if wait.Ok? then Completed else Failed
  {
    var last := if wait.Ok? && fetch then [GetOutputs] else [];
    var tail := [RunCall, WaitCall(wait)] + last;
    var done := if wait.Ok? then Completed else Failed;
    assert tail[1..] == [WaitCall(wait)] + last;
    assert tail[1..][1..] == last;
    if last != [] {
      assert last[1..] == [];
      assert Final(done, last) == Final(done, []);
    }
    assert Conforms(done, last);
    assert Conforms(Running, tail[1..]);
    assert Final(Configured, tail) == Final(Running, tail[1..]);
    assert Final(Running, tail[1..]) == Final(done, last);
  }

  /** A trace that follows Protocol respects the lifecycle from any state but Running, and ends
   *  Completed or Failed when the request ran, Commanded when the listing failed. */
  lemma ProtocolConforms(s: Lifecycle, cmd: Command, list: PkCall, writes: seq<PkCall>, wait: Status, fetch: bool)
    requires s != Running && IsList(list)
    requires forall i :: 0 <= i < |writes| ==> IsSlotWrite(writes[i])
    ensures Conforms(s, Protocol(cmd, list, writes, wait, fetch))
    ensures Final(s, Protocol(cmd, list, writes, wait, fetch))
            == if !list.status.Ok? then Commanded else if wait.Ok? then Completed else Failed
  {
    var head := [SetCmdCall(cmd), list];
    HeadConforms(s, cmd, list);
    if list.status.Ok? {
      var tail := [RunCall, WaitCall(wait)] + (if wait.Ok? && fetch then [GetOutputs] else []);
      TailConforms(wait, fetch);
      WritesConform(writes);
      ConformsAppend(Configured, writes, tail);
      ConformsAppend(s, head, writes + tail);
      assert Protocol(cmd, list, writes, wait, fetch) == head + (writes + tail);
    } else {
      assert head + [] == head;
      assert Protocol(cmd, list, writes, wait, fetch) == head;
    }
  }

  /** A wrapper that follows Protocol on a request whose history conforms, and that is not
   *  running, leaves a history that still conforms. */
  lemma HistoryConforms(h: seq<PkCall>, cmd: Command, list: PkCall, writes: seq<PkCall>, wait: Status, fetch: bool)
    requires Conforms(Idle, h) && Final(Idle, h) != Running && IsList(list)
    requires forall i :: 0 <= i < |writes| ==> IsSlotWrite(writes[i])
    ensures Conforms(Idle, h + Protocol(cmd, list, writes, wait, fetch))
    ensures Final(Idle, h + Protocol(cmd, list, writes, wait, fetch)) != Running
  {
    ProtocolConforms(Final(Idle, h), cmd, list, writes, wait, fetch);
    ConformsAppend(Idle, h, Protocol(cmd, list, writes, wait, fetch));
  }

  /** HistoryConforms, stated for any history. */
  lemma KeepsConforming(h: seq<PkCall>, cmd: Command, list: PkCall, writes: seq<PkCall>, wait: Status, fetch: bool)
    requires IsList(list)
    requires forall i :: 0 <= i < |writes| ==> IsSlotWrite(writes[i])
    ensures Conforms(Idle, h) && Final(Idle, h) != Running ==>
      Conforms(Idle, h + Protocol(cmd, list, writes, wait, fetch))
      && Final(Idle, h + Protocol(cmd, list, writes, wait, fetch)) != Running
  {
    if Conforms(Idle, h) && Final(Idle, h) != Running {
      HistoryConforms(h, cmd, list, writes, wait, fetch);
    }
  }

  /** Nothing after the listing runs when the listing fails; the engine runs exactly when it
   *  succeeds, and the outputs are fetched exactly when the wait also succeeds. */
  lemma ProtocolSteps(cmd: Command, list: PkCall, writes: seq<PkCall>, wait: Status, fetch: bool)
    requires IsList(list)
    requires forall i :: 0 <= i < |writes| ==> IsSlotWrite(writes[i])
    ensures !list.status.Ok? ==> |Protocol(cmd, list, writes, wait, fetch)| == 2
    ensures RunCall in Protocol(cmd, list, writes, wait, fetch) <==> list.status.Ok?
    ensures GetOutputs in Protocol(cmd, list, writes, wait, fetch) <==> list.status.Ok? && wait.Ok? && fetch
  {
    var calls := Protocol(cmd, list, writes, wait, fetch);
    if list.status.Ok? {
      var tail := if wait.Ok? && fetch then [GetOutputs] else [];
      assert calls == [SetCmdCall(cmd), list] + writes + [RunCall, WaitCall(wait)] + tail;
      assert calls[2 + |writes|] == RunCall;
      if GetOutputs in calls {
        var i :| 0 <= i < |calls| && calls[i] == GetOutputs;
        assert i >= 4 + |writes|;
      }
      if wait.Ok? && fetch {
        assert calls[4 + |writes|] == GetOutputs;
      }
    }
  }

  /** The engine channel. `slots` holds what was written to each input slot (sx_pk_op2vmem and
   *  sx_pk_ecop2mem convert an operand to the slot format; that conversion is not part of this
   *  model, so a slot holds the operand bytes as given); `outputs` are the engine's output
   *  operands, each `opsize` bytes. */
  class PkRequest {
    var cmd: Command
    var opsize: nat
    var slots: map<Role, seq<byte>>
    var outputs: seq<seq<byte>>
    ghost var calls: seq<PkCall>

    constructor ()
      ensures calls == [] && slots == map[] && outputs == []
    {
      cmd := OddModReduce;
      opsize := 0;
      slots := map[];
      outputs := [];
      calls := [];
    }

    /** The lifecycle state the calls made so far lead to. */
    ghost function State(): Lifecycle
      reads this
    {
      Final(Idle, calls)
    }

    /** Every call made so far was admissible when it was made. */
    ghost predicate Valid()
      reads this
    {
      Conforms(Idle, calls)
    }

    /** Byte i of the slot of role r (a read of slot memory). */
    function SlotByte(r: Role, i: nat): byte
      reads this
      requires r in slots && i < |slots[r]|
    {
      slots[r][i]
    }

    /** sx_pk_set_cmd: select the command; the slots and outputs of a previous command are gone. */
    method SetCmd(c: Command)
      modifies this
      ensures cmd == c && opsize == old(opsize) && slots == map[] && outputs == []
      ensures calls == old(calls) + [SetCmdCall(c)]
    {
      cmd := c;
      slots := map[];
      outputs := [];
      calls := calls + [SetCmdCall(c)];
    }

    /** sx_pk_list_gfp_inslots: reserve one slot per operand size. The engine may refuse; when it
     *  accepts, its operand size covers every listed size. */
    method ListGfpInslots(sizes: seq<nat>) returns (status: Status)
      modifies this
      ensures cmd == old(cmd) && slots == old(slots) && outputs == old(outputs)
      ensures status.Ok? ==> forall i :: 0 <= i < |sizes| ==> sizes[i] <= opsize
      ensures !status.Ok? ==> opsize == old(opsize)
      ensures calls == old(calls) + [ListGfpSlots(sizes, status)]
    {
      status :| true;
      if status.Ok? {
        var m: nat := 0;
        for i := 0 to |sizes|
          invariant forall j :: 0 <= j < i ==> sizes[j] <= m
        {
          if sizes[i] > m {
            m := sizes[i];
          }
        }
        opsize := m;
      }
      calls := calls + [ListGfpSlots(sizes, status)];
    }

    /** sx_pk_list_ecc_inslots: reserve the slots of an elliptic-curve command; the operand size
     *  becomes the curve's width. The engine may refuse. */
    method ListEccInslots(width: nat) returns (status: Status)
      modifies this
      ensures cmd == old(cmd) && slots == old(slots) && outputs == old(outputs)
      ensures opsize == if status.Ok? then width else old(opsize)
      ensures calls == old(calls) + [ListEccSlots(width, status)]
    {
      status :| true;
      if status.Ok? {
        opsize := width;
      }
      calls := calls + [ListEccSlots(width, status)];
    }

    /** Copy an operand into the slot of role r (sx_pk_op2vmem, sx_pk_ecop2mem, sx_wrpkmem). */
    method WriteSlot(r: Role, data: seq<byte>)
      modifies this
      ensures cmd == old(cmd) && opsize == old(opsize) && outputs == old(outputs)
      ensures slots == old(slots)[r := data]
      ensures calls == old(calls) + [Write(r)]
    {
      slots := slots[r := data];
      calls := calls + [Write(r)];
    }

    /** Overwrite byte i of the slot of role r (sx_wrpkmem_byte). */
    method PatchSlotByte(r: Role, i: nat, b: byte)
      requires r in slots && i < |slots[r]|
      modifies this
      ensures cmd == old(cmd) && opsize == old(opsize) && outputs == old(outputs)
      ensures slots == old(slots)[r := old(slots)[r][i := b]]
      ensures calls == old(calls) + [Patch(r, i)]
    {
      slots := slots[r := slots[r][i := b]];
      calls := calls + [Patch(r, i)];
    }

    /** sx_pk_run: start the engine. */
    method Run()
      modifies this
      ensures cmd == old(cmd) && opsize == old(opsize) && slots == old(slots) && outputs == old(outputs)
      ensures calls == old(calls) + [RunCall]
    {
      calls := calls + [RunCall];
    }

    /** sx_pk_wait: the engine's status for the run. The output operands exist whatever the status
     *  (the engine memory they point to is there); their contents are what the engine left. */
    method Wait() returns (status: Status)
      modifies this
      ensures cmd == old(cmd) && opsize == old(opsize) && slots == old(slots)
      ensures |outputs| == OutputCount(cmd)
      ensures forall i :: 0 <= i < |outputs| ==> |outputs[i]| == opsize
      ensures calls == old(calls) + [WaitCall(status)]
    {
      status :| true;
      var n, sz := OutputCount(cmd), opsize;
      var w := seq<seq<byte>>(n, _ => Zeros(sz));
      assert |w| == n && forall i :: 0 <= i < |w| ==> |w[i]| == sz;
      assert forall o :: o in w ==> |o| == sz;
      var outs: seq<seq<byte>> :| |outs| == n && forall o :: o in outs ==> |o| == sz;
      outputs := outs;
      calls := calls + [WaitCall(status)];
    }

    /** sx_pk_get_output_ops: the output operands of the finished run. */
    method GetOutputOps() returns (outs: seq<seq<byte>>)
      modifies this
      ensures outs == outputs
      ensures cmd == old(cmd) && opsize == old(opsize) && slots == old(slots) && outputs == old(outputs)
      ensures calls == old(calls) + [GetOutputs]
    {
      outs := outputs;
      calls := calls + [GetOutputs];
    }
  }

  /** sx_pk_run followed by sx_pk_wait, the tail every wrapper shares. */
  method RunAndWait(req: PkRequest) returns (status: Status)
    modifies req
    ensures req.cmd == old(req.cmd) && req.opsize == old(req.opsize) && req.slots == old(req.slots)
    ensures |req.outputs| == OutputCount(req.cmd)
    ensures forall i :: 0 <= i < |req.outputs| ==> |req.outputs[i]| == req.opsize
    ensures req.calls == old(req.calls) + [RunCall, WaitCall(status)]
  {
    req.Run();
    status := req.Wait();
  }

  /** A handle on a caller's output operand (an `sx_op *`); two handles may be equal, in which case
   *  the later write wins. */
  type OpRef = nat

  /** The caller's output operands. */
  class OperandStore {
    var ops: map<OpRef, seq<byte>>

    constructor ()
      ensures ops == map[]
    {
      ops := map[];
    }

    /** sx_pk_mem2op / sx_pk_mem2ecop: copy an engine output into the operand o. */
    method Store(o: OpRef, data: seq<byte>)
      modifies this
      ensures ops == old(ops)[o := data]
    {
      ops := ops[o := data];
    }
  }

  /** m after setting keys[i] to vals[i] for each i in order (a later key wins). */
  function UpdateAll<K, V>(m: map<K, V>, keys: seq<K>, vals: seq<V>): map<K, V>
    requires |keys| <= |vals|
    decreases |keys|
  {
    if keys == [] then m
    else UpdateAll(m, keys[..|keys| - 1], vals)[keys[|keys| - 1] := vals[|keys| - 1]]
  }

  /** Setting a list of keys leaves every key that does not appear in it untouched. */
  lemma {:induction false} UpdateAllUntouched<K, V>(m: map<K, V>, keys: seq<K>, vals: seq<V>, o: K)
    requires |keys| <= |vals| && o !in keys
    ensures (o in UpdateAll(m, keys, vals) <==> o in m)
    ensures o in m ==> UpdateAll(m, keys, vals)[o] == m[o]
    decreases |keys|
  {
    if keys != [] {
      UpdateAllUntouched(m, keys[..|keys| - 1], vals, o);
    }
  }

  /** After setting a list of keys, a key holds the value of the last index it appears at. */
  lemma {:induction false} UpdateAllLastWins<K, V>(m: map<K, V>, keys: seq<K>, vals: seq<V>, i: nat)
    requires |keys| <= |vals| && i < |keys|
    requires forall j :: i < j < |keys| ==> keys[j] != keys[i]
    ensures keys[i] in UpdateAll(m, keys, vals) && UpdateAll(m, keys, vals)[keys[i]] == vals[i]
    decreases |keys|
  {
    var init := keys[..|keys| - 1];
    if i < |keys| - 1 {
      assert init[i] == keys[i];
      assert forall j :: i < j < |init| ==> init[j] == keys[j];
      UpdateAllLastWins(m, init, vals, i);
    }
  }

  /** With pairwise distinct keys, starting from the empty map: exactly the listed keys, each with
   *  its own value. */
  lemma UpdateAllDistinct<K, V>(keys: seq<K>, vals: seq<V>)
    requires |keys| <= |vals|
    requires forall i, j :: 0 <= i < j < |keys| ==> keys[i] != keys[j]
    ensures forall o :: o in UpdateAll(map[], keys, vals) <==> o in keys
    ensures forall i :: 0 <= i < |keys| ==> UpdateAll(map[], keys, vals)[keys[i]] == vals[i]
  {
    forall o
      ensures o in UpdateAll(map[], keys, vals) <==> o in keys
    {
      if o in keys {
        var i :| 0 <= i < |keys| && keys[i] == o;
        UpdateAllLastWins(map[], keys, vals, i);
      } else {
        UpdateAllUntouched(map[], keys, vals, o);
      }
    }
    forall i | 0 <= i < |keys|
      ensures UpdateAll(map[], keys, vals)[keys[i]] == vals[i]
    {
      UpdateAllLastWins(map[], keys, vals, i);
    }
  }

  /** The calls that writing the slots of `roles` in order records. */
  function WriteCalls(roles: seq<Role>): (r: seq<PkCall>)
    ensures |r| == |roles|
    ensures forall i :: 0 <= i < |roles| ==> r[i] == Write(roles[i]) && IsSlotWrite(r[i])
  {
    seq(|roles|, i requires 0 <= i < |roles| => Write(roles[i]))
  }

  /** Write data[i] to the slot of roles[i] for each i in order (the op2vmem sequences of the
   *  wrappers). */
  method WriteSlots(req: PkRequest, roles: seq<Role>, data: seq<seq<byte>>)
    requires |roles| == |data|
    modifies req
    ensures req.cmd == old(req.cmd) && req.opsize == old(req.opsize) && req.outputs == old(req.outputs)
    ensures req.slots == UpdateAll(old(req.slots), roles, data)
    ensures req.calls == old(req.calls) + WriteCalls(roles)
  {
    for i := 0 to |roles|
      invariant req.cmd == old(req.cmd) && req.opsize == old(req.opsize) && req.outputs == old(req.outputs)
      invariant req.slots == UpdateAll(old(req.slots), roles[..i], data)
      invariant req.calls == old(req.calls) + WriteCalls(roles[..i])
    {
      assert roles[..i + 1][..i] == roles[..i];
      assert WriteCalls(roles[..i + 1]) == WriteCalls(roles[..i]) + [Write(roles[i])];
      req.WriteSlot(roles[i], data[i]);
    }
    assert roles[..|roles|] == roles;
  }

  /** sx_pk_mem2op of outputs[i] into refs[i] for each i in order. */
  method StoreOutputs(store: OperandStore, refs: seq<OpRef>, outputs: seq<seq<byte>>)
    requires |refs| <= |outputs|
    modifies store
    ensures store.ops == UpdateAll(old(store.ops), refs, outputs)
  {
    for i := 0 to |refs|
      invariant store.ops == UpdateAll(old(store.ops), refs[..i], outputs)
    {
      assert refs[..i + 1][..i] == refs[..i];
      store.Store(refs[i], outputs[i]);
    }
    assert refs[..|refs|] == refs;
  }

  /** The sequence the GF(p) wrappers share: select cmd, list the operand sizes, write each
   *  operand to its slot, run, wait and, when `fetch` is set and the wait succeeded, fetch the
   *  output operands. A failed listing returns at once. */
  method GfpRequest(req: PkRequest, cmd: Command, sizes: seq<nat>, roles: seq<Role>, data: seq<seq<byte>>, fetch: bool)
    returns (status: Status, outs: seq<seq<byte>>, ghost list: Status, ghost wait: Status)
    requires |roles| == |data|
    modifies req
    ensures req.calls == old(req.calls) + Protocol(cmd, ListGfpSlots(sizes, list), WriteCalls(roles), wait, fetch)
    ensures status == FirstFailure(list, wait)
    ensures req.cmd == cmd
    ensures list.Ok? ==> req.slots == UpdateAll(map[], roles, data)
    ensures list.Ok? ==> |req.outputs| == OutputCount(cmd) && forall i :: 0 <= i < |req.outputs| ==> |req.outputs[i]| == req.opsize
    ensures list.Ok? ==> forall i :: 0 <= i < |sizes| ==> sizes[i] <= req.opsize
    ensures status.Ok? && fetch ==> outs == req.outputs
    ensures old(req.Valid()) && old(req.State()) != Running ==> req.Valid() && req.State() != Running
  {
    var writes := WriteCalls(roles);
    outs := [];
    req.SetCmd(cmd);
    status := req.ListGfpInslots(sizes);
    list, wait := status, Ok;
    if status != Ok {
      ProtocolStopped(cmd, ListGfpSlots(sizes, list), writes, wait, fetch);
      KeepsConforming(old(req.calls), cmd, ListGfpSlots(sizes, list), writes, wait, fetch);
      return;
    }
    ghost var listed := req.calls;
    status, outs := WriteRunFetch(req, roles, data, fetch);
    wait := status;
    ghost var tail := writes + [RunCall, WaitCall(wait)] + (if wait.Ok? && fetch then [GetOutputs] else []);
    assert req.calls == listed + tail;
    assert Protocol(cmd, ListGfpSlots(sizes, list), writes, wait, fetch) == [SetCmdCall(cmd), ListGfpSlots(sizes, list)] + tail;
    KeepsConforming(old(req.calls), cmd, ListGfpSlots(sizes, list), writes, wait, fetch);
  }

  /** The part of a request after a successful listing: write the operands, run, wait and, when
   *  the caller wants them, fetch the outputs of a successful run. */
  method WriteRunFetch(req: PkRequest, roles: seq<Role>, data: seq<seq<byte>>, fetch: bool)
    returns (status: Status, outs: seq<seq<byte>>)
    requires |roles| == |data|
    modifies req
    ensures req.calls == old(req.calls) + WriteCalls(roles) + [RunCall, WaitCall(status)]
                         + (if status.Ok? && fetch then [GetOutputs] else [])
    ensures req.cmd == old(req.cmd) && req.opsize == old(req.opsize)
    ensures req.slots == UpdateAll(old(req.slots), roles, data)
    ensures |req.outputs| == OutputCount(req.cmd) && forall i :: 0 <= i < |req.outputs| ==> |req.outputs[i]| == req.opsize
    ensures outs == if status.Ok? && fetch then req.outputs else []
  {
    outs := [];
    WriteSlots(req, roles, data);
    status := RunAndWait(req);
    if status.Ok? && fetch {
      outs := req.GetOutputOps();
    } else {
      assert req.calls + [] == req.calls;
    }
  }

  /** The same sequence for the elliptic-curve wrappers: the slots are listed for a curve whose
   *  operand width is `width`. */
  method EccRequest(req: PkRequest, cmd: Command, width: nat, roles: seq<Role>, data: seq<seq<byte>>, fetch: bool)
    returns (status: Status, outs: seq<seq<byte>>, ghost list: Status, ghost wait: Status)
    requires |roles| == |data|
    modifies req
    ensures req.calls == old(req.calls) + Protocol(cmd, ListEccSlots(width, list), WriteCalls(roles), wait, fetch)
    ensures status == FirstFailure(list, wait)
    ensures req.cmd == cmd
    ensures list.Ok? ==> req.opsize == width && req.slots == UpdateAll(map[], roles, data)
    ensures list.Ok? ==> |req.outputs| == OutputCount(cmd) && forall i :: 0 <= i < |req.outputs| ==> |req.outputs[i]| == width
    ensures status.Ok? && fetch ==> outs == req.outputs
    ensures old(req.Valid()) && old(req.State()) != Running ==> req.Valid() && req.State() != Running
  {
    var writes := WriteCalls(roles);
    outs := [];
    req.SetCmd(cmd);
    status := req.ListEccInslots(width);
    list, wait := status, Ok;
    if status != Ok {
      ProtocolStopped(cmd, ListEccSlots(width, list), writes, wait, fetch);
      KeepsConforming(old(req.calls), cmd, ListEccSlots(width, list), writes, wait, fetch);
      return;
    }
    ghost var listed := req.calls;
    status, outs := WriteRunFetch(req, roles, data, fetch);
    wait := status;
    ghost var tail := writes + [RunCall, WaitCall(wait)] + (if wait.Ok? && fetch then [GetOutputs] else []);
    assert req.calls == listed + tail;
    assert Protocol(cmd, ListEccSlots(width, list), writes, wait, fetch) == [SetCmdCall(cmd), ListEccSlots(width, list)] + tail;
    KeepsConforming(old(req.calls), cmd, ListEccSlots(width, list), writes, wait, fetch);
  }
}
