/** The controller as a value: its registers and queues, and the meaning of every step the host can cause. */
module ControllerState {
  import opened Bytes
  import opened NvmeSpec
  import opened GuestMemory
  import opened KvSlots
  import opened KvMap
  import opened Queues

  // Register offsets.
  const REG_CAP := 0x00
  const REG_VS := 0x08
  const REG_INTMS := 0x0c
  const REG_INTMC := 0x10
  const REG_CC := 0x14
  const REG_CSTS := 0x1c
  const REG_AQA := 0x24
  const REG_ASQ := 0x28
  const REG_ACQ := 0x30
  const REG_FILE_SIZE := 0x40
  const REG_DOORBELL := 0x1000

  const CC_EN: bv32 := 0x1
  const CC_SHN_MASK: bv32 := 0xc000
  const CSTS_RDY: bv32 := 0x1
  const CSTS_SHST_MASK: bv32 := 0xc
  const CSTS_SHST_COMPLETE: bv32 := 0x8

  // MQES=1023, CQR, TO=0xf, and the two command-set bits.
  const CAP_VALUE: u64 := 0x0000_0820_0f01_03ff
  const VS_VALUE: u32 := 0x0002_0000

  // Admin opcodes.
  const ADM_DELETE_SQ := 0x00
  const ADM_CREATE_SQ := 0x01
  const ADM_GET_LOG_PAGE := 0x02
  const ADM_DELETE_CQ := 0x04
  const ADM_CREATE_CQ := 0x05
  const ADM_IDENTIFY := 0x06
  const ADM_SET_FEATURES := 0x09
  const ADM_GET_FEATURES := 0x0a
  const ADM_ASYNC_EVENT := 0x0c
  const FEAT_NUM_QUEUES := 0x07
  const FEAT_KV_EDNEK := 0x20

  datatype Regs = Regs(cap: u64, vs: u32, intms: u32, intmc: u32, cc: bv32, csts: bv32,
                       aqa: u32, asq: u64, acq: u64)

  datatype Ctrl = Ctrl(r: Regs, sq: seq<Sq>, cq: seq<Cq>, ns: Ns)

  // The controller, guest memory, and the tick of the environment.
  datatype Sys = Sys(c: Ctrl, mem: seq<byte>, now: nat)

  // A completion handed to the host: where, what, which vector, and whether the write reached memory.
  datatype Posting = Posting(cqid: nat, addr: u64, cqe: Cqe, irq: nat, delivered: bool)

  // One fetched command: its queue and ring index, the tick it ran at, the entry, the bytes its PRPs delivered,
  // the payload it sent through them, and how it ended.
  datatype Entry = Entry(qid: nat, index: nat, tick: nat, sqe: Sqe, data: Inbound, sent: Option<seq<byte>>,
                         cdw0: u32, status: u16, posted: Option<Posting>)

  ghost predicate QueuesOk(c: Ctrl) {
    match c
    case Ctrl(_, sq, cq, _) =>
      && |sq| == |cq| == MAX_QUEUES
      && (forall q :: 0 <= q < MAX_QUEUES ==> SqOk(sq[q]))
      && (forall q :: 0 <= q < MAX_QUEUES ==> CqOk(cq[q]))
  }

  ghost predicate CtrlOk(c: Ctrl) { QueuesOk(c) && NsOk(c.ns) }

  function NewCtrl(maxKeys: nat): Ctrl {
    Ctrl(Regs(CAP_VALUE, VS_VALUE, 0, 0, 0, 0, 0, 0, 0),
         seq(MAX_QUEUES, _ => ZERO_SQ), seq(MAX_QUEUES, _ => ZERO_CQ), NewNs(maxKeys))
  }

  // ---------------------------------------------------------------- enable, disable, shutdown, reset

  function AdminSq(r: Regs): Sq { Sq(r.asq, r.aqa % 0x1000 + 1, 0, 0, 0, 0, true) }

  function AdminCq(r: Regs): Cq { Cq(r.acq, r.aqa / 0x1_0000 % 0x1000 + 1, 0, 0, 0, 1, 0, true) }

  function Enable(c: Ctrl): (d: Ctrl)
    requires |c.sq| == |c.cq| == MAX_QUEUES
    ensures |d.sq| == |d.cq| == MAX_QUEUES
  {
    c.(r := c.r.(csts := CSTS_RDY), sq := c.sq[0 := AdminSq(c.r)], cq := c.cq[0 := AdminCq(c.r)])
  }

  function DownSqs(sq: seq<Sq>): (d: seq<Sq>)
    ensures |d| == |sq| && forall i :: 0 <= i < |sq| ==> d[i] == sq[i].(enabled := false)
  {
    seq(|sq|, i requires 0 <= i < |sq| => sq[i].(enabled := false))
  }

  function DownCqs(cq: seq<Cq>): (d: seq<Cq>)
    ensures |d| == |cq| && forall i :: 0 <= i < |cq| ==> d[i] == cq[i].(enabled := false)
  {
    seq(|cq|, i requires 0 <= i < |cq| => cq[i].(enabled := false))
  }

  function QueuesDown(c: Ctrl): (d: Ctrl)
    ensures |d.sq| == |c.sq| && |d.cq| == |c.cq|
  {
    c.(sq := DownSqs(c.sq), cq := DownCqs(c.cq))
  }

  function ClearStatus(csts: bv32): bv32 { csts & !(CSTS_RDY | CSTS_SHST_MASK) }
  function ShutdownNormal(csts: bv32): bv32 { csts & !CSTS_SHST_MASK }
  function ShutdownComplete(csts: bv32): bv32 { (csts & !CSTS_SHST_MASK) | CSTS_SHST_COMPLETE }

  function Disable(c: Ctrl): (d: Ctrl)
    ensures |d.sq| == |c.sq| && |d.cq| == |c.cq|
  {
    var d := QueuesDown(c);
    d.(r := d.r.(csts := ClearStatus(d.r.csts)))
  }

  function ResetCtrl(c: Ctrl): Ctrl {
    var d := Disable(c);
    d.(r := d.r.(cc := 0, csts := 0, aqa := 0, asq := 0, acq := 0, intms := 0, intmc := 0))
  }

  predicate Enabled(cc: bv32) { cc & CC_EN != 0 }
  predicate ShuttingDown(cc: bv32) { cc & CC_SHN_MASK != 0 }

  // CC.EN going up or down.
  function EnableEdge(c: Ctrl, was: bv32, v: bv32): (d: Ctrl)
    requires |c.sq| == |c.cq| == MAX_QUEUES
    ensures |d.sq| == |d.cq| == MAX_QUEUES
  {
    if Enabled(v) && !Enabled(was) then Enable(c)
    else if !Enabled(v) && Enabled(was) then Disable(c)
    else c
  }

  // CC.SHN becoming nonzero or zero.
  function ShutdownEdge(c: Ctrl, was: bv32, v: bv32): (d: Ctrl)
    ensures |d.sq| == |c.sq| && |d.cq| == |c.cq|
  {
    if ShuttingDown(v) && !ShuttingDown(was) then
      var d := QueuesDown(c);
      d.(r := d.r.(csts := ShutdownComplete(d.r.csts)))
    else if !ShuttingDown(v) && ShuttingDown(was) then
      c.(r := c.r.(csts := ShutdownNormal(c.r.csts)))
    else c
  }

  function WriteCc(c: Ctrl, v: bv32): (d: Ctrl)
    requires |c.sq| == |c.cq| == MAX_QUEUES
    ensures |d.sq| == |d.cq| == MAX_QUEUES
  {
    ShutdownEdge(EnableEdge(c.(r := c.r.(cc := v)), c.r.cc, v), c.r.cc, v)
  }

  // ---------------------------------------------------------------- register access

  function SetLow(reg: u64, v: nat): u64 { reg / TWO32 * TWO32 + v % TWO32 }
  function SetHigh(reg: u64, v: nat): u64 { reg % TWO32 + v % TWO32 * TWO32 }

  function RegWrite(c: Ctrl, offset: nat, v: u64, count: nat): Ctrl
    requires |c.sq| == |c.cq| == MAX_QUEUES
  {
    if offset == REG_INTMS then c.(r := c.r.(intms := v % TWO32))
    else if offset == REG_INTMC then c.(r := c.r.(intmc := v % TWO32))
    else if offset == REG_CC then WriteCc(c, (v % TWO32) as bv32)
    else if offset == REG_AQA then c.(r := c.r.(aqa := v % TWO32))
    else if offset == REG_ASQ then c.(r := c.r.(asq := if count == 8 then v else SetLow(c.r.asq, v)))
    else if offset == REG_ASQ + 4 then c.(r := c.r.(asq := SetHigh(c.r.asq, v)))
    else if offset == REG_ACQ then c.(r := c.r.(acq := if count == 8 then v else SetLow(c.r.acq, v)))
    else if offset == REG_ACQ + 4 then c.(r := c.r.(acq := SetHigh(c.r.acq, v)))
    else c
  }

  function AsNumber(x: bv32): u32 { x as int }

  function RegFile(r: Regs): (f: seq<byte>)
    ensures |f| == REG_FILE_SIZE
  {
    var f := Poke(Zeros(REG_FILE_SIZE), REG_CAP, WrLe(8, r.cap));
    var f := Poke(f, REG_VS, WrLe(4, r.vs));
    var f := Poke(f, REG_INTMS, WrLe(4, r.intms));
    var f := Poke(f, REG_INTMC, WrLe(4, r.intmc));
    var f := Poke(f, REG_CC, WrLe(4, AsNumber(r.cc)));
    var f := Poke(f, REG_CSTS, WrLe(4, AsNumber(r.csts)));
    var f := Poke(f, REG_AQA, WrLe(4, r.aqa));
    var f := Poke(f, REG_ASQ, WrLe(8, r.asq));
    Poke(f, REG_ACQ, WrLe(8, r.acq))
  }

  function RegRead(r: Regs, offset: nat, count: nat): (b: seq<byte>)
    ensures |b| == count
  {
    if offset + count <= REG_FILE_SIZE then Peek(RegFile(r), offset, count) else Zeros(count)
  }

  // ---------------------------------------------------------------- admin commands

  datatype AdminOut = AdminOut(c: Ctrl, mem: seq<byte>, status: u16, cdw0: u32)

  const ID_CNS := {0x00, 0x01, 0x02, 0x03, 0x05, 0x06, 0x08, 0x1c}

  function IdentifyPage(env: Env, cns: nat, csi: nat, ns: Ns): (p: seq<byte>)
    ensures |p| == PAGE_SIZE
  {
    var p := env.page(cns, csi, Nsze(ns), ns.nuse);
    if |p| == PAGE_SIZE then p else Zeros(PAGE_SIZE)
  }

  function Identify(env: Env, t: nat, c: Ctrl, mem: seq<byte>, e: Sqe): AdminOut {
    var cns, csi := Cdw10(e) % 0x100, Cdw11(e) / 0x100_0000 % 0x100;
    if cns !in ID_CNS then AdminOut(c, mem, INVALID_FIELD + DNR, 0)
    else
      var p := IdentifyPage(env, cns, csi, c.ns);
      var m := PrpWrite(env, t + 1, mem, Prp1(e), Prp2(e), p);
      AdminOut(c, m, if PrpOk(env, t + 1, Prp1(e), Prp2(e), PAGE_SIZE, |mem|) then SUCCESS else INVALID_FIELD + DNR, 0)
  }

  function SetFeatures(c: Ctrl, mem: seq<byte>, e: Sqe): AdminOut {
    var fid := Cdw10(e) % 0x100;
    if fid == FEAT_NUM_QUEUES then
      var gs := Min(Cdw11(e) % TWO16, MAX_QUEUES - 2);
      var gc := Min(Cdw11(e) / TWO16, MAX_QUEUES - 2);
      AdminOut(c, mem, SUCCESS, gc * TWO16 + gs)
    else if fid == FEAT_KV_EDNEK then AdminOut(c.(ns := c.ns.(ednek := Cdw11(e))), mem, SUCCESS, 0)
    else AdminOut(c, mem, SUCCESS, 0)
  }

  function GetFeatures(c: Ctrl, mem: seq<byte>, e: Sqe): AdminOut {
    var fid := Cdw10(e) % 0x100;
    if fid == FEAT_NUM_QUEUES then AdminOut(c, mem, SUCCESS, (MAX_QUEUES - 2) * TWO16 + (MAX_QUEUES - 2))
    else if fid == FEAT_KV_EDNEK then AdminOut(c, mem, SUCCESS, c.ns.ednek)
    else AdminOut(c, mem, SUCCESS, 0)
  }

  function Qid(e: Sqe): u16 { Cdw10(e) % TWO16 }
  function Qsize(e: Sqe): nat { Cdw10(e) / TWO16 + 1 }

  predicate BadQid(q: u16) { q == 0 || q >= MAX_QUEUES }

  function CreateCq(c: Ctrl, e: Sqe): (Ctrl, u16)
    requires |c.cq| == MAX_QUEUES
  {
    var q := Qid(e);
    if BadQid(q) then (c, INVALID_QID + DNR)
    else (c.(cq := c.cq[q := Cq(Prp1(e), Qsize(e), q, 0, 0, 1, Cdw11(e) / TWO16, true)]), SUCCESS)
  }

  function CreateSq(c: Ctrl, e: Sqe): (Ctrl, u16)
    requires |c.sq| == |c.cq| == MAX_QUEUES
  {
    var q, cqid := Qid(e), Cdw11(e) / TWO16;
    if BadQid(q) || cqid >= MAX_QUEUES || !c.cq[cqid].enabled then (c, INVALID_QID + DNR)
    else (c.(sq := c.sq[q := Sq(Prp1(e), Qsize(e), q, cqid, 0, 0, true)]), SUCCESS)
  }

  function DeleteCq(c: Ctrl, e: Sqe): (Ctrl, u16)
    requires |c.cq| == MAX_QUEUES
  {
    var q := Qid(e);
    if BadQid(q) then (c, INVALID_QID + DNR) else (c.(cq := c.cq[q := c.cq[q].(enabled := false)]), SUCCESS)
  }

  function DeleteSq(c: Ctrl, e: Sqe): (Ctrl, u16)
    requires |c.sq| == MAX_QUEUES
  {
    var q := Qid(e);
    if BadQid(q) then (c, INVALID_QID + DNR) else (c.(sq := c.sq[q := c.sq[q].(enabled := false)]), SUCCESS)
  }

  function QueueCommand(r: (Ctrl, u16), mem: seq<byte>): AdminOut { AdminOut(r.0, mem, r.1, 0) }

  function AdminExec(env: Env, t: nat, c: Ctrl, mem: seq<byte>, e: Sqe): AdminOut
    requires |c.sq| == |c.cq| == MAX_QUEUES
  {
    var op := e[0];
    if op == ADM_IDENTIFY then Identify(env, t, c, mem, e)
    else if op == ADM_SET_FEATURES then SetFeatures(c, mem, e)
    else if op == ADM_GET_FEATURES then GetFeatures(c, mem, e)
    else if op == ADM_CREATE_CQ then QueueCommand(CreateCq(c, e), mem)
    else if op == ADM_CREATE_SQ then QueueCommand(CreateSq(c, e), mem)
    else if op == ADM_DELETE_CQ then QueueCommand(DeleteCq(c, e), mem)
    else if op == ADM_DELETE_SQ then QueueCommand(DeleteSq(c, e), mem)
    else if op == ADM_GET_LOG_PAGE then AdminOut(c, mem, SUCCESS, 0)
    else if op == ADM_ASYNC_EVENT then AdminOut(c, mem, NO_COMPLETE, 0)
    else AdminOut(c, mem, INVALID_OPCODE + DNR, 0)
  }

  // ---------------------------------------------------------------- key-value commands

  // What the command's PRPs hold when it runs.
  function Delivered(env: Env, t: nat, mem: seq<byte>, e: Sqe): (x: Inbound)
    ensures DeliveredOk(KvOf(e), x)
  {
    var cmd := KvOf(e);
    PrpRead(env, t + 1, mem, cmd.prp1, cmd.prp2, cmd.hbs)
  }

  function IoExec(env: Env, t: nat, c: Ctrl, mem: seq<byte>, e: Sqe): AdminOut
    requires Shape(c.ns)
  {
    var cmd := KvOf(e);
    var (ns, r) := KvExec(c.ns, cmd, Delivered(env, t, mem, e), env, t);
    AdminOut(c.(ns := ns), FinalMem(r, env, t, mem, cmd), FinalStatus(r, env, t, |mem|, cmd), 0)
  }

  function Exec(env: Env, t: nat, q: nat, c: Ctrl, mem: seq<byte>, e: Sqe): AdminOut
    requires |c.sq| == |c.cq| == MAX_QUEUES && Shape(c.ns)
  {
    if q == 0 then AdminExec(env, t, c, mem, e) else IoExec(env, t, c, mem, e)
  }

  // The payload a command sends through its PRPs, if any.
  function Sent(env: Env, t: nat, q: nat, ns: Ns, e: Sqe, x: Inbound): Option<seq<byte>>
    requires Shape(ns) && DeliveredOk(KvOf(e), x)
  {
    if q == 0 then
      var cns, csi := Cdw10(e) % 0x100, Cdw11(e) / 0x100_0000 % 0x100;
      if e[0] == ADM_IDENTIFY && cns in ID_CNS then Some(IdentifyPage(env, cns, csi, ns)) else None
    else Payload(KvExec(ns, KvOf(e), x, env, t).1)
  }

  // Guest memory after a payload has gone out through the command's PRPs.
  function SentMem(env: Env, t: nat, mem: seq<byte>, e: Sqe, sent: Option<seq<byte>>): (m: seq<byte>)
    ensures |m| == |mem|
  {
    match sent
    case None => mem
    case Some(p) => PrpWrite(env, t + 1, mem, Prp1(e), Prp2(e), p)
  }

  // A command touches guest memory only through the payload it sends.
  lemma ExecMem(env: Env, t: nat, q: nat, c: Ctrl, mem: seq<byte>, e: Sqe)
    requires |c.sq| == |c.cq| == MAX_QUEUES && Shape(c.ns)
    ensures Exec(env, t, q, c, mem, e).mem
         == SentMem(env, t, mem, e, Sent(env, t, q, c.ns, e, Delivered(env, t, mem, e)))
  {
  }

  // ---------------------------------------------------------------- completions

  function Post(env: Env, t: nat, c: Ctrl, mem: seq<byte>, cqid: nat, sqid: u16, head: u16, cid: u16,
                cdw0: u32, status: u16): (r: (Ctrl, seq<byte>, Option<Posting>))
    requires cqid < |c.cq|
    ensures |r.1| == |mem|
  {
    var q := c.cq[cqid];
    if !q.enabled then (c, mem, None)
    else
      var cqe := MakeCqe(cdw0, head, sqid, cid, status, q.phase);
      (c.(cq := c.cq[cqid := Advance(q)]), GpaWrite(env, t + 3, mem, CqeAddr(q), cqe),
       Some(Posting(cqid, CqeAddr(q), cqe, q.irq, GpaOk(env, t + 3, CqeAddr(q), CQE_SIZE, |mem|))))
  }

  // ---------------------------------------------------------------- the queue engine

  function Fetch(env: Env, s: Sys, q: nat): Inbound
    requires q < |s.c.sq|
  {
    GpaRead(env, s.now, s.mem, SqeAddr(s.c.sq[q]), SQE_SIZE)
  }

  function StepHead(c: Ctrl, q: nat): Ctrl
    requires q < |c.sq| && c.sq[q].size > 0
  {
    c.(sq := c.sq[q := c.sq[q].(head := (c.sq[q].head + 1) % c.sq[q].size % TWO16)])
  }

  // The end of a command taken from queue record r (its head already advanced): complete it unless it stays open.
  function Finish(env: Env, t: nat, q: u16, index: nat, r: Sq, e: Sqe, x: Inbound,
                  sent: Option<seq<byte>>, o: AdminOut): (Sys, Entry)
    requires r.cqid < |o.c.cq|
  {
    if o.status == NO_COMPLETE then
      (Sys(o.c, o.mem, t + 4), Entry(q, index, t, e, x, sent, o.cdw0, o.status, None))
    else
      var (c', m', p) := Post(env, t, o.c, o.mem, r.cqid, q, r.head, Cid(e), o.cdw0, o.status);
      (Sys(c', m', t + 4), Entry(q, index, t, e, x, sent, o.cdw0, o.status, p))
  }

  // Execute and complete one fetched entry.
  function Serve(env: Env, s: Sys, q: nat, e: Sqe): (Sys, Entry)
    requires CtrlOk(s.c) && q < MAX_QUEUES && s.c.sq[q].enabled
  {
    var c := StepHead(s.c, q);
    ExecShape(env, s.now, q, c, s.mem, e);
    var x := Delivered(env, s.now, s.mem, e);
    Finish(env, s.now, q, s.c.sq[q].head, c.sq[q], e, x, Sent(env, s.now, q, s.c.ns, e, x),
           Exec(env, s.now, q, c, s.mem, e))
  }

  lemma ExecShape(env: Env, t: nat, q: nat, c: Ctrl, mem: seq<byte>, e: Sqe)
    requires |c.sq| == |c.cq| == MAX_QUEUES && Shape(c.ns)
    ensures |Exec(env, t, q, c, mem, e).c.sq| == |Exec(env, t, q, c, mem, e).c.cq| == MAX_QUEUES
  {
  }

  // What an admin command leaves alone: the registers, and the admin queue pair.
  lemma AdminKeeps(env: Env, t: nat, c: Ctrl, mem: seq<byte>, e: Sqe)
    requires CtrlOk(c)
    ensures var o := AdminExec(env, t, c, mem, e);
            && CtrlOk(o.c) && |o.mem| == |mem|
            && o.c.sq[0] == c.sq[0] && o.c.cq[0] == c.cq[0] && o.c.r == c.r
            && o.c.ns == c.ns.(ednek := o.c.ns.ednek)
  {
  }

  lemma IoKeeps(env: Env, t: nat, c: Ctrl, mem: seq<byte>, e: Sqe)
    requires CtrlOk(c)
    ensures var o := IoExec(env, t, c, mem, e);
            && NsOk(o.c.ns) && o.c == c.(ns := o.c.ns) && |o.mem| == |mem| && o.c.ns.maxKeys == c.ns.maxKeys
            && o.status < 0x8000 && o.cdw0 == 0
  {
    ReplySmall(c.ns, KvOf(e), Delivered(env, t, mem, e), env, t, |mem|);
    KvRefines(c.ns, KvOf(e), Delivered(env, t, mem, e), env, t);
  }

  lemma PostKeeps(env: Env, t: nat, c: Ctrl, mem: seq<byte>, cqid: nat, sqid: u16, head: u16, cid: u16,
                  cdw0: u32, status: u16)
    requires CtrlOk(c) && cqid < MAX_QUEUES
    ensures var r := Post(env, t, c, mem, cqid, sqid, head, cid, cdw0, status);
            CtrlOk(r.0) && r.0 == c.(cq := r.0.cq)
            && r.0.cq == c.cq[cqid := if c.cq[cqid].enabled then Advance(c.cq[cqid]) else c.cq[cqid]]
  {
    if c.cq[cqid].enabled {
      AdvanceOk(c.cq[cqid]);
    }
  }

  lemma StepHeadKeeps(c: Ctrl, q: nat)
    requires CtrlOk(c) && q < MAX_QUEUES && c.sq[q].enabled
    ensures CtrlOk(StepHead(c, q)) && StepHead(c, q).sq[q].enabled
    ensures c.sq[q].head != c.sq[q].tail ==> Backlog(StepHead(c, q).sq[q]) == Backlog(c.sq[q]) - 1
  {
    if c.sq[q].head != c.sq[q].tail {
      PendingStep(c.sq[q]);
    }
  }

  // Running a command changes neither the submission queue it came from nor the registers.
  lemma ExecKeeps(env: Env, t: nat, q: nat, c: Ctrl, mem: seq<byte>, e: Sqe)
    requires CtrlOk(c) && q < MAX_QUEUES
    ensures var o := Exec(env, t, q, c, mem, e);
            && CtrlOk(o.c) && |o.mem| == |mem| && o.c.sq[q] == c.sq[q] && o.c.r == c.r
            && o.c.ns.maxKeys == c.ns.maxKeys
  {
    if q == 0 {
      AdminKeeps(env, t, c, mem, e);
    } else {
      IoKeeps(env, t, c, mem, e);
    }
  }

  lemma ServeKeeps(env: Env, s: Sys, q: nat, e: Sqe)
    requires CtrlOk(s.c) && q < MAX_QUEUES && s.c.sq[q].enabled
    ensures var s' := Serve(env, s, q, e).0;
            && CtrlOk(s'.c) && |s'.mem| == |s.mem| && s'.now == s.now + 4
            && s'.c.sq[q] == StepHead(s.c, q).sq[q] && s'.c.r == s.c.r && s'.c.ns.maxKeys == s.c.ns.maxKeys
            && (s.c.sq[q].head != s.c.sq[q].tail ==> Backlog(s'.c.sq[q]) == Backlog(s.c.sq[q]) - 1)
  {
    var c := StepHead(s.c, q);
    StepHeadKeeps(s.c, q);
    ExecKeeps(env, s.now, q, c, s.mem, e);
    var o := Exec(env, s.now, q, c, s.mem, e);
    if o.status != NO_COMPLETE {
      PostKeeps(env, s.now, o.c, o.mem, c.sq[q].cqid, q, c.sq[q].head, Cid(e), o.cdw0, o.status);
    }
  }

  // nvme_process_sq: serve entries from head to tail; stop at the first that cannot be fetched.
  function ProcessSq(env: Env, s: Sys, q: nat): (Sys, seq<Entry>)
    requires CtrlOk(s.c) && q < MAX_QUEUES
    decreases Backlog(s.c.sq[q])
  {
    if !s.c.sq[q].enabled || s.c.sq[q].head == s.c.sq[q].tail then (s, [])
    else
      var f := Fetch(env, s, q);
      if !f.ok then (s.(now := s.now + 4), [])
      else
        ServeKeeps(env, s, q, f.data);
        var (s1, e) := Serve(env, s, q, f.data);
        var (s2, es) := ProcessSq(env, s1, q);
        (s2, [e] + es)
  }

  // The three ways a turn of the queue loop goes.
  lemma ProcessDone(env: Env, s: Sys, q: nat)
    requires CtrlOk(s.c) && q < MAX_QUEUES && (s.c.sq[q].enabled ==> s.c.sq[q].head == s.c.sq[q].tail)
    ensures ProcessSq(env, s, q) == (s, [])
  {
  }

  lemma ProcessStuck(env: Env, s: Sys, q: nat)
    requires CtrlOk(s.c) && q < MAX_QUEUES && s.c.sq[q].enabled && s.c.sq[q].head != s.c.sq[q].tail
    requires !Fetch(env, s, q).ok
    ensures ProcessSq(env, s, q) == (s.(now := s.now + 4), [])
  {
  }

  lemma ProcessTurn(env: Env, s: Sys, q: nat)
    requires CtrlOk(s.c) && q < MAX_QUEUES && s.c.sq[q].enabled && s.c.sq[q].head != s.c.sq[q].tail
    requires Fetch(env, s, q).ok
    ensures var (s1, e) := Serve(env, s, q, Fetch(env, s, q).data);
            && CtrlOk(s1.c) && s1.c.sq[q].enabled && Backlog(s1.c.sq[q]) == Backlog(s.c.sq[q]) - 1
            && s1.now == s.now + 4
            && ProcessSq(env, s, q) == (ProcessSq(env, s1, q).0, [e] + ProcessSq(env, s1, q).1)
  {
    ServeKeeps(env, s, q, Fetch(env, s, q).data);
  }

  // The controller stays well formed, and what no command can change is unchanged.
  ghost predicate Kept(s: Sys, s': Sys) {
    CtrlOk(s'.c) && |s'.mem| == |s.mem| && s'.c.ns.maxKeys == s.c.ns.maxKeys
  }

  lemma {:induction false} ProcessKeeps(env: Env, s: Sys, q: nat)
    requires CtrlOk(s.c) && q < MAX_QUEUES
    ensures Kept(s, ProcessSq(env, s, q).0) && ProcessSq(env, s, q).0.c.r == s.c.r
    decreases Backlog(s.c.sq[q])
  {
    if s.c.sq[q].enabled && s.c.sq[q].head != s.c.sq[q].tail && Fetch(env, s, q).ok {
      var e := Fetch(env, s, q).data;
      ServeKeeps(env, s, q, e);
      ProcessKeeps(env, Serve(env, s, q, e).0, q);
    }
  }

  // ---------------------------------------------------------------- BAR0

  // The queue a doorbell offset belongs to, and whether it is a completion queue's.
  function DoorbellQid(offset: nat): nat
    requires offset >= REG_DOORBELL
  {
    (offset - REG_DOORBELL) / 4 / 2 % TWO16
  }

  predicate DoorbellIsCq(offset: nat)
    requires offset >= REG_DOORBELL
  {
    (offset - REG_DOORBELL) / 4 % 2 == 1
  }

  function DoorbellValue(data: seq<byte>): u16 { RdLe(data) % TWO32 % TWO16 }

  // What the host owes the device: register accesses of at most 8 bytes, and tails inside their queue.
  ghost predicate WriteAllowed(c: Ctrl, offset: nat, data: seq<byte>) {
    && |data| <= 8
    && (offset >= REG_DOORBELL && !DoorbellIsCq(offset) && DoorbellQid(offset) < |c.sq| ==>
          var s := c.sq[DoorbellQid(offset)]; s.enabled ==> DoorbellValue(data) < s.size)
  }

  function RingDoorbell(c: Ctrl, q: nat, v: u16): Ctrl
    requires q < |c.sq|
  {
    c.(sq := c.sq[q := c.sq[q].(tail := v)])
  }

  function BarWrite(env: Env, s: Sys, offset: nat, data: seq<byte>): (Sys, seq<Entry>)
    requires CtrlOk(s.c) && WriteAllowed(s.c, offset, data)
  {
    if offset >= REG_DOORBELL then
      var q, v := DoorbellQid(offset), DoorbellValue(data);
      if q >= MAX_QUEUES then (s, [])
      else if DoorbellIsCq(offset) then
        (s.(c := s.c.(cq := s.c.cq[q := s.c.cq[q].(head := v)])), [])
      else ProcessSq(env, s.(c := RingDoorbell(s.c, q, v)), q)
    else
      PowBound(|data|);
      (s.(c := RegWrite(s.c, offset, RdLe(data), |data|)), [])
  }

  lemma EnableKeeps(c: Ctrl)
    requires QueuesOk(c)
    ensures QueuesOk(Enable(c))
  {
  }

  lemma DownKeeps(c: Ctrl)
    requires QueuesOk(c)
    ensures QueuesOk(QueuesDown(c)) && QueuesOk(Disable(c))
  {
  }

  lemma EnableEdgeKeeps(c: Ctrl, was: bv32, v: bv32)
    requires QueuesOk(c)
    ensures var d := EnableEdge(c, was, v);
            QueuesOk(d) && d.ns == c.ns && d.r.(csts := c.r.csts) == c.r
  {
    EnableKeeps(c);
    DownKeeps(c);
  }

  lemma ShutdownEdgeKeeps(c: Ctrl, was: bv32, v: bv32)
    requires QueuesOk(c)
    ensures var d := ShutdownEdge(c, was, v);
            QueuesOk(d) && d.ns == c.ns && d.r.(csts := c.r.csts) == c.r
  {
    DownKeeps(c);
  }

  lemma WriteCcKeeps(c: Ctrl, v: bv32)
    requires QueuesOk(c)
    ensures var d := WriteCc(c, v);
            QueuesOk(d) && d.ns == c.ns && d.r.(cc := c.r.cc, csts := c.r.csts) == c.r
  {
    var w := c.(r := c.r.(cc := v));
    EnableEdgeKeeps(w, c.r.cc, v);
    ShutdownEdgeKeeps(EnableEdge(w, c.r.cc, v), c.r.cc, v);
  }

  lemma RegWriteKeeps(c: Ctrl, offset: nat, v: u64, count: nat)
    requires CtrlOk(c)
    ensures CtrlOk(RegWrite(c, offset, v, count))
    ensures RegWrite(c, offset, v, count).ns == c.ns
    ensures RegWrite(c, offset, v, count).r.cap == c.r.cap && RegWrite(c, offset, v, count).r.vs == c.r.vs
  {
    WriteCcKeeps(c, (v % TWO32) as bv32);
  }

  lemma BarWriteKeeps(env: Env, s: Sys, offset: nat, data: seq<byte>)
    requires CtrlOk(s.c) && WriteAllowed(s.c, offset, data)
    ensures Kept(s, BarWrite(env, s, offset, data).0)
    ensures BarWrite(env, s, offset, data).0.c.r.cap == s.c.r.cap
    ensures BarWrite(env, s, offset, data).0.c.r.vs == s.c.r.vs
  {
    if offset < REG_DOORBELL {
      PowBound(|data|);
      RegWriteKeeps(s.c, offset, RdLe(data), |data|);
    } else if DoorbellQid(offset) < MAX_QUEUES && !DoorbellIsCq(offset) {
      ProcessKeeps(env, s.(c := RingDoorbell(s.c, DoorbellQid(offset), DoorbellValue(data))), DoorbellQid(offset));
    }
  }

  function BarRead(c: Ctrl, offset: nat, count: nat): (b: seq<byte>)
    ensures |b| == count
  {
    if offset >= REG_DOORBELL then Zeros(count) else RegRead(c.r, offset, count)
  }
}
