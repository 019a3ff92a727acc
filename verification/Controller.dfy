/** The controller object: registers and queue records updated in place by host accesses. */
module Controllers {
  import opened Bytes
  import opened NvmeSpec
  import opened GuestMemory
  import opened KvNamespaces
  import opened Queues
  import opened ControllerState

  class Controller {
    var cap: u64
    var vs: u32
    var intms: u32
    var intmc: u32
    var cc: bv32
    var csts: bv32
    var aqa: u32
    var asq: u64
    var acq: u64
    const sq: array<Sq>
    const cq: array<Cq>
    const ns: KvNamespace
    const bus: Bus

    ghost function RegsValue(): Regs
      reads this
    {
      Regs(cap, vs, intms, intmc, cc, csts, aqa, asq, acq)
    }

    ghost function Value(): Ctrl
      reads this, sq, cq, ns, ns.pairs
    {
      Ctrl(RegsValue(), sq[..], cq[..], ns.Value())
    }

    ghost function System(): Sys
      reads this, sq, cq, ns, ns.pairs, bus
    {
      Sys(Value(), bus.mem, bus.now)
    }

    ghost predicate Valid()
      reads this, sq, cq, ns, ns.pairs
    {
      CtrlOk(Value())
    }

    // nvme_ctrl_init
    constructor (maxNumKeys: nat, bus: Bus)
      requires maxNumKeys <= INT_MAX
      ensures Valid() && fresh(sq) && fresh(cq) && fresh(ns) && fresh(ns.pairs) && this.bus == bus
      ensures Value() == NewCtrl(maxNumKeys)
    {
      cap, vs, intms, intmc, cc, csts, aqa, asq, acq := CAP_VALUE, VS_VALUE, 0, 0, 0, 0, 0, 0, 0;
      sq := new Sq[MAX_QUEUES](_ => ZERO_SQ);
      cq := new Cq[MAX_QUEUES](_ => ZERO_CQ);
      ns := new KvNamespace(maxNumKeys);
      this.bus := bus;
      new;
      assert sq[..] == NewCtrl(maxNumKeys).sq && cq[..] == NewCtrl(maxNumKeys).cq;
    }

    method EnableController()
      requires sq.Length == cq.Length == MAX_QUEUES
      modifies this`csts, sq, cq
      ensures Value() == Enable(old(Value()))
    {
      sq[0] := Sq(asq, aqa % 0x1000 + 1, 0, 0, 0, 0, true);
      cq[0] := Cq(acq, aqa / 0x1_0000 % 0x1000 + 1, 0, 0, 0, 1, 0, true);
      csts := CSTS_RDY;
    }

    // nvme_queues_down
    method TakeQueuesDown()
      requires sq.Length == cq.Length == MAX_QUEUES
      modifies sq, cq
      ensures Value() == QueuesDown(old(Value()))
    {
      for i := 0 to MAX_QUEUES
        invariant forall j :: 0 <= j < MAX_QUEUES ==>
          sq[j] == if j < i then old(sq[j]).(enabled := false) else old(sq[j])
        invariant forall j :: 0 <= j < MAX_QUEUES ==>
          cq[j] == if j < i then old(cq[j]).(enabled := false) else old(cq[j])
      {
        sq[i] := sq[i].(enabled := false);
        cq[i] := cq[i].(enabled := false);
      }
      assert sq[..] == DownSqs(old(sq[..])) && cq[..] == DownCqs(old(cq[..]));
    }

    method DisableController()
      requires sq.Length == cq.Length == MAX_QUEUES
      modifies this`csts, sq, cq
      ensures Value() == Disable(old(Value()))
    {
      TakeQueuesDown();
      csts := ClearStatus(csts);
    }

    // nvme_ctrl_reset
    method Reset()
      requires sq.Length == cq.Length == MAX_QUEUES
      modifies this, sq, cq
      ensures Value() == ResetCtrl(old(Value()))
    {
      DisableController();
      cc, csts, aqa, asq, acq, intms, intmc := 0, 0, 0, 0, 0, 0, 0;
    }

    method OnEnableEdge(was: bv32)
      requires sq.Length == cq.Length == MAX_QUEUES
      modifies this`csts, sq, cq
      ensures Value() == EnableEdge(old(Value()), was, cc)
    {
      if Enabled(cc) && !Enabled(was) {
        EnableController();
      } else if !Enabled(cc) && Enabled(was) {
        DisableController();
      }
    }

    method OnShutdownEdge(was: bv32)
      requires sq.Length == cq.Length == MAX_QUEUES
      modifies this`csts, sq, cq
      ensures Value() == ShutdownEdge(old(Value()), was, cc)
    {
      if ShuttingDown(cc) && !ShuttingDown(was) {
        TakeQueuesDown();
        csts := ShutdownComplete(csts);
      } else if !ShuttingDown(cc) && ShuttingDown(was) {
        csts := ShutdownNormal(csts);
      }
    }

    method WriteCcReg(v: bv32)
      requires sq.Length == cq.Length == MAX_QUEUES
      modifies this`cc, this`csts, sq, cq
      ensures Value() == WriteCc(old(Value()), v)
    {
      var was := cc;
      cc := v;
      OnEnableEdge(was);
      OnShutdownEdge(was);
    }

    // nvme_reg_write
    method WriteReg(offset: nat, buf: seq<byte>)
      requires sq.Length == cq.Length == MAX_QUEUES && |buf| <= 8
      modifies this, sq, cq
      ensures RdLe(buf) < TWO64 && Value() == RegWrite(old(Value()), offset, RdLe(buf), |buf|)
    {
      var v := ReadLe(buf);
      if offset == REG_INTMS {
        intms := v % TWO32;
      } else if offset == REG_INTMC {
        intmc := v % TWO32;
      } else if offset == REG_CC {
        WriteCcReg((v % TWO32) as bv32);
      } else if offset == REG_AQA {
        aqa := v % TWO32;
      } else if offset == REG_ASQ {
        asq := if |buf| == 8 then v else SetLow(asq, v);
      } else if offset == REG_ASQ + 4 {
        asq := SetHigh(asq, v);
      } else if offset == REG_ACQ {
        acq := if |buf| == 8 then v else SetLow(acq, v);
      } else if offset == REG_ACQ + 4 {
        acq := SetHigh(acq, v);
      }
    }

    // nvme_reg_read
    method ReadReg(offset: nat, count: nat) returns (buf: seq<byte>)
      ensures buf == RegRead(RegsValue(), offset, count)
    {
      var regs := new byte[REG_FILE_SIZE](_ => 0);
      assert regs[..] == Zeros(REG_FILE_SIZE);
      WriteLe(regs, REG_CAP, 8, cap);
      WriteLe(regs, REG_VS, 4, vs);
      WriteLe(regs, REG_INTMS, 4, intms);
      WriteLe(regs, REG_INTMC, 4, intmc);
      WriteLe(regs, REG_CC, 4, cc as int);
      WriteLe(regs, REG_CSTS, 4, csts as int);
      WriteLe(regs, REG_AQA, 4, aqa);
      WriteLe(regs, REG_ASQ, 8, asq);
      WriteLe(regs, REG_ACQ, 8, acq);
      assert regs[..] == RegFile(RegsValue());
      if offset + count <= REG_FILE_SIZE {
        return Peek(regs[..], offset, count);
      }
      return Zeros(count);
    }

    // ---------------------------------------------------------------- admin commands

    method AdminIdentify(e: Sqe, t: nat) returns (status: u16)
      modifies bus`mem
      ensures (Value(), bus.mem, status) == var o := Identify(bus.env, t, old(Value()), old(bus.mem), e);
                                            (o.c, o.mem, o.status)
    {
      var cns, csi := Cdw10(e) % 0x100, Cdw11(e) / 0x100_0000 % 0x100;
      if cns !in ID_CNS {
        return INVALID_FIELD + DNR;
      }
      var page := bus.env.page(cns, csi, ns.maxKeys * FOOTPRINT, ns.nuse);
      if |page| != PAGE_SIZE {
        page := Zeros(PAGE_SIZE);
      }
      var ok, _ := bus.PrpXfer(t + 1, Prp1(e), Prp2(e), page, PAGE_SIZE, true);
      return if ok then SUCCESS else INVALID_FIELD + DNR;
    }

    method AdminCreateCq(e: Sqe) returns (status: u16)
      requires cq.Length == MAX_QUEUES
      modifies cq
      ensures (Value(), status) == CreateCq(old(Value()), e)
    {
      var qid := Qid(e);
      if qid == 0 || qid >= MAX_QUEUES {
        return INVALID_QID + DNR;
      }
      cq[qid] := Cq(Prp1(e), Qsize(e), qid, 0, 0, 1, Cdw11(e) / TWO16, true);
      return SUCCESS;
    }

    method AdminCreateSq(e: Sqe) returns (status: u16)
      requires sq.Length == cq.Length == MAX_QUEUES
      modifies sq
      ensures (Value(), status) == CreateSq(old(Value()), e)
    {
      var qid, cqid := Qid(e), Cdw11(e) / TWO16;
      if qid == 0 || qid >= MAX_QUEUES || cqid >= MAX_QUEUES || !cq[cqid].enabled {
        return INVALID_QID + DNR;
      }
      sq[qid] := Sq(Prp1(e), Qsize(e), qid, cqid, 0, 0, true);
      return SUCCESS;
    }

    method AdminDeleteCq(e: Sqe) returns (status: u16)
      requires cq.Length == MAX_QUEUES
      modifies cq
      ensures (Value(), status) == DeleteCq(old(Value()), e)
    {
      var qid := Qid(e);
      if qid == 0 || qid >= MAX_QUEUES {
        return INVALID_QID + DNR;
      }
      cq[qid] := cq[qid].(enabled := false);
      return SUCCESS;
    }

    method AdminDeleteSq(e: Sqe) returns (status: u16)
      requires sq.Length == MAX_QUEUES
      modifies sq
      ensures (Value(), status) == DeleteSq(old(Value()), e)
    {
      var qid := Qid(e);
      if qid == 0 || qid >= MAX_QUEUES {
        return INVALID_QID + DNR;
      }
      sq[qid] := sq[qid].(enabled := false);
      return SUCCESS;
    }

    method AdminSetFeatures(e: Sqe) returns (status: u16, cdw0: u32)
      modifies ns`ednek
      ensures AdminOut(Value(), bus.mem, status, cdw0) == SetFeatures(old(Value()), bus.mem, e)
    {
      var fid := Cdw10(e) % 0x100;
      status, cdw0 := SUCCESS, 0;
      if fid == FEAT_NUM_QUEUES {
        var gs := Min(Cdw11(e) % TWO16, MAX_QUEUES - 2);
        var gc := Min(Cdw11(e) / TWO16, MAX_QUEUES - 2);
        cdw0 := gc * TWO16 + gs;
      } else if fid == FEAT_KV_EDNEK {
        ns.ednek := Cdw11(e);
      }
    }

    method AdminGetFeatures(e: Sqe) returns (status: u16, cdw0: u32)
      ensures AdminOut(Value(), bus.mem, status, cdw0) == GetFeatures(Value(), bus.mem, e)
      ensures IsGet(e, FEAT_KV_EDNEK) ==> cdw0 == ns.ednek
      ensures IsGet(e, FEAT_NUM_QUEUES) ==>
        cdw0 / TWO16 == cdw0 % TWO16 && forall q: u16 :: !BadQid(q) <==> 1 <= q <= cdw0 % TWO16 + 1
    {
      var fid := Cdw10(e) % 0x100;
      status, cdw0 := SUCCESS, 0;
      if fid == FEAT_NUM_QUEUES {
        cdw0 := (MAX_QUEUES - 2) * TWO16 + (MAX_QUEUES - 2);
      } else if fid == FEAT_KV_EDNEK {
        cdw0 := ns.ednek;
      }
    }

    // nvme_admin_cmd
    method AdminCommand(e: Sqe, t: nat) returns (status: u16, cdw0: u32)
      requires sq.Length == cq.Length == MAX_QUEUES
      modifies sq, cq, ns`ednek, bus`mem
      ensures AdminOut(Value(), bus.mem, status, cdw0) == AdminExec(bus.env, t, old(Value()), old(bus.mem), e)
    {
      cdw0 := 0;
      var op := e[0];
      if op == ADM_IDENTIFY {
        status := AdminIdentify(e, t);
      } else if op == ADM_SET_FEATURES {
        status, cdw0 := AdminSetFeatures(e);
      } else if op == ADM_GET_FEATURES {
        status, cdw0 := AdminGetFeatures(e);
      } else if op == ADM_CREATE_CQ {
        status := AdminCreateCq(e);
      } else if op == ADM_CREATE_SQ {
        status := AdminCreateSq(e);
      } else if op == ADM_DELETE_CQ {
        status := AdminDeleteCq(e);
      } else if op == ADM_DELETE_SQ {
        status := AdminDeleteSq(e);
      } else if op == ADM_GET_LOG_PAGE {
        status := SUCCESS;
      } else if op == ADM_ASYNC_EVENT {
        status := NO_COMPLETE;
      } else {
        status := INVALID_OPCODE + DNR;
      }
    }

    // ---------------------------------------------------------------- key-value commands

    // nvme_io_kv
    method IoKv(e: Sqe, t: nat) returns (status: u16)
      requires ns.Valid()
      modifies ns, ns.pairs, bus`mem
      ensures ns.pairs == old(ns.pairs) || fresh(ns.pairs)
      ensures AdminOut(Value(), bus.mem, status, 0) == IoExec(bus.env, t, old(Value()), old(bus.mem), e)
    {
      var cmd := KvOf(e);
      if cmd.opcode == KV_STORE {
        status := ns.Store(cmd, bus, t);
      } else if cmd.opcode == KV_RETRIEVE {
        status := ns.Retrieve(cmd, bus, t);
      } else if cmd.opcode == KV_DELETE {
        status := ns.Delete(cmd);
      } else if cmd.opcode == KV_EXIST {
        status := ns.Exist(cmd);
      } else if cmd.opcode == KV_LIST {
        status := ns.List(cmd, bus, t);
      } else {
        status := INVALID_OPCODE + DNR;
      }
    }

    // ---------------------------------------------------------------- completions and the queue engine

    // nvme_post_cqe
    method PostCqe(t: nat, cqid: nat, sqid: u16, sqHead: u16, cid: u16, cdw0: u32, status: u16)
      returns (ghost p: Option<Posting>)
      requires cqid < cq.Length
      modifies cq, bus`mem
      ensures (Value(), bus.mem, p)
           == Post(bus.env, t, old(Value()), old(bus.mem), cqid, sqid, sqHead, cid, cdw0, status)
    {
      if !cq[cqid].enabled {
        return None;
      }
      var q := cq[cqid];
      var cqe := MakeCqe(cdw0, sqHead, sqid, cid, status, q.phase);
      var ok, _ := bus.GpaXfer(t + 3, CqeAddr(q), cqe, CQE_SIZE, true);
      cq[cqid] := q.(tail := (q.tail + 1) % TWO16);
      if cq[cqid].tail == q.size {
        cq[cqid] := cq[cqid].(tail := 0, phase := FlipBit(q.phase));
      }
      assert cq[..] == old(cq[..])[cqid := Advance(q)];
      p := Some(Posting(cqid, CqeAddr(q), cqe, q.irq, ok));
    }

    // The body of the queue loop, after the fetch.
    method ServeOne(q: nat, e: Sqe) returns (ghost entry: Entry)
      requires Valid() && q < MAX_QUEUES && sq[q].enabled
      modifies sq, cq, ns, ns.pairs, bus
      ensures ns.pairs == old(ns.pairs) || fresh(ns.pairs)
      ensures (System(), entry) == Serve(bus.env, old(System()), q, e)
    {
      var t := bus.now;
      ghost var was, c := System(), StepHead(Value(), q);
      ghost var x := Delivered(bus.env, t, bus.mem, e);
      StepHeadKeeps(was.c, q);
      ExecKeeps(bus.env, t, q, c, bus.mem, e);
      AdvanceHead(q);
      var status, cdw0 := Dispatch(q, e, t);
      entry := Complete(q, was.c.sq[q].head, e, t, x, Sent(bus.env, t, q, was.c.ns, e, x), cdw0, status);
    }

    method AdvanceHead(q: nat)
      requires q < sq.Length && sq[q].size > 0
      modifies sq
      ensures Value() == StepHead(old(Value()), q)
    {
      sq[q] := sq[q].(head := (sq[q].head + 1) % sq[q].size % TWO16);
    }

    method Complete(q: nat, ghost index: nat, e: Sqe, t: nat, ghost x: Inbound, ghost sent: Option<seq<byte>>,
                    cdw0: u32, status: u16)
      returns (ghost entry: Entry)
      requires cq.Length == MAX_QUEUES && q < sq.Length && sq.Length == MAX_QUEUES && sq[q].cqid < MAX_QUEUES
      modifies cq, bus
      ensures (System(), entry)
           == Finish(bus.env, t, q, index, old(sq[q]), e, x, sent, AdminOut(old(Value()), old(bus.mem), status, cdw0))
    {
      ghost var posted := None;
      if status != NO_COMPLETE {
        posted := PostCqe(t, sq[q].cqid, q, sq[q].head, Cid(e), cdw0, status);
      }
      bus.now := t + 4;
      entry := Entry(q, index, t, e, x, sent, cdw0, status, posted);
    }

    method Dispatch(q: nat, e: Sqe, t: nat) returns (status: u16, cdw0: u32)
      requires Valid() && q < MAX_QUEUES
      modifies sq, cq, ns, ns.pairs, bus`mem
      ensures ns.pairs == old(ns.pairs) || fresh(ns.pairs)
      ensures AdminOut(Value(), bus.mem, status, cdw0) == Exec(bus.env, t, q, old(Value()), old(bus.mem), e)
    {
      if q == 0 {
        status, cdw0 := AdminCommand(e, t);
      } else {
        status := IoKv(e, t);
        cdw0 := 0;
      }
    }

    // One turn of the queue loop: fetch the entry at head, then serve it.
    method Turn(q: nat, ghost goal: (Sys, seq<Entry>), ghost log: seq<Entry>)
      returns (fetched: bool, ghost log': seq<Entry>)
      requires Remaining(bus.env, System(), q, goal, log) && sq[q].head != sq[q].tail
      modifies sq, cq, ns, ns.pairs, bus
      ensures ns.pairs == old(ns.pairs) || fresh(ns.pairs)
      ensures fetched ==> Remaining(bus.env, System(), q, goal, log') && Backlog(sq[q]) < old(Backlog(sq[q]))
      ensures !fetched ==> goal == (System(), log')
    {
      var e;
      fetched, e := bus.GpaXfer(bus.now, SqeAddr(sq[q]), Zeros(SQE_SIZE), SQE_SIZE, false);
      if fetched {
        RemainingTurn(bus.env, System(), q, goal, log);
        ghost var entry := ServeOne(q, e);
        log' := log + [entry];
      } else {
        RemainingStuck(bus.env, System(), q, goal, log);
        bus.now := bus.now + 4;
        log' := log;
      }
    }

    // nvme_process_sq
    method Process(q: nat) returns (ghost log: seq<Entry>)
      requires Valid() && q < MAX_QUEUES
      modifies sq, cq, ns, ns.pairs, bus
      ensures ns.pairs == old(ns.pairs) || fresh(ns.pairs)
      ensures (System(), log) == ProcessSq(bus.env, old(System()), q)
    {
      log := [];
      if !sq[q].enabled {
        return;
      }
      ghost var goal := ProcessSq(bus.env, System(), q);
      assert [] + goal.1 == goal.1;
      var fetched := true;
      while fetched && sq[q].head != sq[q].tail
        invariant ns.pairs == old(ns.pairs) || fresh(ns.pairs)
        invariant fetched ==> Remaining(bus.env, System(), q, goal, log)
        invariant !fetched ==> goal == (System(), log)
        decreases fetched, Backlog(sq[q])
      {
        fetched, log := Turn(q, goal, log);
      }
      if fetched {
        RemainingDone(bus.env, System(), q, goal, log);
      }
    }

    // nvme_bar0_access, write
    method BarStore(offset: nat, buf: seq<byte>) returns (ghost log: seq<Entry>)
      requires Valid() && WriteAllowed(Value(), offset, buf)
      modifies this, sq, cq, ns, ns.pairs, bus
      ensures Valid() && (ns.pairs == old(ns.pairs) || fresh(ns.pairs))
      ensures (System(), log) == BarWrite(bus.env, old(System()), offset, buf)
    {
      BarWriteKeeps(bus.env, System(), offset, buf);
      log := [];
      if offset >= REG_DOORBELL {
        var v := ReadLe(buf);
        var idx := (offset - REG_DOORBELL) / 4;
        var qid := idx / 2 % TWO16;
        if qid < MAX_QUEUES {
          if idx % 2 == 1 {
            cq[qid] := cq[qid].(head := v % TWO32 % TWO16);
          } else {
            sq[qid] := sq[qid].(tail := v % TWO32 % TWO16);
            log := Process(qid);
          }
        }
      } else {
        WriteReg(offset, buf);
      }
    }

    // nvme_bar0_access, read
    method BarLoad(offset: nat, count: nat) returns (buf: seq<byte>)
      ensures buf == BarRead(Value(), offset, count)
    {
      if offset >= REG_DOORBELL {
        return Zeros(count);
      }
      buf := ReadReg(offset, count);
    }
  }

  ghost predicate IsGet(e: Sqe, fid: nat) { Cdw10(e) % 0x100 == fid }

  // The log so far followed by what is still to be served is the goal.
  ghost predicate Remaining(env: Env, s: Sys, q: nat, goal: (Sys, seq<Entry>), log: seq<Entry>) {
    match s
    case Sys(c, _, _) =>
      && CtrlOk(c) && q < MAX_QUEUES && c.sq[q].enabled
      && goal == (ProcessSq(env, s, q).0, log + ProcessSq(env, s, q).1)
  }

  lemma RemainingDone(env: Env, s: Sys, q: nat, goal: (Sys, seq<Entry>), log: seq<Entry>)
    requires Remaining(env, s, q, goal, log) && s.c.sq[q].head == s.c.sq[q].tail
    ensures goal == (s, log)
  {
    ProcessDone(env, s, q);
    assert log + [] == log;
  }

  lemma RemainingStuck(env: Env, s: Sys, q: nat, goal: (Sys, seq<Entry>), log: seq<Entry>)
    requires Remaining(env, s, q, goal, log) && s.c.sq[q].head != s.c.sq[q].tail && !Fetch(env, s, q).ok
    ensures goal == (s.(now := s.now + 4), log)
  {
    ProcessStuck(env, s, q);
    assert log + [] == log;
  }

  lemma RemainingTurn(env: Env, s: Sys, q: nat, goal: (Sys, seq<Entry>), log: seq<Entry>)
    requires Remaining(env, s, q, goal, log) && s.c.sq[q].head != s.c.sq[q].tail && Fetch(env, s, q).ok
    ensures var (s1, e) := Serve(env, s, q, Fetch(env, s, q).data);
            Remaining(env, s1, q, goal, log + [e]) && Backlog(s1.c.sq[q]) == Backlog(s.c.sq[q]) - 1
  {
    ProcessTurn(env, s, q);
    var (s1, e) := Serve(env, s, q, Fetch(env, s, q).data);
    assert log + ([e] + ProcessSq(env, s1, q).1) == (log + [e]) + ProcessSq(env, s1, q).1;
  }
}
