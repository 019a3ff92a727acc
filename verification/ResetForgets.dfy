/** A device reset forgets history: the reset controller and a new one over the same namespace are indistinguishable. */
module ResetForgets {
  import opened Bytes
  import opened NvmeSpec
  import opened GuestMemory
  import opened KvSlots
  import opened Queues
  import opened ControllerState
  import opened Runs

  // A controller as nvme_ctrl_init leaves it, over an existing namespace.
  function FreshOver(ns: Ns): Ctrl { NewCtrl(0).(ns := ns) }

  // Queue records that agree while enabled; a disabled record may hold anything.
  ghost predicate LikeSq(a: Sq, b: Sq) { a.enabled == b.enabled && (a.enabled ==> a == b) }
  ghost predicate LikeCq(a: Cq, b: Cq) { a.enabled == b.enabled && (a.enabled ==> a == b) }

  ghost predicate Alike(c: Ctrl, d: Ctrl) {
    match c
    case Ctrl(r, sq, cq, ns) =>
      && r == d.r && ns == d.ns
      && |sq| == |d.sq| == |cq| == |d.cq| == MAX_QUEUES
      && (forall q :: 0 <= q < MAX_QUEUES ==> LikeSq(sq[q], d.sq[q]))
      && (forall q :: 0 <= q < MAX_QUEUES ==> LikeCq(cq[q], d.cq[q]))
  }

  lemma SetSqAlike(c: Ctrl, d: Ctrl, q: nat, a: Sq, b: Sq)
    requires Alike(c, d) && q < MAX_QUEUES && LikeSq(a, b)
    ensures Alike(c.(sq := c.sq[q := a]), d.(sq := d.sq[q := b]))
  {
  }

  lemma SetCqAlike(c: Ctrl, d: Ctrl, q: nat, a: Cq, b: Cq)
    requires Alike(c, d) && q < MAX_QUEUES && LikeCq(a, b)
    ensures Alike(c.(cq := c.cq[q := a]), d.(cq := d.cq[q := b]))
  {
  }

  lemma QueueAt(c: Ctrl, d: Ctrl, q: nat)
    requires Alike(c, d) && q < MAX_QUEUES
    ensures LikeSq(c.sq[q], d.sq[q]) && LikeCq(c.cq[q], d.cq[q])
  {
  }

  lemma CreateAlike(c: Ctrl, d: Ctrl, e: Sqe)
    requires Alike(c, d)
    ensures CreateCq(c, e).1 == CreateCq(d, e).1 && Alike(CreateCq(c, e).0, CreateCq(d, e).0)
    ensures CreateSq(c, e).1 == CreateSq(d, e).1 && Alike(CreateSq(c, e).0, CreateSq(d, e).0)
  {
    var q, cqid := Qid(e), Cdw11(e) / TWO16;
    if !BadQid(q) {
      var a := Cq(Prp1(e), Qsize(e), q, 0, 0, 1, cqid, true);
      SetCqAlike(c, d, q, a, a);
      if cqid < MAX_QUEUES {
        QueueAt(c, d, cqid);
        var b := Sq(Prp1(e), Qsize(e), q, cqid, 0, 0, true);
        SetSqAlike(c, d, q, b, b);
      }
    }
  }

  lemma DeleteAlike(c: Ctrl, d: Ctrl, e: Sqe)
    requires Alike(c, d)
    ensures DeleteCq(c, e).1 == DeleteCq(d, e).1 && Alike(DeleteCq(c, e).0, DeleteCq(d, e).0)
    ensures DeleteSq(c, e).1 == DeleteSq(d, e).1 && Alike(DeleteSq(c, e).0, DeleteSq(d, e).0)
  {
    var q := Qid(e);
    if !BadQid(q) {
      SetCqAlike(c, d, q, c.cq[q].(enabled := false), d.cq[q].(enabled := false));
      SetSqAlike(c, d, q, c.sq[q].(enabled := false), d.sq[q].(enabled := false));
    }
  }

  ghost predicate SameOut(a: AdminOut, b: AdminOut) {
    a.mem == b.mem && a.status == b.status && a.cdw0 == b.cdw0
  }

  lemma SetNsAlike(c: Ctrl, d: Ctrl, ns: Ns)
    requires Alike(c, d)
    ensures Alike(c.(ns := ns), d.(ns := ns))
  {
  }

  lemma ExecAlike(env: Env, t: nat, q: nat, c: Ctrl, d: Ctrl, mem: seq<byte>, e: Sqe)
    requires CtrlOk(c) && CtrlOk(d) && Alike(c, d) && q < MAX_QUEUES
    ensures var (a, b) := (Exec(env, t, q, c, mem, e), Exec(env, t, q, d, mem, e));
            SameOut(a, b) && Alike(a.c, b.c)
  {
    if q == 0 {
      CreateAlike(c, d, e);
      DeleteAlike(c, d, e);
      SetNsAlike(c, d, c.ns.(ednek := Cdw11(e)));
    } else {
      SetNsAlike(c, d, IoExec(env, t, c, mem, e).c.ns);
    }
  }

  lemma PostAlike(env: Env, t: nat, c: Ctrl, d: Ctrl, mem: seq<byte>, cqid: nat, sqid: u16, head: u16, cid: u16,
                  cdw0: u32, status: u16)
    requires Alike(c, d) && cqid < MAX_QUEUES
    ensures var (a, b) := (Post(env, t, c, mem, cqid, sqid, head, cid, cdw0, status),
                           Post(env, t, d, mem, cqid, sqid, head, cid, cdw0, status));
            Alike(a.0, b.0) && a.1 == b.1 && a.2 == b.2
  {
    QueueAt(c, d, cqid);
    if c.cq[cqid].enabled {
      SetCqAlike(c, d, cqid, Advance(c.cq[cqid]), Advance(d.cq[cqid]));
    }
  }

  lemma FinishAlike(env: Env, t: nat, q: u16, index: nat, r: Sq, e: Sqe, x: Inbound, sent: Option<seq<byte>>,
                    a: AdminOut, b: AdminOut)
    requires SameOut(a, b) && Alike(a.c, b.c) && r.cqid < MAX_QUEUES
    ensures var (f, g) := (Finish(env, t, q, index, r, e, x, sent, a), Finish(env, t, q, index, r, e, x, sent, b));
            f.1 == g.1 && f.0.mem == g.0.mem && f.0.now == g.0.now && Alike(f.0.c, g.0.c)
  {
    if a.status != NO_COMPLETE {
      PostAlike(env, t, a.c, b.c, a.mem, r.cqid, q, r.head, Cid(e), a.cdw0, a.status);
    }
  }

  // The same system, up to the contents of disabled queue records.
  ghost predicate AlikeSys(s: Sys, t: Sys) {
    s.mem == t.mem && s.now == t.now && Alike(s.c, t.c)
  }

  lemma ServeAlike(env: Env, s: Sys, t: Sys, q: nat, e: Sqe)
    requires CtrlOk(s.c) && CtrlOk(t.c) && AlikeSys(s, t) && q < MAX_QUEUES && s.c.sq[q].enabled
    ensures t.c.sq[q].enabled
    ensures Serve(env, s, q, e).1 == Serve(env, t, q, e).1
    ensures AlikeSys(Serve(env, s, q, e).0, Serve(env, t, q, e).0)
  {
    QueueAt(s.c, t.c, q);
    var c, d := StepHead(s.c, q), StepHead(t.c, q);
    StepHeadKeeps(s.c, q);
    StepHeadKeeps(t.c, q);
    SetSqAlike(s.c, t.c, q, c.sq[q], d.sq[q]);
    ExecAlike(env, s.now, q, c, d, s.mem, e);
    ExecShape(env, s.now, q, c, s.mem, e);
    ExecShape(env, s.now, q, d, s.mem, e);
    var x := Delivered(env, s.now, s.mem, e);
    FinishAlike(env, s.now, q, s.c.sq[q].head, c.sq[q], e, x, Sent(env, s.now, q, s.c.ns, e, x),
                Exec(env, s.now, q, c, s.mem, e), Exec(env, s.now, q, d, s.mem, e));
  }

  lemma {:induction false} ProcessAlike(env: Env, s: Sys, t: Sys, q: nat)
    requires CtrlOk(s.c) && CtrlOk(t.c) && AlikeSys(s, t) && q < MAX_QUEUES
    ensures ProcessSq(env, s, q).1 == ProcessSq(env, t, q).1
    ensures AlikeSys(ProcessSq(env, s, q).0, ProcessSq(env, t, q).0)
    decreases Backlog(s.c.sq[q])
  {
    QueueAt(s.c, t.c, q);
    if !s.c.sq[q].enabled || s.c.sq[q].head == s.c.sq[q].tail {
      ProcessDone(env, s, q);
      ProcessDone(env, t, q);
    } else if !Fetch(env, s, q).ok {
      ProcessStuck(env, s, q);
      ProcessStuck(env, t, q);
    } else {
      var e := Fetch(env, s, q).data;
      ProcessTurn(env, s, q);
      ProcessTurn(env, t, q);
      ServeAlike(env, s, t, q, e);
      ProcessAlike(env, Serve(env, s, q, e).0, Serve(env, t, q, e).0, q);
    }
  }

  lemma EnableEdgeAlike(c: Ctrl, d: Ctrl, was: bv32, v: bv32)
    requires Alike(c, d)
    ensures Alike(EnableEdge(c, was, v), EnableEdge(d, was, v))
  {
    if Enabled(v) && !Enabled(was) {
      EnableAlike(c, d);
    } else if !Enabled(v) && Enabled(was) {
      DisableAlike(c, d);
    }
  }

  lemma DisableAlike(c: Ctrl, d: Ctrl)
    requires Alike(c, d)
    ensures Alike(Disable(c), Disable(d))
  {
    DownAlike(c, d);
    SetRegsAlike(QueuesDown(c), QueuesDown(d), Disable(c).r);
  }

  lemma ShutdownEdgeAlike(c: Ctrl, d: Ctrl, was: bv32, v: bv32)
    requires Alike(c, d)
    ensures Alike(ShutdownEdge(c, was, v), ShutdownEdge(d, was, v))
  {
    var r := ShutdownEdge(c, was, v).r;
    if ShuttingDown(v) && !ShuttingDown(was) {
      DownAlike(c, d);
      SetRegsAlike(QueuesDown(c), QueuesDown(d), r);
    } else if !ShuttingDown(v) && ShuttingDown(was) {
      SetRegsAlike(c, d, r);
    }
  }

  lemma DownAlike(c: Ctrl, d: Ctrl)
    requires Alike(c, d)
    ensures Alike(QueuesDown(c), QueuesDown(d))
  {
  }

  lemma EnableAlike(c: Ctrl, d: Ctrl)
    requires Alike(c, d)
    ensures Alike(Enable(c), Enable(d))
  {
  }

  lemma SetRegsAlike(c: Ctrl, d: Ctrl, r: Regs)
    requires Alike(c, d)
    ensures Alike(c.(r := r), d.(r := r))
  {
  }

  lemma RegWriteAlike(c: Ctrl, d: Ctrl, offset: nat, v: u64, count: nat)
    requires Alike(c, d)
    ensures Alike(RegWrite(c, offset, v, count), RegWrite(d, offset, v, count))
  {
    if offset == REG_CC {
      var w := (v % TWO32) as bv32;
      var c1, d1 := c.(r := c.r.(cc := w)), d.(r := d.r.(cc := w));
      assert Alike(c1, d1);
      EnableEdgeAlike(c1, d1, c.r.cc, w);
      ShutdownEdgeAlike(EnableEdge(c1, c.r.cc, w), EnableEdge(d1, c.r.cc, w), c.r.cc, w);
    }
  }

  lemma BarWriteAlike(env: Env, s: Sys, t: Sys, offset: nat, data: seq<byte>)
    requires CtrlOk(s.c) && CtrlOk(t.c) && AlikeSys(s, t) && WriteAllowed(s.c, offset, data)
    ensures WriteAllowed(t.c, offset, data)
    ensures BarWrite(env, s, offset, data).1 == BarWrite(env, t, offset, data).1
    ensures AlikeSys(BarWrite(env, s, offset, data).0, BarWrite(env, t, offset, data).0)
  {
    if offset < REG_DOORBELL {
      PowBound(|data|);
      RegWriteAlike(s.c, t.c, offset, RdLe(data), |data|);
    } else if DoorbellQid(offset) < MAX_QUEUES {
      var q, v := DoorbellQid(offset), DoorbellValue(data);
      QueueAt(s.c, t.c, q);
      if DoorbellIsCq(offset) {
        SetCqAlike(s.c, t.c, q, s.c.cq[q].(head := v), t.c.cq[q].(head := v));
      } else {
        SetSqAlike(s.c, t.c, q, s.c.sq[q].(tail := v), t.c.sq[q].(tail := v));
        ProcessAlike(env, s.(c := RingDoorbell(s.c, q, v)), t.(c := RingDoorbell(t.c, q, v)), q);
      }
    }
  }

  lemma StepAlike(env: Env, s: Sys, t: Sys, e: Event)
    requires CtrlOk(s.c) && CtrlOk(t.c) && AlikeSys(s, t) && Allowed(s, e)
    ensures Allowed(t, e)
    ensures Step(env, s, e).1 == Step(env, t, e).1
    ensures AlikeSys(Step(env, s, e).0, Step(env, t, e).0)
  {
    match e
    case Write(offset, data) => BarWriteAlike(env, s, t, offset, data);
    case _ =>
  }

  lemma {:induction false} RunAlike(env: Env, s: Sys, t: Sys, es: seq<Event>)
    requires CtrlOk(s.c) && CtrlOk(t.c) && AlikeSys(s, t) && HostObeys(env, s, es)
    ensures HostObeys(env, t, es)
    ensures Run(env, s, es).1 == Run(env, t, es).1
    ensures AlikeSys(Run(env, s, es).0, Run(env, t, es).0)
    decreases |es|
  {
    if es != [] {
      StepKeeps(env, s, es[0]);
      StepAlike(env, s, t, es[0]);
      StepKeeps(env, t, es[0]);
      RunAlike(env, Step(env, s, es[0]).0, Step(env, t, es[0]).0, es[1..]);
    }
  }

  lemma ResetIsFresh(c: Ctrl)
    requires CtrlOk(c) && c.r.cap == CAP_VALUE && c.r.vs == VS_VALUE
    ensures CtrlOk(ResetCtrl(c)) && CtrlOk(FreshOver(c.ns)) && Alike(ResetCtrl(c), FreshOver(c.ns))
  {
    DownKeeps(c);
  }

  // Reset forgets: after a reset from any reachable state, every later run gives the same register reads, the same
  // guest memory, the same commands and the same completions as on a new controller over the same namespace.
  lemma ResetForgetsHistory(env: Env, maxKeys: nat, mem: seq<byte>, past: seq<Event>, future: seq<Event>)
    requires maxKeys <= INT_MAX && CtrlOk(PowerOn(maxKeys, mem).c)
    requires HostObeys(env, PowerOn(maxKeys, mem), past)
    ensures var s := Run(env, PowerOn(maxKeys, mem), past).0;
            var (a, b) := (s.(c := ResetCtrl(s.c)), s.(c := FreshOver(s.c.ns)));
            && CtrlOk(a.c) && CtrlOk(b.c)
            && (HostObeys(env, a, future) <==> HostObeys(env, b, future))
            && (HostObeys(env, a, future) ==>
                  && Run(env, a, future).1 == Run(env, b, future).1
                  && AlikeSys(Run(env, a, future).0, Run(env, b, future).0))
  {
    PowerOnOk(maxKeys, mem);
    RunInvariant(env, PowerOn(maxKeys, mem), past);
    var s := Run(env, PowerOn(maxKeys, mem), past).0;
    var a, b := s.(c := ResetCtrl(s.c)), s.(c := FreshOver(s.c.ns));
    ResetIsFresh(s.c);
    if HostObeys(env, a, future) {
      RunAlike(env, a, b, future);
    }
    if HostObeys(env, b, future) {
      AlikeSymmetric(a, b);
      RunAlike(env, b, a, future);
    }
  }

  lemma AlikeSymmetric(s: Sys, t: Sys)
    requires AlikeSys(s, t)
    ensures AlikeSys(t, s)
  {
  }

  // ---------------------------------------------------------------- what a reset is not

  // A reset brings back the power-on state exactly when the namespace is as it was at power-on.
  lemma ResetToPowerOn(env: Env, maxKeys: nat, mem: seq<byte>, past: seq<Event>)
    requires maxKeys <= INT_MAX && CtrlOk(PowerOn(maxKeys, mem).c)
    requires HostObeys(env, PowerOn(maxKeys, mem), past)
    ensures var c := Run(env, PowerOn(maxKeys, mem), past).0.c;
            Alike(ResetCtrl(c), NewCtrl(maxKeys)) <==> c.ns == NewNs(maxKeys)
  {
    PowerOnOk(maxKeys, mem);
    RunInvariant(env, PowerOn(maxKeys, mem), past);
    var c := Run(env, PowerOn(maxKeys, mem), past).0.c;
    ResetIsFresh(c);
    assert NewCtrl(maxKeys) == FreshOver(NewNs(maxKeys));
  }

  // A Set Features that sets EDNEK to 1.
  function SetEdnek(): Sqe { Zeros(SQE_SIZE)[0 := ADM_SET_FEATURES][40 := FEAT_KV_EDNEK][44 := 1] }

  lemma WordValue(b: seq<byte>)
    requires |b| == 4 && b[1] == b[2] == b[3] == 0
    ensures RdLe(b) == b[0]
  {
    var c := b[1..];
    var d := c[1..];
    assert c[0] == b[1] && d[0] == b[2] && d[1..][0] == b[3] && d[1..][1..] == [];
    assert RdLe(d[1..]) == 0;
    assert RdLe(d) == 0;
    assert RdLe(c) == 0;
  }

  lemma SetEdnekFields()
    ensures SetEdnek()[0] == ADM_SET_FEATURES && Cdw10(SetEdnek()) == FEAT_KV_EDNEK && Cdw11(SetEdnek()) == 1
  {
    WordValue(SetEdnek()[40..44]);
    WordValue(SetEdnek()[44..48]);
  }

  // A host that sizes the admin submission queue, enables the controller and rings the admin doorbell once.
  function ShortRun(): seq<Event> {
    [Write(REG_AQA, [1, 0, 0, 0]), Write(REG_CC, [1, 0, 0, 0]), Write(REG_DOORBELL, [1, 0, 0, 0])]
  }

  // The controller with the admin queue sized, and then enabled.
  function Sized(maxKeys: nat): Ctrl {
    var c := NewCtrl(maxKeys);
    c.(r := c.r.(aqa := 1))
  }

  function Started(maxKeys: nat): Ctrl {
    var c := Sized(maxKeys);
    Enable(c.(r := c.r.(cc := 1)))
  }

  lemma SizeStep(env: Env, maxKeys: nat, mem: seq<byte>)
    requires maxKeys <= INT_MAX
    ensures var s := PowerOn(maxKeys, mem);
            && CtrlOk(s.c) && Allowed(s, Write(REG_AQA, [1, 0, 0, 0]))
            && Step(env, s, Write(REG_AQA, [1, 0, 0, 0])).0 == Sys(Sized(maxKeys), mem, 0)
  {
    PowerOnOk(maxKeys, mem);
    WordValue([1, 0, 0, 0]);
  }

  lemma StartStep(env: Env, maxKeys: nat, mem: seq<byte>)
    requires CtrlOk(Sized(maxKeys))
    ensures var s := Sys(Sized(maxKeys), mem, 0);
            && Allowed(s, Write(REG_CC, [1, 0, 0, 0]))
            && Step(env, s, Write(REG_CC, [1, 0, 0, 0])).0 == Sys(Started(maxKeys), mem, 0)
  {
    WordValue([1, 0, 0, 0]);
    assert 1 as bv32 & CC_EN != 0 && 1 as bv32 & CC_SHN_MASK == 0;
  }

  lemma FirstDoorbell(data: seq<byte>)
    requires data == [1, 0, 0, 0]
    ensures !DoorbellIsCq(REG_DOORBELL) && DoorbellQid(REG_DOORBELL) == 0 && DoorbellValue(data) == 1
  {
    WordValue(data);
  }

  lemma AdminRings(s: Sys)
    requires CtrlOk(s.c) && s.c.sq[0] == Sq(0, 2, 0, 0, 0, 0, true)
    ensures CtrlOk(RingDoorbell(s.c, 0, 1)) && RingDoorbell(s.c, 0, 1).sq[0] == Sq(0, 2, 0, 0, 0, 1, true)
  {
  }

  lemma AdminDoorbell(env: Env, s: Sys, data: seq<byte>)
    requires CtrlOk(s.c) && s.c.sq[0] == Sq(0, 2, 0, 0, 0, 0, true) && data == [1, 0, 0, 0]
    ensures Allowed(s, Write(REG_DOORBELL, data)) && CtrlOk(RingDoorbell(s.c, 0, 1))
    ensures Step(env, s, Write(REG_DOORBELL, data)).0 == ProcessSq(env, s.(c := RingDoorbell(s.c, 0, 1)), 0).0
  {
    FirstDoorbell(data);
    AdminRings(s);
  }

  lemma EdnekStep(env: Env, maxKeys: nat)
    requires CtrlOk(Started(maxKeys)) && env.cut(0, 0, SQE_SIZE) == [SQE_SIZE] && env.pin(0)
    ensures var s := Sys(Started(maxKeys), SetEdnek(), 0);
            && Allowed(s, Write(REG_DOORBELL, [1, 0, 0, 0]))
            && Step(env, s, Write(REG_DOORBELL, [1, 0, 0, 0])).0.c.ns.ednek == 1
  {
    var s := Sys(Started(maxKeys), SetEdnek(), 0);
    AdminDoorbell(env, s, [1, 0, 0, 0]);
    AdminRings(s);
    AdminServed(env, s.(c := RingDoorbell(s.c, 0, 1)));
  }

  // One pending Set Features at address 0.
  lemma AdminServed(env: Env, s: Sys)
    requires CtrlOk(s.c) && s.now == 0 && s.mem == SetEdnek() && s.c.sq[0] == Sq(0, 2, 0, 0, 0, 1, true)
    requires env.cut(0, 0, SQE_SIZE) == [SQE_SIZE] && env.pin(0)
    ensures ProcessSq(env, s, 0).0.c.ns.ednek == 1
  {
    FetchAtZero(env, s);
    ProcessTurn(env, s, 0);
    ServeAdminRefines(env, s, SetEdnek());
    ServeKeeps(env, s, 0, SetEdnek());
    SetEdnekFields();
    ProcessDone(env, Serve(env, s, 0, SetEdnek()).0, 0);
  }

  lemma FetchAtZero(env: Env, s: Sys)
    requires |s.c.sq| > 0 && s.now == 0 && s.mem == SetEdnek() && s.c.sq[0] == Sq(0, 2, 0, 0, 0, 1, true)
    requires env.cut(0, 0, SQE_SIZE) == [SQE_SIZE] && env.pin(0)
    ensures Fetch(env, s, 0) == Inbound(true, SetEdnek())
  {
    assert Total([SQE_SIZE]) == SQE_SIZE + Total([SQE_SIZE][1..]);
    GpaExact(env, 0, s.mem, 0, Zeros(SQE_SIZE));
  }

  // For instance: after this run a reset does not bring back the power-on state, since EDNEK is still set.
  lemma EdnekSurvivesReset(env: Env, maxKeys: nat)
    requires maxKeys <= INT_MAX && env.cut(0, 0, SQE_SIZE) == [SQE_SIZE] && env.pin(0)
    ensures var s := PowerOn(maxKeys, SetEdnek());
            && CtrlOk(s.c) && HostObeys(env, s, ShortRun())
            && !Alike(ResetCtrl(Run(env, s, ShortRun()).0.c), NewCtrl(maxKeys))
  {
    var s, es := PowerOn(maxKeys, SetEdnek()), ShortRun();
    SizeStep(env, maxKeys, SetEdnek());
    RunCons(env, s, es[0], [es[1], es[2]]);
    var s1 := Step(env, s, es[0]).0;
    StartStep(env, maxKeys, SetEdnek());
    RunCons(env, s1, es[1], [es[2]]);
    var s2 := Step(env, s1, es[1]).0;
    EdnekStep(env, maxKeys);
    RunCons(env, s2, es[2], []);
    assert [es[2]] == [es[2]] + [] && [es[1], es[2]] == [es[1]] + [es[2]] && es == [es[0]] + [es[1], es[2]];
    assert Run(env, s, es).0 == Step(env, s2, es[2]).0;
  }
}
