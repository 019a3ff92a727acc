/** What admin commands promise about the commands that follow them. */
module AdminLaws {
  import opened Bytes
  import opened NvmeSpec
  import opened GuestMemory
  import opened KvSlots
  import opened KvMap
  import opened Queues
  import opened ControllerState
  import opened Batch
  import opened Runs
  import opened Wire

  ghost predicate IsFeature(e: Sqe, op: byte, fid: nat) { e[0] == op && Cdw10(e) % 0x100 == fid }

  // EDNEK reads back as it was set, and bit 0 of it alone decides how a Delete of an absent key ends.
  lemma EdnekReadBack(env: Env, t: nat, u: nat, c: Ctrl, mem: seq<byte>, cmd: Sqe, ask: Sqe, del: KvCmd)
    requires CtrlOk(c) && del.Valid() && !del.KeyTooLong() && del.Key() !in Abs(c.ns).m
    requires IsFeature(cmd, ADM_SET_FEATURES, FEAT_KV_EDNEK) && IsFeature(ask, ADM_GET_FEATURES, FEAT_KV_EDNEK)
    ensures var d := AdminExec(env, t, c, mem, cmd).c;
            && CtrlOk(d) && Abs(d.ns).m == Abs(c.ns).m
            && AdminExec(env, u, d, mem, ask).cdw0 == Cdw11(cmd)
            && DeleteNs(d.ns, del) == (d.ns, Done(if Cdw11(cmd) % 2 == 1 then KEY_NOT_EXISTS else SUCCESS))
  {
    AdminKeeps(env, t, c, mem, cmd);
  }

  // The value of the last Set Features of EDNEK in the log, or v.
  ghost function LastEdnek(log: seq<Entry>, v: u32): u32 {
    if log == [] then v
    else
      var sets := log[0].qid == 0 && IsFeature(log[0].sqe, ADM_SET_FEATURES, FEAT_KV_EDNEK);
      LastEdnek(log[1..], if sets then Cdw11(log[0].sqe) else v)
  }

  lemma {:induction false} ExplainsEdnek(env: Env, cap: nat, size: nat, k: FullKv, log: seq<Entry>, k': Kv)
    requires Explains(env, cap, size, k, log, k')
    ensures k'.ednek == LastEdnek(log, k.ednek)
    decreases |log|
  {
    if log != [] {
      ExplainsEdnek(env, cap, size, ApplyEntry(env, cap, k, log[0]), log[1..], k');
    }
  }

  // After any run from power-on, Get Features reports the EDNEK that was set last, or 0.
  lemma EdnekOverRuns(env: Env, maxKeys: nat, mem: seq<byte>, es: seq<Event>, u: nat, ask: Sqe)
    requires maxKeys <= INT_MAX && IsFeature(ask, ADM_GET_FEATURES, FEAT_KV_EDNEK)
    requires CtrlOk(PowerOn(maxKeys, mem).c) && HostObeys(env, PowerOn(maxKeys, mem), es)
    ensures var (s', os) := Run(env, PowerOn(maxKeys, mem), es);
            && |s'.c.sq| == |s'.c.cq| == MAX_QUEUES
            && AdminExec(env, u, s'.c, s'.mem, ask).cdw0 == LastEdnek(Logs(os), 0)
  {
    var s := PowerOn(maxKeys, mem);
    PowerOnOk(maxKeys, mem);
    RunInvariant(env, s, es);
    RunRefines(env, s, es);
    NewNsOk(maxKeys);
    var (s', os) := Run(env, s, es);
    ExplainsEdnek(env, maxKeys, |mem|, Abs(s.c.ns), Logs(os), Abs(s'.c.ns));
  }

  // Number of Queues grants at most what was asked for in each direction, all that can be created, and what Get
  // Features reports; counts are zero-based.
  lemma QueueCountGranted(env: Env, t: nat, c: Ctrl, mem: seq<byte>, cmd: Sqe, ask: Sqe)
    requires |c.sq| == |c.cq| == MAX_QUEUES
    requires IsFeature(cmd, ADM_SET_FEATURES, FEAT_NUM_QUEUES) && IsFeature(ask, ADM_GET_FEATURES, FEAT_NUM_QUEUES)
    ensures var granted := AdminExec(env, t, c, mem, cmd).cdw0;
            var most := AdminExec(env, t, c, mem, ask).cdw0;
            && granted % TWO16 == Min(Cdw11(cmd) % TWO16, most % TWO16)
            && granted / TWO16 == Min(Cdw11(cmd) / TWO16, most / TWO16)
            && (forall q: u16 :: !BadQid(q) <==> 1 <= q <= most % TWO16 + 1)
            && most % TWO16 == most / TWO16
  {
  }

  // Deleting a completion queue leaves its submission queues running: their commands still take effect on the
  // namespace, and none of them is completed.
  lemma DeletedCqDropsCompletions(env: Env, s: Sys, e: Sqe, q: nat)
    requires CtrlOk(s.c) && 0 < q < MAX_QUEUES && s.c.sq[q].enabled && s.c.sq[q].cqid == Qid(e) && !BadQid(Qid(e))
    ensures var c := DeleteCq(s.c, e).0;
            && CtrlOk(c) && c.sq == s.c.sq
            && var (s', log) := ProcessSq(env, s.(c := c), q);
               && (forall i :: 0 <= i < |log| ==> log[i].posted == None)
               && NsOk(s'.c.ns) && Explains(env, s.c.ns.maxKeys, |s.mem|, Abs(s.c.ns), log, Abs(s'.c.ns))
  {
    var c := DeleteCq(s.c, e).0;
    var s1 := s.(c := c);
    BatchCompletions(env, s1, q);
    ProcessRefines(env, s1, q);
    var log := ProcessSq(env, s1, q).1;
    forall i | 0 <= i < |log| ensures log[i].posted == None {
      assert CompletedOnce(log[i], c.sq[q], q, false);
    }
  }

  // ---------------------------------------------------------------- the commands, in the bytes of their entry

  // Dwords 10 and 11, by halves and by their outer bytes.
  lemma RawDwords(e: Sqe)
    ensures Cdw10(e) % 0x1_0000 == RdLe(e[40..42]) && Cdw10(e) / 0x1_0000 == RdLe(e[42..44])
    ensures Cdw11(e) % 0x1_0000 == RdLe(e[44..46]) && Cdw11(e) / 0x1_0000 == RdLe(e[46..48])
    ensures Cdw10(e) % 0x100 == e[40] && Cdw11(e) / 0x100_0000 == e[47]
  {
    WordParts(e[40..44]);
    WordParts(e[44..48]);
    assert e[40..44][..2] == e[40..42] && e[40..44][2..] == e[42..44];
    assert e[44..48][..2] == e[44..46] && e[44..48][2..] == e[46..48];
  }

  predicate NoSuchQueue(q: nat) { q == 0 || q >= 64 }

  // Create I/O Completion Queue: identifier and size in dword 10, interrupt vector in the high half of dword 11.
  lemma CreateCqLaw(env: Env, t: nat, c: Ctrl, mem: seq<byte>, e: Sqe)
    requires |c.sq| == |c.cq| == 64 && e[0] == 0x05
    ensures var (o, q) := (AdminExec(env, t, c, mem, e), RdLe(e[40..42]));
            if NoSuchQueue(q) then o == AdminOut(c, mem, 0x4101, 0)
            else o.status == 0 && o.cdw0 == 0 && o.mem == mem && o.c.sq == c.sq && o.c.r == c.r && o.c.ns == c.ns
                 && o.c.cq == c.cq[q := Cq(Prp1(e), RdLe(e[42..44]) + 1, q, 0, 0, 1, RdLe(e[46..48]), true)]
  {
    RawDwords(e);
  }

  // Create I/O Submission Queue: identifier and size in dword 10, completion queue in the high half of dword 11, which
  // must be one that is enabled.
  lemma CreateSqLaw(env: Env, t: nat, c: Ctrl, mem: seq<byte>, e: Sqe)
    requires |c.sq| == |c.cq| == 64 && e[0] == 0x01
    ensures var (o, q, to) := (AdminExec(env, t, c, mem, e), RdLe(e[40..42]), RdLe(e[46..48]));
            if NoSuchQueue(q) || to >= 64 || !c.cq[to].enabled then o == AdminOut(c, mem, 0x4101, 0)
            else o.status == 0 && o.cdw0 == 0 && o.mem == mem && o.c.cq == c.cq && o.c.r == c.r && o.c.ns == c.ns
                 && o.c.sq == c.sq[q := Sq(Prp1(e), RdLe(e[42..44]) + 1, q, to, 0, 0, true)]
  {
    RawDwords(e);
  }

  // Delete I/O Completion Queue and Delete I/O Submission Queue disable the queue in dword 10 and nothing else.
  lemma DeleteLaw(env: Env, t: nat, c: Ctrl, mem: seq<byte>, e: Sqe)
    requires |c.sq| == |c.cq| == 64 && (e[0] == 0x04 || e[0] == 0x00)
    ensures var (o, q) := (AdminExec(env, t, c, mem, e), RdLe(e[40..42]));
            if NoSuchQueue(q) then o == AdminOut(c, mem, 0x4101, 0)
            else if e[0] == 0x04 then o == AdminOut(c.(cq := c.cq[q := c.cq[q].(enabled := false)]), mem, 0, 0)
            else o == AdminOut(c.(sq := c.sq[q := c.sq[q].(enabled := false)]), mem, 0, 0)
  {
    RawDwords(e);
  }

  // The structures Identify knows.
  predicate Known(cns: nat) { cns <= 0x03 || cns == 0x05 || cns == 0x06 || cns == 0x08 || cns == 0x1c }

  // Identify: the structure in the first byte of dword 10, the command set in the last byte of dword 11; the page is
  // told the capacity and the use of the namespace. The structures it knows go out through the PRPs.
  lemma IdentifyLaw(env: Env, t: nat, c: Ctrl, mem: seq<byte>, e: Sqe)
    requires |c.sq| == |c.cq| == 64 && e[0] == 0x06
    ensures var (o, page) := (AdminExec(env, t, c, mem, e), env.page(e[40], e[47], 4112 * c.ns.maxKeys, c.ns.nuse));
            && o.c == c && o.cdw0 == 0
            && (!Known(e[40]) ==> o.status == 0x4002 && o.mem == mem)
            && (Known(e[40]) && |page| == 4096 ==>
                  && o.mem == PrpWrite(env, t + 1, mem, Prp1(e), Prp2(e), page)
                  && o.status == if PrpOk(env, t + 1, Prp1(e), Prp2(e), 4096, |mem|) then 0 else 0x4002)
  {
    RawDwords(e);
    IdentifySends(env, t, c, mem, e, e[40], e[47]);
  }

  lemma IdentifySends(env: Env, t: nat, c: Ctrl, mem: seq<byte>, e: Sqe, cns: nat, csi: nat)
    requires cns == Cdw10(e) % 0x100 && csi == Cdw11(e) / 0x100_0000 % 0x100
    ensures var (o, page) := (Identify(env, t, c, mem, e), env.page(cns, csi, 4112 * c.ns.maxKeys, c.ns.nuse));
            && o.c == c && o.cdw0 == 0
            && (!Known(cns) ==> o.status == 0x4002 && o.mem == mem)
            && (Known(cns) && |page| == 4096 ==>
                  && o.mem == PrpWrite(env, t + 1, mem, Prp1(e), Prp2(e), page)
                  && o.status == if PrpOk(env, t + 1, Prp1(e), Prp2(e), 4096, |mem|) then 0 else 0x4002)
  {
  }

  // A page that Identify sends is in the host's buffer, if its two ranges are apart.
  lemma IdentifyArrives(env: Env, t: nat, c: Ctrl, mem: seq<byte>, e: Sqe)
    requires |c.sq| == |c.cq| == 64 && e[0] == 0x06 && AdminExec(env, t, c, mem, e).status == 0
    requires |env.page(e[40], e[47], 4112 * c.ns.maxKeys, c.ns.nuse)| == 4096
    requires forall x ::
      !(InRange(x, Prp1(e), FirstPart(Prp1(e), 4096)) && InRange(x, Prp2(e), 4096 - FirstPart(Prp1(e), 4096)))
    ensures var m := AdminExec(env, t, c, mem, e).mem;
            && PrpFits(Prp1(e), Prp2(e), 4096, |m|)
            && PrpPeek(m, Prp1(e), Prp2(e), 4096) == env.page(e[40], e[47], 4112 * c.ns.maxKeys, c.ns.nuse)
  {
    var page := env.page(e[40], e[47], 4112 * c.ns.maxKeys, c.ns.nuse);
    IdentifyLaw(env, t, c, mem, e);
    PrpExact(env, t + 1, mem, Prp1(e), Prp2(e), page);
    PeekPoke(mem, Prp1(e), Prp2(e), page);
  }

  // Features: Number of Queues answers the smaller of what is asked for and 62, in each half; EDNEK is stored and
  // reported; the others succeed without effect.
  lemma FeaturesLaw(env: Env, t: nat, c: Ctrl, mem: seq<byte>, e: Sqe)
    requires |c.sq| == |c.cq| == 64 && (e[0] == 0x09 || e[0] == 0x0a)
    ensures var o := AdminExec(env, t, c, mem, e);
            && o.status == 0 && o.mem == mem
            && (e[0] == 0x09 && e[40] == 0x20 ==> o.c == c.(ns := c.ns.(ednek := Cdw11(e))) && o.cdw0 == 0)
            && (!(e[0] == 0x09 && e[40] == 0x20) ==> o.c == c)
            && (e[0] == 0x09 && e[40] == 0x07 ==>
                  && o.cdw0 % 0x1_0000 == Min(RdLe(e[44..46]), 62) && o.cdw0 / 0x1_0000 == Min(RdLe(e[46..48]), 62))
            && (e[0] == 0x0a && e[40] == 0x07 ==> o.cdw0 == 0x003e_003e)
            && (e[0] == 0x0a && e[40] == 0x20 ==> o.cdw0 == c.ns.ednek)
            && (e[40] != 0x07 && e[40] != 0x20 ==> o.cdw0 == 0)
  {
    RawDwords(e);
  }

  // Get Log Page succeeds without effect; an Asynchronous Event Request stays open; every other opcode is refused for
  // good.
  lemma OtherLaw(env: Env, t: nat, c: Ctrl, mem: seq<byte>, e: Sqe)
    requires |c.sq| == |c.cq| == 64
    requires e[0] == 0x02 || e[0] == 0x03 || e[0] == 0x07 || e[0] == 0x08 || e[0] >= 0x0b
    ensures AdminExec(env, t, c, mem, e)
         == AdminOut(c, mem, if e[0] == 0x02 then 0 else if e[0] == 0x0c then 0xffff else 0x4001, 0)
  {
  }

  // ---------------------------------------------------------------- a queue that is not there

  ghost predicate CreatesSq(e: Entry, q: nat) {
    match e
    case Entry(qid, _, _, sqe, _, _, _, _, _) => qid == 0 && sqe[0] == 0x01 && RdLe(sqe[40..42]) == q
  }

  // The log creates submission queue q.
  ghost predicate Creates(log: seq<Entry>, q: nat) { exists i :: 0 <= i < |log| && CreatesSq(log[i], q) }

  // The log has no command of queue q.
  ghost predicate Silent(log: seq<Entry>, q: nat) { forall i :: 0 <= i < |log| ==> log[i].qid != q }

  ghost predicate Down(c: Ctrl, q: nat) { q < |c.sq| && !c.sq[q].enabled }

  // No command but the one that creates it brings queue q up.
  lemma ExecDown(env: Env, t: nat, p: nat, c: Ctrl, mem: seq<byte>, e: Sqe, q: nat)
    requires CtrlOk(c) && 0 < q < MAX_QUEUES && Down(c, q)
    requires !(p == 0 && e[0] == 0x01 && RdLe(e[40..42]) == q)
    ensures Down(Exec(env, t, p, c, mem, e).c, q)
  {
    RawDwords(e);
    if p > 0 {
      IoKeeps(env, t, c, mem, e);
    }
  }

  lemma FinishDown(env: Env, t: nat, p: u16, index: nat, r: Sq, e: Sqe, x: Inbound, sent: Option<seq<byte>>,
                   o: AdminOut, q: nat)
    requires r.cqid < |o.c.cq| && Down(o.c, q)
    ensures var (s', en) := Finish(env, t, p, index, r, e, x, sent, o);
            Down(s'.c, q) && en.qid == p && en.sqe == e
  {
  }

  lemma ServeDown(env: Env, s: Sys, p: nat, e: Sqe, q: nat)
    requires CtrlOk(s.c) && p < MAX_QUEUES && s.c.sq[p].enabled && 0 < q < MAX_QUEUES && Down(s.c, q)
    ensures var (s', en) := Serve(env, s, p, e);
            en.qid == p != q && (!CreatesSq(en, q) ==> Down(s'.c, q))
  {
    var c, x := StepHead(s.c, p), Delivered(env, s.now, s.mem, e);
    var o := Exec(env, s.now, p, c, s.mem, e);
    StepHeadKeeps(s.c, p);
    ExecShape(env, s.now, p, c, s.mem, e);
    var sent := Sent(env, s.now, p, s.c.ns, e, x);
    if p == 0 && e[0] == 0x01 && RdLe(e[40..42]) == q {
      FinishKeepsNs(env, s.now, p, s.c.sq[p].head, c.sq[p], e, x, sent, o);
    } else {
      ExecDown(env, s.now, p, c, s.mem, e, q);
      FinishDown(env, s.now, p, s.c.sq[p].head, c.sq[p], e, x, sent, o, q);
    }
  }

  lemma CreatesCons(e: Entry, rest: seq<Entry>, q: nat)
    requires !Creates([e] + rest, q)
    ensures !CreatesSq(e, q) && !Creates(rest, q)
    ensures e.qid != q && Silent(rest, q) ==> Silent([e] + rest, q)
  {
    assert ([e] + rest)[0] == e;
    assert forall i :: 0 <= i < |rest| ==> ([e] + rest)[i + 1] == rest[i];
  }

  lemma {:induction false} ProcessDown(env: Env, s: Sys, p: nat, q: nat)
    requires CtrlOk(s.c) && p < MAX_QUEUES && 0 < q < MAX_QUEUES && Down(s.c, q)
    requires !Creates(ProcessSq(env, s, p).1, q)
    ensures Silent(ProcessSq(env, s, p).1, q) && Down(ProcessSq(env, s, p).0.c, q)
    decreases Backlog(s.c.sq[p])
  {
    if !s.c.sq[p].enabled || s.c.sq[p].head == s.c.sq[p].tail {
      ProcessDone(env, s, p);
    } else if !Fetch(env, s, p).ok {
      ProcessStuck(env, s, p);
    } else {
      var e := Fetch(env, s, p).data;
      var (s1, en) := Serve(env, s, p, e);
      ProcessTurn(env, s, p);
      ServeDown(env, s, p, e, q);
      CreatesCons(en, ProcessSq(env, s1, p).1, q);
      ProcessDown(env, s1, p, q);
    }
  }

  lemma RegWriteDown(c: Ctrl, offset: nat, v: u64, count: nat, q: nat)
    requires CtrlOk(c) && 0 < q < MAX_QUEUES && Down(c, q)
    ensures Down(RegWrite(c, offset, v, count), q)
  {
  }

  lemma StepDown(env: Env, s: Sys, e: Event, q: nat)
    requires CtrlOk(s.c) && Allowed(s, e) && 0 < q < MAX_QUEUES && Down(s.c, q)
    requires !Creates(Step(env, s, e).1.log, q)
    ensures Silent(Step(env, s, e).1.log, q) && Down(Step(env, s, e).0.c, q)
  {
    match e
    case Write(offset, data) =>
      if offset < REG_DOORBELL {
        PowBound(|data|);
        RegWriteDown(s.c, offset, RdLe(data), |data|, q);
      } else if DoorbellQid(offset) < MAX_QUEUES && !DoorbellIsCq(offset) {
        var p, v := DoorbellQid(offset), DoorbellValue(data);
        ProcessDown(env, s.(c := RingDoorbell(s.c, p, v)), p, q);
      }
    case _ =>
  }

  lemma CreatesConcat(a: seq<Entry>, b: seq<Entry>, q: nat)
    requires !Creates(a + b, q)
    ensures !Creates(a, q) && !Creates(b, q)
    ensures Silent(a, q) && Silent(b, q) ==> Silent(a + b, q)
  {
    assert forall i :: 0 <= i < |a| ==> (a + b)[i] == a[i];
    assert forall i :: 0 <= i < |b| ==> (a + b)[|a| + i] == b[i];
  }

  // A submission queue that is down serves nothing, in any run, until it is created.
  lemma {:induction false} RunDown(env: Env, s: Sys, es: seq<Event>, q: nat)
    requires CtrlOk(s.c) && HostObeys(env, s, es) && 0 < q < MAX_QUEUES && Down(s.c, q)
    requires !Creates(Logs(Run(env, s, es).1), q)
    ensures Silent(Logs(Run(env, s, es).1), q) && Down(Run(env, s, es).0.c, q)
    decreases |es|
  {
    if es != [] {
      var (s1, o) := Step(env, s, es[0]);
      StepKeeps(env, s, es[0]);
      var os := Run(env, s1, es[1..]).1;
      assert ([o] + os)[1..] == os;
      CreatesConcat(o.log, Logs(os), q);
      StepDown(env, s, es[0], q);
      RunDown(env, s1, es[1..], q);
    }
  }

  // So does a queue that has been deleted.
  lemma DeletedSqIsSilent(env: Env, t: nat, s: Sys, e: Sqe, es: seq<Event>)
    requires CtrlOk(s.c) && e[0] == 0x00 && 0 < RdLe(e[40..42]) < 64
    ensures var (c, q) := (AdminExec(env, t, s.c, s.mem, e).c, RdLe(e[40..42]));
            && CtrlOk(c)
            && (HostObeys(env, s.(c := c), es) && !Creates(Logs(Run(env, s.(c := c), es).1), q) ==>
                  Silent(Logs(Run(env, s.(c := c), es).1), q))
  {
    var c, q := AdminExec(env, t, s.c, s.mem, e).c, RdLe(e[40..42]);
    AdminKeeps(env, t, s.c, s.mem, e);
    DeleteLaw(env, t, s.c, s.mem, e);
    if HostObeys(env, s.(c := c), es) && !Creates(Logs(Run(env, s.(c := c), es).1), q) {
      RunDown(env, s.(c := c), es, q);
    }
  }
}
