/** Runs of the device under an arbitrary host, and what holds of every one of them. */
module Runs {
  import opened Bytes
  import opened NvmeSpec
  import opened GuestMemory
  import opened KvSlots
  import opened KvMap
  import opened Queues
  import opened ControllerState
  import opened Registers

  // What can happen to the device: BAR0 accesses, a device reset, and the host writing its own memory.
  datatype Event =
    | Write(offset: nat, data: seq<byte>)
    | Read(offset: nat, count: nat)
    | ResetDevice
    | HostStore(at: nat, data: seq<byte>)

  // What the host sees of an event: the commands completed, and the bytes a read returned.
  datatype Seen = Seen(log: seq<Entry>, value: seq<byte>)

  ghost predicate Allowed(s: Sys, e: Event) {
    match e
    case Write(offset, data) => WriteAllowed(s.c, offset, data)
    case HostStore(at, data) => at + |data| <= |s.mem|
    case _ => true
  }

  function Step(env: Env, s: Sys, e: Event): (Sys, Seen)
    requires CtrlOk(s.c) && Allowed(s, e)
  {
    match e
    case Write(offset, data) =>
      var (s', log) := BarWrite(env, s, offset, data);
      (s', Seen(log, []))
    case Read(offset, count) => (s, Seen([], BarRead(s.c, offset, count)))
    case ResetDevice => (s.(c := ResetCtrl(s.c)), Seen([], []))
    case HostStore(at, data) => (s.(mem := Poke(s.mem, at, data)), Seen([], []))
  }

  lemma StepKeeps(env: Env, s: Sys, e: Event)
    requires CtrlOk(s.c) && Allowed(s, e)
    ensures var s' := Step(env, s, e).0;
            Kept(s, s') && s'.c.r.cap == s.c.r.cap && s'.c.r.vs == s.c.r.vs
  {
    match e
    case Write(offset, data) => BarWriteKeeps(env, s, offset, data);
    case ResetDevice => DownKeeps(s.c);
    case _ =>
  }

  // The host keeps its side of the protocol throughout.
  ghost predicate HostObeys(env: Env, s: Sys, es: seq<Event>)
    requires CtrlOk(s.c)
    decreases |es|
  {
    es == [] || (Allowed(s, es[0]) && (StepKeeps(env, s, es[0]); HostObeys(env, Step(env, s, es[0]).0, es[1..])))
  }

  // A whole run: the final state and everything the host saw.
  ghost function Run(env: Env, s: Sys, es: seq<Event>): (Sys, seq<Seen>)
    requires CtrlOk(s.c) && HostObeys(env, s, es)
    decreases |es|
  {
    if es == [] then (s, [])
    else
      var (s1, o) := Step(env, s, es[0]);
      StepKeeps(env, s, es[0]);
      var (s2, os) := Run(env, s1, es[1..]);
      (s2, [o] + os)
  }

  lemma RunCons(env: Env, s: Sys, e: Event, rest: seq<Event>)
    requires CtrlOk(s.c) && Allowed(s, e)
    ensures var s1 := Step(env, s, e).0;
            && CtrlOk(s1.c)
            && (HostObeys(env, s1, rest) ==>
                  HostObeys(env, s, [e] + rest) && Run(env, s, [e] + rest).0 == Run(env, s1, rest).0)
  {
    StepKeeps(env, s, e);
    assert ([e] + rest)[1..] == rest;
  }

  ghost function Logs(os: seq<Seen>): seq<Entry> {
    if os == [] then [] else os[0].log + Logs(os[1..])
  }

  function PowerOn(maxKeys: nat, mem: seq<byte>): Sys { Sys(NewCtrl(maxKeys), mem, 0) }

  lemma PowerOnOk(maxKeys: nat, mem: seq<byte>)
    requires maxKeys <= INT_MAX
    ensures CtrlOk(PowerOn(maxKeys, mem).c) && CstsOk(PowerOn(maxKeys, mem).c)
  {
    NewNsOk(maxKeys);
    NewCstsOk(maxKeys);
  }

  // ---------------------------------------------------------------- control state over runs

  ghost predicate SameSqShape(a: Sq, b: Sq) { b == a.(head := b.head, tail := b.tail) }
  ghost predicate SameCqShape(a: Cq, b: Cq) { b == a.(head := b.head, tail := b.tail, phase := b.phase) }

  // No command changes the geometry or the enabled flag of the admin queue pair.
  lemma ServePairZero(env: Env, s: Sys, q: nat, e: Sqe)
    requires CtrlOk(s.c) && q < MAX_QUEUES && s.c.sq[q].enabled
    ensures var c' := Serve(env, s, q, e).0.c;
            && |c'.sq| == |c'.cq| == MAX_QUEUES
            && SameSqShape(s.c.sq[0], c'.sq[0]) && SameCqShape(s.c.cq[0], c'.cq[0])
  {
    var c := StepHead(s.c, q);
    StepHeadKeeps(s.c, q);
    ExecKeeps(env, s.now, q, c, s.mem, e);
    var o := Exec(env, s.now, q, c, s.mem, e);
    if q == 0 {
      AdminKeeps(env, s.now, c, s.mem, e);
    } else {
      IoKeeps(env, s.now, c, s.mem, e);
    }
    if o.status != NO_COMPLETE {
      PostKeeps(env, s.now, o.c, o.mem, c.sq[q].cqid, q, c.sq[q].head, Cid(e), o.cdw0, o.status);
      if o.c.cq[0].enabled {
        AdvanceOk(o.c.cq[0]);
      }
    }
  }

  lemma {:induction false} ProcessPairZero(env: Env, s: Sys, q: nat)
    requires CtrlOk(s.c) && q < MAX_QUEUES
    ensures var c' := ProcessSq(env, s, q).0.c;
            && |c'.sq| == |c'.cq| == MAX_QUEUES
            && SameSqShape(s.c.sq[0], c'.sq[0]) && SameCqShape(s.c.cq[0], c'.cq[0])
    decreases Backlog(s.c.sq[q])
  {
    if !s.c.sq[q].enabled || s.c.sq[q].head == s.c.sq[q].tail {
      ProcessDone(env, s, q);
    } else if !Fetch(env, s, q).ok {
      ProcessStuck(env, s, q);
    } else {
      ProcessTurn(env, s, q);
      ServePairZero(env, s, q, Fetch(env, s, q).data);
      ProcessPairZero(env, Serve(env, s, q, Fetch(env, s, q).data).0, q);
    }
  }

  lemma ProcessCsts(env: Env, s: Sys, q: nat)
    requires CtrlOk(s.c) && q < MAX_QUEUES && CstsOk(s.c)
    ensures CtrlOk(ProcessSq(env, s, q).0.c) && CstsOk(ProcessSq(env, s, q).0.c)
  {
    ProcessKeeps(env, s, q);
    ProcessPairZero(env, s, q);
    if !s.c.sq[q].enabled {
      ProcessDone(env, s, q);
    } else {
      assert AnyEnabled(s.c);
    }
  }

  lemma StepCsts(env: Env, s: Sys, e: Event)
    requires CtrlOk(s.c) && Allowed(s, e) && CstsOk(s.c)
    ensures CtrlOk(Step(env, s, e).0.c) && CstsOk(Step(env, s, e).0.c)
  {
    StepKeeps(env, s, e);
    match e
    case Write(offset, data) => WriteCsts(env, s, offset, data);
    case ResetDevice =>
      DownIsDown(s.c);
      assert !AnyEnabled(ResetCtrl(s.c)) by { assert ResetCtrl(s.c).sq == Disable(s.c).sq; }
    case _ =>
  }

  lemma RegWriteCsts(c: Ctrl, offset: nat, v: u64, count: nat)
    requires CtrlOk(c) && CstsOk(c)
    ensures CtrlOk(RegWrite(c, offset, v, count)) && CstsOk(RegWrite(c, offset, v, count))
  {
    RegWriteKeeps(c, offset, v, count);
    if offset == REG_CC {
      WriteCcCsts(c, (v % TWO32) as bv32);
    } else {
      SameQueues(c, RegWrite(c, offset, v, count));
    }
  }

  lemma DoorbellCsts(env: Env, s: Sys, q: nat, v: u16)
    requires CtrlOk(s.c) && CstsOk(s.c) && q < MAX_QUEUES && (s.c.sq[q].enabled ==> v < s.c.sq[q].size)
    ensures var s1 := s.(c := RingDoorbell(s.c, q, v));
            CtrlOk(s1.c) && CtrlOk(ProcessSq(env, s1, q).0.c) && CstsOk(ProcessSq(env, s1, q).0.c)
  {
    var c := RingDoorbell(s.c, q, v);
    SameQueues(s.c, c);
    ProcessCsts(env, s.(c := c), q);
  }

  lemma WriteCsts(env: Env, s: Sys, offset: nat, data: seq<byte>)
    requires CtrlOk(s.c) && WriteAllowed(s.c, offset, data) && CstsOk(s.c)
    ensures CtrlOk(BarWrite(env, s, offset, data).0.c) && CstsOk(BarWrite(env, s, offset, data).0.c)
  {
    if offset < REG_DOORBELL {
      PowBound(|data|);
      RegWriteCsts(s.c, offset, RdLe(data), |data|);
    } else if DoorbellQid(offset) < MAX_QUEUES {
      if DoorbellIsCq(offset) {
        BarWriteKeeps(env, s, offset, data);
        SameQueues(s.c, BarWrite(env, s, offset, data).0.c);
      } else {
        DoorbellCsts(env, s, DoorbellQid(offset), DoorbellValue(data));
      }
    }
  }

  // Only CC, CSTS and the enabled flags matter to the CC/CSTS invariant.
  lemma SameQueues(c: Ctrl, d: Ctrl)
    requires |c.sq| == |c.cq| == |d.sq| == |d.cq| == MAX_QUEUES
    requires forall q :: 0 <= q < MAX_QUEUES ==>
      c.sq[q].enabled == d.sq[q].enabled && c.cq[q].enabled == d.cq[q].enabled
    requires c.r.cc == d.r.cc && c.r.csts == d.r.csts && c.sq[0].cqid == d.sq[0].cqid && CstsOk(c)
    ensures CstsOk(d)
  {
    assert AnyEnabled(d) == AnyEnabled(c);
  }

  // Every reachable state: the queue table and the namespace are well formed, CC and CSTS agree, and CAP, VS and
  // the key capacity are what they were at power-on.
  lemma {:induction false} RunInvariant(env: Env, s: Sys, es: seq<Event>)
    requires CtrlOk(s.c) && CstsOk(s.c) && HostObeys(env, s, es)
    ensures var s' := Run(env, s, es).0;
            && Kept(s, s') && CstsOk(s'.c) && s'.c.r.cap == s.c.r.cap && s'.c.r.vs == s.c.r.vs
    decreases |es|
  {
    if es != [] {
      StepKeeps(env, s, es[0]);
      StepCsts(env, s, es[0]);
      RunInvariant(env, Step(env, s, es[0]).0, es[1..]);
    }
  }

  // ---------------------------------------------------------------- the namespace over runs

  // The status and the payload of an I/O command are those the abstract namespace prescribes.
  ghost predicate IoAgrees(env: Env, cap: nat, size: nat, k: FullKv, e: Entry)
    requires DeliveredOk(KvOf(e.sqe), e.data)
  {
    var reply := Apply(k, cap, KvOf(e.sqe), e.data, env, e.tick).1;
    e.sent == Payload(reply) && e.status == FinalStatus(reply, env, e.tick, size, KvOf(e.sqe))
  }

  // What a fetched command does to the abstract namespace: I/O commands apply, Set Features may change EDNEK.
  ghost function ApplyEntry(env: Env, cap: nat, k: Kv, e: Entry): (k': Kv)
    requires FullValues(k) && DeliveredOk(KvOf(e.sqe), e.data)
    ensures FullValues(k')
  {
    if e.qid != 0 then Apply(k, cap, KvOf(e.sqe), e.data, env, e.tick).0
    else if e.sqe[0] == ADM_SET_FEATURES && Cdw10(e.sqe) % 0x100 == FEAT_KV_EDNEK then k.(ednek := Cdw11(e.sqe))
    else k
  }

  // An entry's data is what a command of its size can receive, and an I/O entry's answer is the map's.
  ghost predicate EntryExplained(env: Env, cap: nat, size: nat, k: FullKv, e: Entry) {
    match e
    case Entry(qid, _, _, sqe, data, _, _, _, _) =>
      DeliveredOk(KvOf(sqe), data) && (qid == 0 || IoAgrees(env, cap, size, k, e))
  }

  // The log, read as commands on the abstract namespace in fetch order, takes k to k' and explains every answer.
  ghost predicate Explains(env: Env, cap: nat, size: nat, k: FullKv, log: seq<Entry>, k': Kv)
    decreases |log|
  {
    if log == [] then k' == k
    else
      && EntryExplained(env, cap, size, k, log[0])
      && Explains(env, cap, size, ApplyEntry(env, cap, k, log[0]), log[1..], k')
  }

  lemma {:induction false} ExplainsConcat(env: Env, cap: nat, size: nat, k: Kv, a: seq<Entry>, k1: Kv,
                                          b: seq<Entry>, k2: Kv)
    requires FullValues(k) && Explains(env, cap, size, k, a, k1)
    requires FullValues(k1) && Explains(env, cap, size, k1, b, k2)
    ensures Explains(env, cap, size, k, a + b, k2)
    decreases |a|
  {
    if a == [] {
      assert a + b == b;
    } else {
      ExplainsConcat(env, cap, size, ApplyEntry(env, cap, k, a[0]), a[1..], k1, b, k2);
      TailConcat(a, b);
    }
  }

  lemma AdminNs(env: Env, t: nat, c: Ctrl, mem: seq<byte>, e: Sqe)
    requires |c.sq| == |c.cq| == MAX_QUEUES
    ensures AdminExec(env, t, c, mem, e).c.ns == if e[0] == ADM_SET_FEATURES && Cdw10(e) % 0x100 == FEAT_KV_EDNEK
                                                 then c.ns.(ednek := Cdw11(e)) else c.ns
  {
  }

  lemma EdnekRefines(ns: Ns, v: u32)
    requires NsOk(ns)
    ensures NsOk(ns.(ednek := v)) && Abs(ns.(ednek := v)) == Abs(ns).(ednek := v)
  {
  }

  lemma AdminRefines(env: Env, t: nat, c: Ctrl, mem: seq<byte>, e: Sqe)
    requires CtrlOk(c)
    ensures var ns := AdminExec(env, t, c, mem, e).c.ns;
            NsOk(ns) && Abs(ns) == if e[0] == ADM_SET_FEATURES && Cdw10(e) % 0x100 == FEAT_KV_EDNEK
                                   then Abs(c.ns).(ednek := Cdw11(e)) else Abs(c.ns)
  {
    AdminNs(env, t, c, mem, e);
    EdnekRefines(c.ns, Cdw11(e));
  }

  lemma ServeIoRefines(env: Env, s: Sys, q: nat, e: Sqe)
    requires CtrlOk(s.c) && 0 < q < MAX_QUEUES && s.c.sq[q].enabled
    ensures var (s', entry) := Serve(env, s, q, e);
            && DeliveredOk(KvOf(entry.sqe), entry.data)
            && IoAgrees(env, s.c.ns.maxKeys, |s.mem|, Abs(s.c.ns), entry)
            && NsOk(s'.c.ns) && Abs(s'.c.ns) == ApplyEntry(env, s.c.ns.maxKeys, Abs(s.c.ns), entry)
  {
    KvRefines(s.c.ns, KvOf(e), Delivered(env, s.now, s.mem, e), env, s.now);
  }

  lemma FinishKeepsNs(env: Env, t: nat, q: u16, index: nat, r: Sq, e: Sqe, x: Inbound, sent: Option<seq<byte>>,
                      o: AdminOut)
    requires r.cqid < |o.c.cq|
    ensures var (s', entry) := Finish(env, t, q, index, r, e, x, sent, o);
            s'.c.ns == o.c.ns && entry.qid == q && entry.sqe == e && entry.data == x
  {
  }

  lemma ServeAdminRefines(env: Env, s: Sys, e: Sqe)
    requires CtrlOk(s.c) && s.c.sq[0].enabled
    ensures var (s', entry) := Serve(env, s, 0, e);
            && entry.qid == 0 && DeliveredOk(KvOf(entry.sqe), entry.data)
            && NsOk(s'.c.ns) && Abs(s'.c.ns) == ApplyEntry(env, s.c.ns.maxKeys, Abs(s.c.ns), entry)
  {
    var c, x := StepHead(s.c, 0), Delivered(env, s.now, s.mem, e);
    AdminRefines(env, s.now, c, s.mem, e);
    ExecShape(env, s.now, 0, c, s.mem, e);
    FinishKeepsNs(env, s.now, 0, s.c.sq[0].head, c.sq[0], e, x, Sent(env, s.now, 0, s.c.ns, e, x),
                  Exec(env, s.now, 0, c, s.mem, e));
  }

  // One served command, on the abstract namespace.
  lemma ServeRefines(env: Env, s: Sys, q: nat, e: Sqe)
    requires CtrlOk(s.c) && q < MAX_QUEUES && s.c.sq[q].enabled
    ensures var (s', entry) := Serve(env, s, q, e);
            && NsOk(s'.c.ns) && DeliveredOk(KvOf(entry.sqe), entry.data)
            && (entry.qid == 0 || IoAgrees(env, s.c.ns.maxKeys, |s.mem|, Abs(s.c.ns), entry))
            && Abs(s'.c.ns) == ApplyEntry(env, s.c.ns.maxKeys, Abs(s.c.ns), entry)
  {
    if q > 0 {
      ServeIoRefines(env, s, q, e);
    } else {
      ServeAdminRefines(env, s, e);
    }
  }

  lemma {:induction false} ProcessRefines(env: Env, s: Sys, q: nat)
    requires CtrlOk(s.c) && q < MAX_QUEUES
    ensures var (s', log) := ProcessSq(env, s, q);
            NsOk(s'.c.ns) && Explains(env, s.c.ns.maxKeys, |s.mem|, Abs(s.c.ns), log, Abs(s'.c.ns))
    decreases Backlog(s.c.sq[q])
  {
    if !s.c.sq[q].enabled || s.c.sq[q].head == s.c.sq[q].tail {
      ProcessDone(env, s, q);
    } else if !Fetch(env, s, q).ok {
      ProcessStuck(env, s, q);
    } else {
      var e := Fetch(env, s, q).data;
      ProcessTurn(env, s, q);
      ServeKeeps(env, s, q, e);
      ServeRefines(env, s, q, e);
      ProcessRefines(env, Serve(env, s, q, e).0, q);
    }
  }

  lemma WriteRefines(env: Env, s: Sys, offset: nat, data: seq<byte>)
    requires CtrlOk(s.c) && WriteAllowed(s.c, offset, data)
    ensures var (s', log) := BarWrite(env, s, offset, data);
            NsOk(s'.c.ns) && Explains(env, s.c.ns.maxKeys, |s.mem|, Abs(s.c.ns), log, Abs(s'.c.ns))
  {
    if offset < REG_DOORBELL {
      PowBound(|data|);
      RegWriteKeeps(s.c, offset, RdLe(data), |data|);
    } else if DoorbellQid(offset) < MAX_QUEUES && !DoorbellIsCq(offset) {
      ProcessRefines(env, s.(c := RingDoorbell(s.c, DoorbellQid(offset), DoorbellValue(data))), DoorbellQid(offset));
    }
  }

  lemma StepRefines(env: Env, s: Sys, e: Event)
    requires CtrlOk(s.c) && Allowed(s, e)
    ensures var (s', o) := Step(env, s, e);
            NsOk(s'.c.ns) && Explains(env, s.c.ns.maxKeys, |s.mem|, Abs(s.c.ns), o.log, Abs(s'.c.ns))
  {
    match e
    case Write(offset, data) => WriteRefines(env, s, offset, data);
    case _ =>
  }

  // End to end: over any run of the host, the namespace is the fold of the abstract map over the fetched commands
  // in fetch order, and every I/O command was answered as the map prescribes at that point.
  lemma {:induction false} RunRefines(env: Env, s: Sys, es: seq<Event>)
    requires CtrlOk(s.c) && HostObeys(env, s, es)
    ensures var (s', os) := Run(env, s, es);
            NsOk(s'.c.ns) && Explains(env, s.c.ns.maxKeys, |s.mem|, Abs(s.c.ns), Logs(os), Abs(s'.c.ns))
    decreases |es|
  {
    if es != [] {
      var (s1, o) := Step(env, s, es[0]);
      StepKeeps(env, s, es[0]);
      StepRefines(env, s, es[0]);
      RunRefines(env, s1, es[1..]);
      var (s2, os) := Run(env, s1, es[1..]);
      assert ([o] + os)[1..] == os;
      ExplainsConcat(env, s.c.ns.maxKeys, |s.mem|, Abs(s.c.ns), o.log, Abs(s1.c.ns), Logs(os), Abs(s2.c.ns));
    }
  }

  // Space over every run: NUSE is the footprint of the live keys, which never exceed the capacity, and the slot
  // array is a doubling of 16 no larger than the capacity needs.
  lemma RunAccounting(env: Env, maxKeys: nat, mem: seq<byte>, es: seq<Event>)
    requires maxKeys <= INT_MAX
    requires CtrlOk(PowerOn(maxKeys, mem).c) && HostObeys(env, PowerOn(maxKeys, mem), es)
    ensures var ns := Run(env, PowerOn(maxKeys, mem), es).0.c.ns;
            && NsOk(ns) && ns.maxKeys == maxKeys
            && ns.nuse == FOOTPRINT * |Abs(ns).m| <= Nsze(ns) && |Abs(ns).m| <= maxKeys
            && Doubled(|ns.slots|) && (|ns.slots| <= INITIAL_SLOTS || |ns.slots| <= 2 * (maxKeys - 1))
  {
    PowerOnOk(maxKeys, mem);
    RunInvariant(env, PowerOn(maxKeys, mem), es);
    CapacityTest(Run(env, PowerOn(maxKeys, mem), es).0.c.ns);
  }
}
