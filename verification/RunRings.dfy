/** A completion queue over whole runs: whatever submission queues feed it, its ring holds exactly its completions. */
module RunRings {
  import opened Bytes
  import opened NvmeSpec
  import opened GuestMemory
  import opened KvSlots
  import opened KvMap
  import opened Queues
  import opened ControllerState
  import opened CompletionRing
  import opened Registers
  import opened Runs
  import opened Completions

  // A ring of guest memory that completion queue id writes.
  datatype Ring = Ring(id: nat, dma: u64, size: nat)

  ghost predicate InRing(g: Ring, x: int) { InRange(x, g.dma, CQE_SIZE * g.size) }

  // The queue is enabled on that ring and has taken |done| posts since it was created.
  ghost predicate Serving(c: Ctrl, g: Ring, n: nat) {
    match g
    case Ring(id, dma, size) =>
      id < |c.cq| && c.cq[id].enabled && c.cq[id].dma == dma && c.cq[id].size == size <= 0xffff && Posted(c.cq[id], n)
  }

  ghost predicate Holds(mem: seq<byte>, g: Ring, done: seq<Cqe>) {
    match g
    case Ring(_, dma, size) => |mem| <= TWO64 && RingHolds(mem, dma, size, done)
  }

  // The completions the log posted to queue id, in order.
  ghost function PostedTo(log: seq<Entry>, id: nat): seq<Cqe> {
    if log == [] then []
    else (match log[0].posted case Some(p) => (if p.cqid == id then [p.cqe] else []) case None => [])
         + PostedTo(log[1..], id)
  }

  // A served command respects the ring: its payload and the completions of other queues miss it, its own completion
  // on it reaches memory, and it does not create or delete the queue.
  ghost predicate Respects(e: Entry, g: Ring) {
    && (e.sent.Some? ==> forall x :: InBuffer(x, Prp1(e.sqe), Prp2(e.sqe), |e.sent.value|) ==> !InRing(g, x))
    && (e.posted.Some? ==> PostRespects(e.posted.value, g))
    && (e.qid == 0 && (e.sqe[0] == ADM_CREATE_CQ || e.sqe[0] == ADM_DELETE_CQ) ==> Qid(e.sqe) != g.id)
  }

  ghost predicate PostRespects(p: Posting, g: Ring) {
    if p.cqid == g.id then p.delivered else forall x :: InRange(x, p.addr, CQE_SIZE) ==> !InRing(g, x)
  }

  ghost predicate AllRespect(log: seq<Entry>, g: Ring) { forall i :: 0 <= i < |log| ==> Respects(log[i], g) }

  // ---------------------------------------------------------------- one command

  lemma HoldsFrame(m: seq<byte>, m': seq<byte>, g: Ring, done: seq<Cqe>)
    requires Holds(m, g, done) && |m'| == |m| && forall x :: 0 <= x < |m| && InRing(g, x) ==> m'[x] == m[x]
    ensures Holds(m', g, done)
  {
    forall x | g.dma <= x < SlotAt(g.dma, g.size) ensures m'[x] == m[x] {
      assert InRing(g, x);
    }
    RingFrame(m, m', g.dma, g.size, done);
  }

  lemma PayloadMisses(env: Env, t: nat, mem: seq<byte>, e: Sqe, sent: Option<seq<byte>>, g: Ring, done: seq<Cqe>)
    requires Holds(mem, g, done)
    requires sent.Some? ==> forall x :: InBuffer(x, Prp1(e), Prp2(e), |sent.value|) ==> !InRing(g, x)
    ensures Holds(SentMem(env, t, mem, e, sent), g, done)
  {
    var m := SentMem(env, t, mem, e, sent);
    forall x | 0 <= x < |mem| && InRing(g, x) ensures m[x] == mem[x] {
      if sent.Some? {
        PrpFrame(env, t + 1, mem, Prp1(e), Prp2(e), sent.value, x);
      }
    }
    HoldsFrame(mem, m, g, done);
  }

  lemma OtherPost(env: Env, t: nat, m: seq<byte>, at: nat, cqe: Cqe, g: Ring, done: seq<Cqe>)
    requires Holds(m, g, done) && forall x :: InRange(x, at, CQE_SIZE) ==> !InRing(g, x)
    ensures Holds(GpaWrite(env, t, m, at, cqe), g, done)
  {
    if GpaOk(env, t, at, CQE_SIZE, |m|) {
      GpaExact(env, t, m, at, cqe);
    }
    HoldsFrame(m, GpaWrite(env, t, m, at, cqe), g, done);
  }

  lemma OwnPost(env: Env, t: nat, m: seq<byte>, q: Cq, cqe: Cqe, g: Ring, done: seq<Cqe>)
    requires Holds(m, g, done) && q.dma == g.dma && q.size == g.size && Posted(q, |done|)
    requires CqePhase(cqe) == q.phase && GpaOk(env, t, CqeAddr(q), CQE_SIZE, |m|)
    ensures Holds(GpaWrite(env, t, m, CqeAddr(q), cqe), g, done + [cqe])
  {
    WriteAppends(env, t, m, q, done, cqe);
  }

  lemma PostsPhase(k: Cq, n: nat, sqid: u16, head: u16, cid: u16, cdw0: u32, status: u16)
    requires Posted(k, n)
    ensures CqePhase(MakeCqe(cdw0, head, sqid, cid, status, k.phase)) == k.phase
  {
    CqeRoundTrip(cdw0, head, sqid, cid, status, k.phase);
  }

  lemma ServingAdvances(c: Ctrl, g: Ring, n: nat)
    requires Serving(c, g, n)
    ensures Serving(c.(cq := c.cq[g.id := Advance(c.cq[g.id])]), g, n + 1)
  {
    AdvancePosted(c.cq[g.id], n);
  }

  // A posting on queue record k of completion queue cqid, which then becomes Advance(k).
  lemma PostRing(env: Env, t: nat, c: Ctrl, m: seq<byte>, cqid: nat, sqid: u16, head: u16, cid: u16, cdw0: u32,
                 status: u16, g: Ring, done: seq<Cqe>)
    requires cqid < |c.cq| && Serving(c, g, |done|) && Holds(m, g, done)
    requires var p := Post(env, t, c, m, cqid, sqid, head, cid, cdw0, status).2; p.Some? ==> PostRespects(p.value, g)
    ensures var (c', m', p) := Post(env, t, c, m, cqid, sqid, head, cid, cdw0, status);
            var more := if p.Some? && p.value.cqid == g.id then [p.value.cqe] else [];
            Serving(c', g, |done| + |more|) && Holds(m', g, done + more)
  {
    var k := c.cq[cqid];
    assert done + [] == done;
    if k.enabled {
      var cqe := MakeCqe(cdw0, head, sqid, cid, status, k.phase);
      if cqid == g.id {
        PostsPhase(k, |done|, sqid, head, cid, cdw0, status);
        OwnPost(env, t + 3, m, k, cqe, g, done);
        ServingAdvances(c, g, |done|);
      } else {
        OtherPost(env, t + 3, m, CqeAddr(k), cqe, g, done);
      }
    }
  }

  lemma OnePosted(e: Entry, id: nat)
    ensures PostedTo([e], id) == if e.posted.Some? && e.posted.value.cqid == id then [e.posted.value.cqe] else []
  {
    assert PostedTo([e][1..], id) == [];
  }

  // The end of a command, as far as the ring is concerned.
  lemma FinishRing(env: Env, t: nat, q: u16, index: nat, r: Sq, e: Sqe, x: Inbound, sent: Option<seq<byte>>,
                   o: AdminOut, g: Ring, done: seq<Cqe>)
    requires r.cqid < |o.c.cq| && Serving(o.c, g, |done|) && Holds(o.mem, g, done)
    requires var p := Finish(env, t, q, index, r, e, x, sent, o).1.posted; p.Some? ==> PostRespects(p.value, g)
    ensures var (s', en) := Finish(env, t, q, index, r, e, x, sent, o);
            Serving(s'.c, g, |done + PostedTo([en], g.id)|) && Holds(s'.mem, g, done + PostedTo([en], g.id))
  {
    OnePosted(Finish(env, t, q, index, r, e, x, sent, o).1, g.id);
    if o.status == NO_COMPLETE {
      assert done + [] == done;
    } else {
      PostRing(env, t, o.c, o.mem, r.cqid, q, r.head, Cid(e), o.cdw0, o.status, g, done);
    }
  }

  // The records of completion queues change only by the commands that name them.
  lemma ExecCq(env: Env, t: nat, q: nat, c: Ctrl, mem: seq<byte>, e: Sqe, id: nat)
    requires CtrlOk(c) && id < MAX_QUEUES
    requires q == 0 && (e[0] == ADM_CREATE_CQ || e[0] == ADM_DELETE_CQ) ==> Qid(e) != id
    ensures var d := Exec(env, t, q, c, mem, e).c;
            |d.cq| == MAX_QUEUES && d.cq[id] == c.cq[id]
  {
    if q > 0 {
      IoKeeps(env, t, c, mem, e);
    } else {
      AdminOtherCq(env, t, c, mem, e, id);
    }
  }

  lemma AdminOtherCq(env: Env, t: nat, c: Ctrl, mem: seq<byte>, e: Sqe, id: nat)
    requires CtrlOk(c) && id < MAX_QUEUES
    requires e[0] == ADM_CREATE_CQ || e[0] == ADM_DELETE_CQ ==> Qid(e) != id
    ensures var d := AdminExec(env, t, c, mem, e).c;
            |d.cq| == MAX_QUEUES && d.cq[id] == c.cq[id]
  {
  }

  lemma ServeRing(env: Env, s: Sys, q: nat, e: Sqe, g: Ring, done: seq<Cqe>)
    requires CtrlOk(s.c) && q < MAX_QUEUES && s.c.sq[q].enabled
    requires Serving(s.c, g, |done|) && Holds(s.mem, g, done) && Respects(Serve(env, s, q, e).1, g)
    ensures var (s', en) := Serve(env, s, q, e);
            Serving(s'.c, g, |done + PostedTo([en], g.id)|) && Holds(s'.mem, g, done + PostedTo([en], g.id))
  {
    var c, x := StepHead(s.c, q), Delivered(env, s.now, s.mem, e);
    var sent, o := Sent(env, s.now, q, s.c.ns, e, x), Exec(env, s.now, q, c, s.mem, e);
    ServeTraced(env, s, q, e);
    StepHeadKeeps(s.c, q);
    ExecShape(env, s.now, q, c, s.mem, e);
    ExecMem(env, s.now, q, c, s.mem, e);
    ExecCq(env, s.now, q, c, s.mem, e, g.id);
    PayloadMisses(env, s.now, s.mem, e, sent, g, done);
    FinishRing(env, s.now, q, s.c.sq[q].head, c.sq[q], e, x, sent, o, g, done);
  }

  // ---------------------------------------------------------------- batches and runs

  lemma {:induction false} PostedConcat(a: seq<Entry>, b: seq<Entry>, id: nat)
    ensures PostedTo(a + b, id) == PostedTo(a, id) + PostedTo(b, id)
  {
    if a == [] {
      assert a + b == b;
    } else {
      PostedConcat(a[1..], b, id);
      TailConcat(a, b);
    }
  }

  lemma RespectCons(e: Entry, rest: seq<Entry>, g: Ring)
    requires AllRespect([e] + rest, g)
    ensures Respects(e, g) && AllRespect(rest, g)
  {
    assert ([e] + rest)[0] == e;
    assert forall i :: 0 <= i < |rest| ==> ([e] + rest)[i + 1] == rest[i];
  }

  lemma DoneCons(done: seq<Cqe>, e: Entry, rest: seq<Entry>, id: nat)
    ensures (done + PostedTo([e], id)) + PostedTo(rest, id) == done + PostedTo([e] + rest, id)
  {
    PostedConcat([e], rest, id);
    Assoc(done, PostedTo([e], id), PostedTo(rest, id));
  }

  lemma {:induction false} ProcessRing(env: Env, s: Sys, q: nat, g: Ring, done: seq<Cqe>)
    requires CtrlOk(s.c) && q < MAX_QUEUES && Serving(s.c, g, |done|) && Holds(s.mem, g, done)
    requires AllRespect(ProcessSq(env, s, q).1, g)
    ensures var (s', log) := ProcessSq(env, s, q);
            Serving(s'.c, g, |done + PostedTo(log, g.id)|) && Holds(s'.mem, g, done + PostedTo(log, g.id))
    decreases Backlog(s.c.sq[q])
  {
    if !s.c.sq[q].enabled || s.c.sq[q].head == s.c.sq[q].tail {
      ProcessDone(env, s, q);
      assert done + [] == done;
    } else if !Fetch(env, s, q).ok {
      ProcessStuck(env, s, q);
      assert done + [] == done;
    } else {
      var e := Fetch(env, s, q).data;
      var (s1, en) := Serve(env, s, q, e);
      ProcessTurn(env, s, q);
      RespectCons(en, ProcessSq(env, s1, q).1, g);
      ServeRing(env, s, q, e, g, done);
      ProcessRing(env, s1, q, g, done + PostedTo([en], g.id));
      DoneCons(done, en, ProcessSq(env, s1, q).1, g.id);
    }
  }

  // The host leaves the ring alone: it neither stores into it nor takes the queue down.
  ghost predicate LeavesAlone(e: Event, g: Ring) {
    match e
    case Write(offset, _) => offset != REG_CC
    case Read(_, _) => true
    case ResetDevice => false
    case HostStore(at, data) => forall x :: InRange(x, at, |data|) ==> !InRing(g, x)
  }

  lemma RingStep(env: Env, s: Sys, e: Event, g: Ring, done: seq<Cqe>)
    requires CtrlOk(s.c) && Allowed(s, e) && Serving(s.c, g, |done|) && Holds(s.mem, g, done)
    requires LeavesAlone(e, g) && AllRespect(Step(env, s, e).1.log, g)
    ensures var (s', o) := Step(env, s, e);
            Serving(s'.c, g, |done + PostedTo(o.log, g.id)|) && Holds(s'.mem, g, done + PostedTo(o.log, g.id))
  {
    assert done + [] == done;
    match e
    case Write(offset, data) => RingWrite(env, s, offset, data, g, done);
    case HostStore(at, data) => HoldsFrame(s.mem, Poke(s.mem, at, data), g, done);
    case _ =>
  }

  lemma RingWrite(env: Env, s: Sys, offset: nat, data: seq<byte>, g: Ring, done: seq<Cqe>)
    requires CtrlOk(s.c) && WriteAllowed(s.c, offset, data) && Serving(s.c, g, |done|) && Holds(s.mem, g, done)
    requires offset != REG_CC && AllRespect(BarWrite(env, s, offset, data).1, g)
    ensures var (s', log) := BarWrite(env, s, offset, data);
            Serving(s'.c, g, |done + PostedTo(log, g.id)|) && Holds(s'.mem, g, done + PostedTo(log, g.id))
  {
    assert done + [] == done;
    if offset >= REG_DOORBELL && DoorbellQid(offset) < MAX_QUEUES && !DoorbellIsCq(offset) {
      var c := RingDoorbell(s.c, DoorbellQid(offset), DoorbellValue(data));
      ProcessRing(env, s.(c := c), DoorbellQid(offset), g, done);
    } else {
      PowBound(|data|);
    }
  }

  // Along a run, the host and every served command leave the ring alone.
  ghost predicate RunRespects(env: Env, s: Sys, es: seq<Event>, g: Ring)
    requires CtrlOk(s.c) && HostObeys(env, s, es)
    decreases |es|
  {
    es == [] ||
    (StepKeeps(env, s, es[0]);
     var (s1, o) := Step(env, s, es[0]);
     LeavesAlone(es[0], g) && AllRespect(o.log, g) && RunRespects(env, s1, es[1..], g))
  }

  // Over any run, with any number of doorbells on any number of submission queues, the ring of a completion queue holds
  // the completions posted to it, in order, after those it held before.
  lemma {:induction false} RunRing(env: Env, s: Sys, es: seq<Event>, g: Ring, done: seq<Cqe>)
    requires CtrlOk(s.c) && HostObeys(env, s, es) && RunRespects(env, s, es, g)
    requires Serving(s.c, g, |done|) && Holds(s.mem, g, done)
    ensures var (s', os) := Run(env, s, es);
            Serving(s'.c, g, |done + PostedTo(Logs(os), g.id)|) && Holds(s'.mem, g, done + PostedTo(Logs(os), g.id))
    decreases |es|
  {
    if es == [] {
      assert done + [] == done;
    } else {
      var (s1, o) := Step(env, s, es[0]);
      StepKeeps(env, s, es[0]);
      RingStep(env, s, es[0], g, done);
      RunRing(env, s1, es[1..], g, done + PostedTo(o.log, g.id));
      LogsCons(o, Run(env, s1, es[1..]).1, done, g.id);
    }
  }

  lemma LogsCons(o: Seen, os: seq<Seen>, done: seq<Cqe>, id: nat)
    ensures (done + PostedTo(o.log, id)) + PostedTo(Logs(os), id) == done + PostedTo(Logs([o] + os), id)
  {
    assert ([o] + os)[1..] == os;
    PostedConcat(o.log, Logs(os), id);
    Assoc(done, PostedTo(o.log, id), PostedTo(Logs(os), id));
  }

  // So a host at most one lap behind reads the next completion of the run exactly when there is one.
  lemma RunPolls(env: Env, s: Sys, es: seq<Event>, g: Ring, done: seq<Cqe>, consumed: nat)
    requires CtrlOk(s.c) && HostObeys(env, s, es) && RunRespects(env, s, es, g)
    requires Serving(s.c, g, |done|) && Holds(s.mem, g, done)
    ensures var (s', os) := Run(env, s, es);
            var sent := done + PostedTo(Logs(os), g.id);
            g.size > 0 && SlotAt(g.dma, g.size) <= |s'.mem| &&
            (consumed <= |sent| <= consumed + g.size ==>
               && (SeesNew(s'.mem, g.dma, g.size, consumed) <==> consumed < |sent|)
               && (consumed < |sent| ==> EntryAt(s'.mem, g.dma, g.size, consumed) == sent[consumed]))
  {
    RunRing(env, s, es, g, done);
    var sent := done + PostedTo(Logs(Run(env, s, es).1), g.id);
    if consumed <= |sent| <= consumed + g.size {
      PollExact(Run(env, s, es).0.mem, g.dma, g.size, sent, consumed);
    }
  }
}
