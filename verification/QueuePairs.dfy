/** Queue pairs over their life: created ready, and left ready by the batches of other pairs. */
module QueuePairs {
  import opened Bytes
  import opened NvmeSpec
  import opened GuestMemory
  import opened Queues
  import opened RingPair
  import opened ControllerState
  import opened CompletionRing
  import opened Batch
  import opened EndToEnd

  // ---------------------------------------------------------------- creation

  lemma NewPairReady(env: Env, now: nat, mem: seq<byte>, r: Sq, cq: Cq)
    requires |mem| <= TWO64 && r.enabled && SqOk(r) && r.head == 0 && r.tail == 0 && SqSlotAt(r, r.size) <= |mem|
    requires cq.enabled && 1 <= cq.size <= 0xffff && cq.tail == 0 && cq.phase == 1
    requires SlotAt(cq.dma, cq.size) <= |mem| && forall x :: InCqRing(cq, x) ==> mem[x] == 0
    requires forall x :: InSqRing(r, x) ==> !InCqRing(cq, x)
    ensures PairReady(env, now, mem, r, cq, [], [])
  {
    DivModUnique(0, cq.size, 0, 0);
    forall x | cq.dma <= x < SlotAt(cq.dma, cq.size) ensures mem[x] == 0 {
      assert InCqRing(cq, x);
    }
    EmptyRing(mem, cq.dma, cq.size);
  }

  // A Create I/O Completion Queue and a Create I/O Submission Queue that succeed, over zeroed and disjoint rings, leave
  // a pair that is ready for its first batch.
  lemma CreatedPairReady(env: Env, now: nat, mem: seq<byte>, c: Ctrl, ecq: Sqe, esq: Sqe)
    requires |c.sq| == |c.cq| == MAX_QUEUES && |mem| <= TWO64
    requires CreateCq(c, ecq).1 == SUCCESS && CreateSq(CreateCq(c, ecq).0, esq).1 == SUCCESS
    requires Cdw11(esq) / TWO16 == Qid(ecq) && Qsize(ecq) <= 0xffff
    requires Prp1(esq) + SQE_SIZE * Qsize(esq) <= |mem| && Prp1(ecq) + CQE_SIZE * Qsize(ecq) <= |mem|
    requires forall x :: InRange(x, Prp1(ecq), CQE_SIZE * Qsize(ecq)) ==> mem[x] == 0
    requires forall x :: InRange(x, Prp1(esq), SQE_SIZE * Qsize(esq)) ==> !InRange(x, Prp1(ecq), CQE_SIZE * Qsize(ecq))
    ensures var d := CreateSq(CreateCq(c, ecq).0, esq).0;
            && d.sq[Qid(esq)].cqid == Qid(ecq)
            && PairReady(env, now, mem, d.sq[Qid(esq)], d.cq[Qid(ecq)], [], [])
  {
    var d := CreateSq(CreateCq(c, ecq).0, esq).0;
    NewPairReady(env, now, mem, d.sq[Qid(esq)], d.cq[Qid(ecq)]);
  }

  lemma MovedOk(r: Sq)
    requires r.enabled && SqOk(r)
    ensures SqOk(Moved(r, 1)) && Moved(r, 1) == r.(head := Moved(r, 1).head)
  {
  }

  lemma TurnTranslated(env: Env, now: nat, size: nat, r: Sq, cq: Cq)
    requires Translates(env, size) && size <= TWO64
    requires r.head < r.size && SqSlotAt(r, r.size) <= size && cq.tail < cq.size && SlotAt(cq.dma, cq.size) <= size
    ensures TurnMapped(env, now, size, r, cq)
  {
    SlotInRing(cq.dma, cq.size, cq.tail);
    assert SqeAddr(r) == SqSlotAt(r, r.head) && CqeAddr(cq) == SlotAt(cq.dma, cq.tail);
    TranslatesAll(env, now, SqeAddr(r), 0, SQE_SIZE, size);
    TranslatesAll(env, now + 3, CqeAddr(cq), 0, CQE_SIZE, size);
  }

  // A service that translates the rings maps every fetch and every completion, however many.
  lemma {:induction false} RingsTranslated(env: Env, now: nat, size: nat, r: Sq, cq: Cq, n: nat)
    requires Translates(env, size) && size <= TWO64
    requires r.enabled && SqOk(r) && SqSlotAt(r, r.size) <= size
    requires cq.enabled && CqOk(cq) && SlotAt(cq.dma, cq.size) <= size
    ensures RingsMapped(env, now, size, r, cq, n)
    decreases n
  {
    if n > 0 {
      TurnTranslated(env, now, size, r, cq);
      AdvanceOk(cq);
      MovedOk(r);
      RingsTranslated(env, now + 4, size, Moved(r, 1), Advance(cq), n - 1);
    }
  }

  // A host that writes its commands between batches, without touching the completion ring, and picks the tail that
  // covers them has a pair that is ready for the doorbell.
  lemma HostSubmits(env: Env, now: nat, m: seq<byte>, m': seq<byte>, r: Sq, v: u16, cq: Cq, cmds: seq<Sqe>,
                    done: seq<Cqe>)
    requires PairReady(env, now, m, r, cq, [], done)
    requires |m'| == |m| && forall x :: 0 <= x < |m| && InCqRing(cq, x) ==> m'[x] == m[x]
    requires Submission(m', r.(tail := v), cmds) && Separate(r, cq, cmds)
    requires RingsMapped(env, now, |m|, r.(tail := v), cq, |cmds|)
    ensures PairReady(env, now, m', r.(tail := v), cq, cmds, done)
  {
    RingFrame(m, m', cq.dma, cq.size, done);
    assert Separate(r.(tail := v), cq, cmds) by {
      forall x ensures InSqRing(r.(tail := v), x) == InSqRing(r, x) {
      }
    }
  }

  lemma ZeroCommand(e: Sqe, x: int)
    requires e == Zeros(SQE_SIZE)
    ensures !InRead(e, x) && !InWrite(e, x)
  {
  }

  lemma ZeroSeparate(r: Sq, cq: Cq, e: Sqe)
    requires e == Zeros(SQE_SIZE) && forall x :: InSqRing(r, x) ==> !InCqRing(cq, x)
    ensures Separate(r, cq, [e, e])
  {
    forall i, x | 0 <= i < 2 ensures !InRead([e, e][i], x) && !InWrite([e, e][i], x) {
      ZeroCommand(e, x);
    }
  }

  lemma ZeroSubmission(mem: seq<byte>, r: Sq, e: Sqe)
    requires mem == Zeros(0x3000) && r == Sq(0x1000, 4, 1, 1, 0, 2, true) && e == Zeros(SQE_SIZE)
    ensures Submission(mem, r, [e, e])
  {
    assert Submitted(mem, r, 0) == e && Submitted(mem, r, 1) == e;
  }

  // What the theorems about ready pairs ask for can be met: two commands with null PRPs, pending in a fresh memory.
  lemma ReadyBatchExists(env: Env)
    requires forall t: nat, gpa: nat, len: nat :: env.cut(t, gpa, len) == [len] && env.pin(t)
    ensures exists r, cq, cmds :: |cmds| == 2 && PairReady(env, 0, Zeros(0x3000), r, cq, cmds, [])
  {
    var mem, e := Zeros(0x3000), Zeros(SQE_SIZE);
    var r, cq := Sq(0x1000, 4, 1, 1, 0, 2, true), Cq(0x2000, 4, 1, 0, 0, 1, 0, true);
    NewPairReady(env, 0, mem, r.(tail := 0), cq);
    ZeroSubmission(mem, r, e);
    ZeroSeparate(r, cq, e);
    OneSegment(env, 0, 0x1000, SQE_SIZE, 0x3000);
    OneSegment(env, 3, 0x2000, CQE_SIZE, 0x3000);
    OneSegment(env, 4, 0x1040, SQE_SIZE, 0x3000);
    OneSegment(env, 7, 0x2010, CQE_SIZE, 0x3000);
    TwoMapped(env, 0x3000, r, cq);
    assert PairReady(env, 0, mem, r, cq, [e, e], []);
  }

  lemma TwoMapped(env: Env, size: nat, r: Sq, cq: Cq)
    requires r == Sq(0x1000, 4, 1, 1, 0, 2, true) && cq == Cq(0x2000, 4, 1, 0, 0, 1, 0, true)
    requires GpaOk(env, 0, 0x1000, SQE_SIZE, size) && GpaOk(env, 3, 0x2000, CQE_SIZE, size)
    requires GpaOk(env, 4, 0x1040, SQE_SIZE, size) && GpaOk(env, 7, 0x2010, CQE_SIZE, size)
    ensures RingsMapped(env, 0, size, r, cq, 2)
  {
    assert SqeAddr(Moved(r, 1)) == 0x1040 && CqeAddr(Advance(cq)) == 0x2010;
    assert RingsMapped(env, 4, size, Moved(r, 1), Advance(cq), 1);
  }

  lemma OneSegment(env: Env, t: nat, gpa: nat, len: nat, size: nat)
    requires env.cut(t, gpa, len) == [len] && env.pin(t) && gpa + len <= size
    ensures GpaOk(env, t, gpa, len, size)
  {
    assert Total([len]) == len + Total([len][1..]);
  }

  // ---------------------------------------------------------------- pairs side by side

  // An I/O batch changes no queue record but its own and its completion queue's.
  lemma {:induction false} OtherRecords(env: Env, s: Sys, q: nat, p: nat)
    requires CtrlOk(s.c) && 0 < q < MAX_QUEUES && p < MAX_QUEUES && s.c.sq[q].enabled
    ensures var c := ProcessSq(env, s, q).0.c;
            && |c.sq| == |c.cq| == MAX_QUEUES
            && (p != q ==> c.sq[p] == s.c.sq[p])
            && (p != s.c.sq[q].cqid ==> c.cq[p] == s.c.cq[p])
    decreases Backlog(s.c.sq[q])
  {
    if s.c.sq[q].head == s.c.sq[q].tail {
      ProcessDone(env, s, q);
    } else if !Fetch(env, s, q).ok {
      ProcessStuck(env, s, q);
    } else {
      var e := Fetch(env, s, q).data;
      ProcessTurn(env, s, q);
      ServeIo(env, s, q, e);
      OtherRecords(env, Serve(env, s, q, e).0, q, p);
    }
  }

  // The addresses a queue pair depends on: its rings and what its pending commands read.
  ghost predicate InPair(r: Sq, cq: Cq, cmds: seq<Sqe>, x: int) {
    InSqRing(r, x) || InCqRing(cq, x) || exists i :: 0 <= i < |cmds| && InRead(cmds[i], x)
  }

  // A pair stays ready while its own memory does, as long as its transfers can still be mapped.
  lemma PairStays(env: Env, now: nat, now': nat, m: seq<byte>, m': seq<byte>, r: Sq, cq: Cq, cmds: seq<Sqe>,
                  done: seq<Cqe>)
    requires PairReady(env, now, m, r, cq, cmds, done) && |m'| == |m|
    requires forall x :: 0 <= x < |m| && InPair(r, cq, cmds, x) ==> m'[x] == m[x]
    requires RingsMapped(env, now', |m|, r, cq, |cmds|)
    ensures PairReady(env, now', m', r, cq, cmds, done)
  {
    RingFrame(m, m', cq.dma, cq.size, done);
    SubmissionKept(m, m', r, cmds);
  }

  // A doorbell on queue q leaves every other pair as ready as it was, with what its commands read intact.
  lemma OtherPairReady(env: Env, s: Sys, q: nat, r: Sq, cq: Cq, cmds: seq<Sqe>, done: seq<Cqe>,
                       r2: Sq, cq2: Cq, cmds2: seq<Sqe>, done2: seq<Cqe>)
    requires CtrlOk(s.c) && 0 < q < MAX_QUEUES && s.c.sq[q] == r && r.enabled && s.c.cq[r.cqid] == cq
    requires PairReady(env, s.now, s.mem, r, cq, cmds, done)
    requires PairReady(env, s.now, s.mem, r2, cq2, cmds2, done2)
    requires forall x :: InPair(r2, cq2, cmds2, x) ==> Outside(cq, cmds, x)
    ensures var s' := ProcessSq(env, s, q).0;
            && RestUntouched(s.mem, s'.mem, cmds2)
            && (RingsMapped(env, s'.now, |s.mem|, r2, cq2, |cmds2|) ==>
                  PairReady(env, s'.now, s'.mem, r2, cq2, cmds2, done2))
  {
    var s' := ProcessSq(env, s, q).0;
    ProcessKeeps(env, s, q);
    forall x | 0 <= x < |s.mem| && InPair(r2, cq2, cmds2, x) ensures s'.mem[x] == s.mem[x] {
      BatchConfined(env, s, q, r, cq, cmds, done, x);
    }
    if RingsMapped(env, s'.now, |s.mem|, r2, cq2, |cmds2|) {
      PairStays(env, s.now, s'.now, s.mem, s'.mem, r2, cq2, cmds2, done2);
    }
  }

  lemma SubmissionKept(m: seq<byte>, m': seq<byte>, r: Sq, cmds: seq<Sqe>)
    requires Submission(m, r, cmds) && |m'| == |m|
    requires forall x :: 0 <= x < |m| && InSqRing(r, x) ==> m'[x] == m[x]
    ensures Submission(m', r, cmds)
  {
    forall i | 0 <= i < |cmds| ensures Submitted(m', r, i) == Submitted(m, r, i) {
      SqSlotInRing(r, i);
    }
  }

  lemma SeparateKept(r: Sq, q: Cq, q': Cq, cmds: seq<Sqe>)
    requires Separate(r, q, cmds) && q'.dma == q.dma && q'.size == q.size
    ensures Separate(r, q', cmds)
  {
    assert forall x :: InCqRing(q', x) == InCqRing(q, x);
  }

  lemma SharedPair(now: nat, now': nat, env: Env, m: seq<byte>, m': seq<byte>, cq: Cq, cq': Cq, r2: Sq, cmds: seq<Sqe>,
                   cmds2: seq<Sqe>, done: seq<Cqe>, done': seq<Cqe>)
    requires PairReady(env, now, m, r2, cq, cmds2, done) && |m'| == |m|
    requires cq'.enabled && cq'.dma == cq.dma && cq'.size == cq.size
    requires Posted(cq', |done'|) && RingHolds(m', cq.dma, cq.size, done')
    requires forall x :: 0 <= x < |m| && Outside(cq, cmds, x) ==> m'[x] == m[x]
    requires forall i, x :: 0 <= i < |cmds| && InWrite(cmds[i], x) ==> !InSqRing(r2, x)
    requires forall i, j, x :: 0 <= i < |cmds| && 0 <= j < |cmds2| && InWrite(cmds[i], x) ==> !InRead(cmds2[j], x)
    ensures RestUntouched(m, m', cmds2)
    ensures RingsMapped(env, now', |m|, r2, cq', |cmds2|) ==> PairReady(env, now', m', r2, cq', cmds2, done')
  {
    SubmissionKept(m, m', r2, cmds2);
    SeparateKept(r2, cq, cq', cmds2);
  }

  // Two submission queues that share a completion queue: a doorbell on one leaves the other ready, with the batch's
  // completions in the shared ring.
  lemma SharedPairReady(env: Env, s: Sys, q: nat, r: Sq, cq: Cq, cmds: seq<Sqe>, done: seq<Cqe>, r2: Sq,
                        cmds2: seq<Sqe>)
    requires CtrlOk(s.c) && 0 < q < MAX_QUEUES && s.c.sq[q] == r && r.enabled && s.c.cq[r.cqid] == cq
    requires PairReady(env, s.now, s.mem, r, cq, cmds, done)
    requires PairReady(env, s.now, s.mem, r2, cq, cmds2, done)
    requires forall i, x :: 0 <= i < |cmds| && InWrite(cmds[i], x) ==> !InSqRing(r2, x)
    requires forall i, j, x :: 0 <= i < |cmds| && 0 <= j < |cmds2| && InWrite(cmds[i], x) ==> !InRead(cmds2[j], x)
    ensures var (s', log) := ProcessSq(env, s, q);
            && |s'.c.cq| == MAX_QUEUES && RestUntouched(s.mem, s'.mem, cmds2)
            && var cq' := s'.c.cq[r.cqid];
               RingsMapped(env, s'.now, |s.mem|, r2, cq', |cmds2|) ==>
                 PairReady(env, s'.now, s'.mem, r2, cq', cmds2, done + Cqes(log))
  {
    var s', log := ProcessSq(env, s, q).0, ProcessSq(env, s, q).1;
    RestConfined(env, s, q, r, cq, cmds, done);
    BatchPosted(env, s, q, r, cq, cmds, done);
    SharedPair(s.now, s'.now, env, s.mem, s'.mem, cq, s'.c.cq[r.cqid], r2, cmds, cmds2, done, done + Cqes(log));
  }
}
