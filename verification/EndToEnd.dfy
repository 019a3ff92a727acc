/** From the doorbell to the polling host: commands in guest memory, the key-value map, data buffers and completions. */
module EndToEnd {
  import opened Bytes
  import opened NvmeSpec
  import opened GuestMemory
  import opened KvSlots
  import opened KvMap
  import opened Queues
  import opened RingPair
  import opened ControllerState
  import opened CompletionRing
  import opened Batch
  import opened Runs

  // An I/O command writes guest memory only inside its own buffer.
  lemma SentFrame(env: Env, t: nat, mem: seq<byte>, e: Sqe, sent: Option<seq<byte>>, y: nat)
    requires SentWithin(sent, e) && y < |mem| && !InWrite(e, y)
    ensures SentMem(env, t, mem, e, sent)[y] == mem[y]
  {
    match sent
    case None =>
    case Some(p) =>
      if PrpOk(env, t + 1, Prp1(e), Prp2(e), |p|, |mem|) {
        SentInWrite(env, t, |mem|, e, p, y);
        PrpFrame(env, t + 1, mem, Prp1(e), Prp2(e), p, y);
      }
  }

  // A payload that can be transferred goes where the command is allowed to write.
  lemma SentInWrite(env: Env, t: nat, size: nat, e: Sqe, p: seq<byte>, x: int)
    requires |p| <= SendLen(e) && PrpOk(env, t + 1, Prp1(e), Prp2(e), |p|, size)
    ensures |p| <= WriteLen(e) && (InBuffer(x, Prp1(e), Prp2(e), |p|) ==> InWrite(e, x))
  {
    PrpLimit(env, t + 1, Prp1(e), Prp2(e), |p|, size);
    if InBuffer(x, Prp1(e), Prp2(e), |p|) {
      ReachMonotone(x, Prp1(e), Prp2(e), |p|, WriteLen(e));
    }
  }

  // What a Store takes depends only on its own buffer.
  lemma DeliveredLocal(env: Env, t: nat, m: seq<byte>, m': seq<byte>, e: Sqe)
    requires TakesValue(e) && |m| == |m'| && forall x :: 0 <= x < |m| && InRead(e, x) ==> m[x] == m'[x]
    ensures Delivered(env, t, m, e) == Delivered(env, t, m', e)
  {
    PrpReadLocal(env, t + 1, m, m', Prp1(e), Prp2(e), KvOf(e).hbs);
  }

  // What is fetched is what the host put there.
  lemma FetchIsSubmitted(env: Env, s: Sys, q: nat, r: Sq)
    requires q < |s.c.sq| && s.c.sq[q] == r && SqOk(r) && r.enabled
    requires SqSlotAt(r, r.size) <= |s.mem| <= TWO64 && GpaOk(env, s.now, SqeAddr(r), SQE_SIZE, |s.mem|)
    ensures Fetch(env, s, q) == Inbound(true, Submitted(s.mem, r, 0))
  {
    MovedPending(r);
    SqSlotInRing(r, 0);
    assert SqeAddr(r) == SqSlotAt(r, r.head);
    GpaExact(env, s.now, s.mem, SqeAddr(r), Zeros(SQE_SIZE));
  }

  // Memory between the payload a command sends and its completion entry.
  lemma SentKeeps(env: Env, t: nat, mem: seq<byte>, e: Sqe, sent: Option<seq<byte>>, r: Sq, cq: Cq, cmds: seq<Sqe>,
                  done: seq<Cqe>)
    requires SentWithin(sent, e) && cmds != [] && cmds[0] == e
    requires Separate(r, cq, cmds) && RingHolds(mem, cq.dma, cq.size, done)
    ensures Untouched(mem, SentMem(env, t, mem, e, sent), e, cq)
    ensures RingHolds(SentMem(env, t, mem, e, sent), cq.dma, cq.size, done)
  {
    var m := SentMem(env, t, mem, e, sent);
    forall x | 0 <= x < |m| && !InWrite(e, x) ensures m[x] == mem[x] {
      SentFrame(env, t, mem, e, sent, x);
    }
    forall x | cq.dma <= x < SlotAt(cq.dma, cq.size) ensures m[x] == mem[x] {
      assert InCqRing(cq, x);
      assert !InWrite(cmds[0], x);
    }
    RingFrame(mem, m, cq.dma, cq.size, done);
  }

  // ---------------------------------------------------------------- the whole batch

  // The abstract map after command e, which reads its buffer as it stands in mem.
  ghost function IdealNext(env: Env, cap: nat, now: nat, mem: seq<byte>, k: FullKv, e: Sqe): FullKv {
    Apply(k, cap, KvOf(e), Delivered(env, now, mem, e), env, now).0
  }

  // The abstract map after the submitted commands, each reading its buffer as it stands in mem.
  ghost function IdealRun(env: Env, cap: nat, now: nat, mem: seq<byte>, k: FullKv, cmds: seq<Sqe>): FullKv
    decreases |cmds|
  {
    if cmds == [] then k
    else IdealRun(env, cap, now + 4, mem, IdealNext(env, cap, now, mem, k, cmds[0]), cmds[1..])
  }

  // A command that takes no value does not depend on what its PRPs hold.
  lemma ApplyWithoutData(k: FullKv, cap: nat, cmd: KvCmd, x: Inbound, y: Inbound, env: Env, t: nat)
    requires cmd.Valid() && DeliveredOk(cmd, x) && DeliveredOk(cmd, y)
    requires !(cmd.opcode == KV_STORE && !cmd.KeyTooLong() && cmd.hbs <= MAX_VAL)
    ensures Apply(k, cap, cmd, x, env, t) == Apply(k, cap, cmd, y, env, t)
  {
  }

  lemma NextLocal(env: Env, cap: nat, now: nat, m: seq<byte>, m': seq<byte>, k: FullKv, e: Sqe)
    requires |m| == |m'| && forall x :: 0 <= x < |m| && InRead(e, x) ==> m[x] == m'[x]
    ensures IdealNext(env, cap, now, m, k, e) == IdealNext(env, cap, now, m', k, e)
  {
    if TakesValue(e) {
      DeliveredLocal(env, now, m, m', e);
    } else {
      ApplyWithoutData(k, cap, KvOf(e), Delivered(env, now, m, e), Delivered(env, now, m', e), env, now);
    }
  }

  lemma {:induction false} IdealLocal(env: Env, cap: nat, now: nat, m: seq<byte>, m': seq<byte>, k: FullKv,
                                      cmds: seq<Sqe>)
    requires RestUntouched(m, m', cmds)
    ensures IdealRun(env, cap, now, m, k, cmds) == IdealRun(env, cap, now, m', k, cmds)
    decreases |cmds|
  {
    if cmds != [] {
      NextLocal(env, cap, now, m, m', k, cmds[0]);
      assert forall i :: 0 <= i < |cmds[1..]| ==> cmds[1..][i] == cmds[i + 1];
      IdealLocal(env, cap, now + 4, m, m', IdealNext(env, cap, now, m, k, cmds[0]), cmds[1..]);
    }
  }

  // The entry served command e, a Store on the bytes its buffer held in mem, and its completion reached memory.
  ghost predicate Answered(env: Env, mem: seq<byte>, e: Sqe, entry: Entry) {
    match entry
    case Entry(_, _, tick, sqe, data, _, _, _, posted) =>
      && sqe == e
      && (TakesValue(e) ==> data == PrpRead(env, tick + 1, mem, RdLe(e[24..32]), RdLe(e[32..40]), RdLe(e[40..44])))
      && posted.Some? && posted.value.delivered
  }

  lemma AnsweredWith(env: Env, mem: seq<byte>, e: Sqe, entry: Entry)
    requires entry.sqe == e && entry.posted.Some? && entry.posted.value.delivered
    requires entry.data == Delivered(env, entry.tick, mem, e)
    ensures Answered(env, mem, e, entry)
  {
    DeliveredIs(env, entry.tick, mem, e);
  }

  ghost predicate AllAnswered(env: Env, mem: seq<byte>, cmds: seq<Sqe>, log: seq<Entry>) {
    |log| == |cmds| && forall i :: 0 <= i < |cmds| ==> Answered(env, mem, cmds[i], log[i])
  }

  lemma BufferLocal(env: Env, t: nat, m: seq<byte>, m': seq<byte>, e: Sqe)
    requires TakesValue(e) && |m| == |m'| && forall x :: 0 <= x < |m| && InRead(e, x) ==> m[x] == m'[x]
    ensures PrpRead(env, t + 1, m, RdLe(e[24..32]), RdLe(e[32..40]), RdLe(e[40..44]))
         == PrpRead(env, t + 1, m', RdLe(e[24..32]), RdLe(e[32..40]), RdLe(e[40..44]))
  {
    DeliveredLocal(env, t, m, m', e);
    DeliveredIs(env, t, m, e);
    DeliveredIs(env, t, m', e);
  }

  lemma AnsweredElsewhere(env: Env, m: seq<byte>, m1: seq<byte>, e: Sqe, entry: Entry)
    requires Answered(env, m1, e, entry) && |m| == |m1|
    requires forall x :: 0 <= x < |m| && InRead(e, x) ==> m[x] == m1[x]
    ensures Answered(env, m, e, entry)
  {
    if TakesValue(e) {
      BufferLocal(env, entry.tick, m, m1, e);
    }
  }

  lemma AllElsewhere(env: Env, m: seq<byte>, m1: seq<byte>, cmds: seq<Sqe>, log: seq<Entry>)
    requires AllAnswered(env, m1, cmds, log) && RestUntouched(m, m1, cmds)
    ensures AllAnswered(env, m, cmds, log)
  {
    forall i | 0 <= i < |cmds| ensures Answered(env, m, cmds[i], log[i]) {
      AnsweredElsewhere(env, m, m1, cmds[i], log[i]);
    }
  }

  lemma AnsweredCons(env: Env, m: seq<byte>, m1: seq<byte>, cmds: seq<Sqe>, e: Entry, rest: seq<Entry>)
    requires cmds != [] && Answered(env, m, cmds[0], e)
    requires AllAnswered(env, m1, cmds[1..], rest) && RestUntouched(m, m1, cmds[1..])
    ensures AllAnswered(env, m, cmds, [e] + rest)
  {
    AllElsewhere(env, m, m1, cmds[1..], rest);
    var log := [e] + rest;
    forall i | 0 < i < |cmds| ensures Answered(env, m, cmds[i], log[i]) {
      assert Answered(env, m, cmds[1..][i - 1], rest[i - 1]);
    }
  }

  function CqeOf(e: Entry): Cqe { if e.posted.Some? then e.posted.value.cqe else Zeros(CQE_SIZE) }

  // The completion entries of a log, in order.
  ghost function Cqes(log: seq<Entry>): (cs: seq<Cqe>)
    ensures |cs| == |log| && forall i :: 0 <= i < |log| ==> cs[i] == CqeOf(log[i])
  {
    if log == [] then [] else [CqeOf(log[0])] + Cqes(log[1..])
  }

  lemma CqesCons(done: seq<Cqe>, e: Entry, rest: seq<Entry>)
    ensures (done + [CqeOf(e)]) + Cqes(rest) == done + Cqes([e] + rest)
  {
    assert Cqes([e] + rest) == [CqeOf(e)] + Cqes(rest) by {
      assert ([e] + rest)[1..] == rest;
    }
    Assoc(done, [CqeOf(e)], Cqes(rest));
  }

  lemma IdealHead(env: Env, cap: nat, now: nat, m: seq<byte>, k: FullKv, cmds: seq<Sqe>)
    requires cmds != []
    ensures IdealRun(env, cap, now, m, k, cmds)
         == IdealRun(env, cap, now + 4, m, IdealNext(env, cap, now, m, k, cmds[0]), cmds[1..])
  {
  }

  lemma IdealStep(env: Env, cap: nat, now: nat, now1: nat, m: seq<byte>, m1: seq<byte>, k: FullKv, k1: FullKv,
                  cmds: seq<Sqe>)
    requires cmds != [] && now1 == now + 4 && RestUntouched(m, m1, cmds[1..])
    requires k1 == IdealNext(env, cap, now, m, k, cmds[0])
    ensures IdealRun(env, cap, now, m, k, cmds) == IdealRun(env, cap, now1, m1, k1, cmds[1..])
  {
    IdealHead(env, cap, now, m, k, cmds);
    IdealLocal(env, cap, now1, m, m1, k1, cmds[1..]);
  }

  // ---------------------------------------------------------------- one turn

  // Memory after the command at the head: its payload, then its completion entry.
  lemma PairServe(env: Env, now: nat, mem: seq<byte>, q: u16, r: Sq, cq: Cq, cmds: seq<Sqe>, done: seq<Cqe>,
                  sent: Option<seq<byte>>, status: u16)
    requires cmds != [] && PairReady(env, now, mem, r, cq, cmds, done)
    requires SentWithin(sent, cmds[0]) && status < 0x8000
    ensures var c := IoCqe(q, r, cmds[0], status, cq.phase);
            var m := GpaWrite(env, now + 3, SentMem(env, now, mem, cmds[0], sent), CqeAddr(cq), c);
            && Untouched(mem, m, cmds[0], cq) && RingHolds(m, cq.dma, cq.size, done + [c])
            && GpaOk(env, now + 3, CqeAddr(cq), CQE_SIZE, |mem|)
            && forall x :: 0 <= x < |mem| && !InCqRing(cq, x) ==> m[x] == SentMem(env, now, mem, cmds[0], sent)[x]
  {
    SentKeeps(env, now, mem, cmds[0], sent, r, cq, cmds, done);
    PairWrite(env, now, mem, SentMem(env, now, mem, cmds[0], sent), r, cq, cmds, done, q, cmds[0], status);
  }

  lemma PairFetch(env: Env, s: Sys, q: nat, r: Sq, cq: Cq, cmds: seq<Sqe>, sent: seq<Cqe>)
    requires q < |s.c.sq| && s.c.sq[q] == r && cmds != [] && PairReady(env, s.now, s.mem, r, cq, cmds, sent)
    ensures r.head != r.tail && Fetch(env, s, q) == Inbound(true, cmds[0]) && SqOk(Moved(r, 1))
  {
    FetchIsSubmitted(env, s, q, r);
    MovedPending(r);
  }

  // A command that sends a payload succeeds exactly when the transfer does.
  ghost predicate SentOk(env: Env, t: nat, size: nat, e: Sqe, entry: Entry) {
    entry.sent.Some? ==>
      (entry.status == SUCCESS <==> PrpOk(env, t + 1, Prp1(e), Prp2(e), |entry.sent.value|, size))
  }

  // One turn: the controller, the log and the namespace.
  lemma PairTurn(env: Env, s: Sys, q: nat, r: Sq, cq: Cq, cmds: seq<Sqe>, done: seq<Cqe>)
    returns (s1: Sys, en: Entry)
    requires CtrlOk(s.c) && 0 < q < MAX_QUEUES && s.c.sq[q] == r && r.enabled && s.c.cq[r.cqid] == cq
    requires cmds != [] && PairReady(env, s.now, s.mem, r, cq, cmds, done)
    ensures CtrlOk(s1.c) && s1.c.ns.maxKeys == s.c.ns.maxKeys && s1.now == s.now + 4
    ensures s1.c.sq[q] == Moved(r, 1) && s1.c.cq[r.cqid] == Advance(cq)
    ensures ProcessSq(env, s, q) == (ProcessSq(env, s1, q).0, [en] + ProcessSq(env, s1, q).1)
    ensures Abs(s1.c.ns) == IdealNext(env, s.c.ns.maxKeys, s.now, s.mem, Abs(s.c.ns), cmds[0])
    ensures Answered(env, s.mem, cmds[0], en) && SentWithin(en.sent, cmds[0])
    ensures SentOk(env, s.now, |s.mem|, cmds[0], en)
    ensures en.status < 0x8000 && CqeOf(en) == IoCqe(q, r, cmds[0], en.status, cq.phase)
    ensures s1.mem == GpaWrite(env, s.now + 3, SentMem(env, s.now, s.mem, cmds[0], en.sent), CqeAddr(cq), CqeOf(en))
  {
    PairFetch(env, s, q, r, cq, cmds, done);
    ProcessTurn(env, s, q);
    var served := Serve(env, s, q, cmds[0]);
    s1, en := served.0, served.1;
    ServeKeeps(env, s, q, cmds[0]);
    ServeRefines(env, s, q, cmds[0]);
    ServeIo(env, s, q, cmds[0]);
    AnsweredWith(env, s.mem, cmds[0], en);
  }

  // One turn: the queue pair is ready again, and the later commands' buffers are untouched.
  lemma PairAgain(env: Env, now: nat, now1: nat, mem: seq<byte>, q: u16, r: Sq, cq: Cq, cmds: seq<Sqe>, done: seq<Cqe>,
                  sent: Option<seq<byte>>, status: u16, c: Cqe, mem1: seq<byte>)
    requires cmds != [] && now1 == now + 4 && PairReady(env, now, mem, r, cq, cmds, done)
    requires SentWithin(sent, cmds[0]) && status < 0x8000 && c == IoCqe(q, r, cmds[0], status, cq.phase)
    requires mem1 == GpaWrite(env, now + 3, SentMem(env, now, mem, cmds[0], sent), CqeAddr(cq), c)
    ensures PairReady(env, now1, mem1, Moved(r, 1), Advance(cq), cmds[1..], done + [c])
    ensures Untouched(mem, mem1, cmds[0], cq) && RestUntouched(mem, mem1, cmds[1..])
    ensures forall x :: 0 <= x < |mem| && !InCqRing(cq, x) ==> mem1[x] == SentMem(env, now, mem, cmds[0], sent)[x]
  {
    MovedPending(r);
    SubmissionTail(mem, mem, r, cmds);
    PairServe(env, now, mem, q, r, cq, cmds, done, sent, status);
    PairTail(env, now, mem, mem1, r, cq, cmds, done, c);
    RestKept(r, cq, cmds, mem, mem1);
  }

  lemma NothingPending(env: Env, s: Sys, q: nat, r: Sq, cq: Cq, done: seq<Cqe>)
    requires CtrlOk(s.c) && q < MAX_QUEUES && s.c.sq[q] == r && PairReady(env, s.now, s.mem, r, cq, [], done)
    ensures ProcessSq(env, s, q) == (s, []) && done + Cqes([]) == done
  {
    MovedPending(r);
    ProcessDone(env, s, q);
    assert done + Cqes([]) == done;
  }

  // A turn followed by what it leaves the pair ready for.
  lemma PairStep(env: Env, s: Sys, q: nat, r: Sq, cq: Cq, cmds: seq<Sqe>, done: seq<Cqe>)
    returns (s1: Sys, en: Entry)
    requires CtrlOk(s.c) && 0 < q < MAX_QUEUES && s.c.sq[q] == r && r.enabled && s.c.cq[r.cqid] == cq
    requires cmds != [] && PairReady(env, s.now, s.mem, r, cq, cmds, done)
    ensures CtrlOk(s1.c) && s1.c.ns.maxKeys == s.c.ns.maxKeys && s1.now == s.now + 4
    ensures s1.c.sq[q] == Moved(r, 1) && s1.c.cq[r.cqid] == Advance(cq)
    ensures ProcessSq(env, s, q) == (ProcessSq(env, s1, q).0, [en] + ProcessSq(env, s1, q).1)
    ensures Abs(s1.c.ns) == IdealNext(env, s.c.ns.maxKeys, s.now, s.mem, Abs(s.c.ns), cmds[0])
    ensures Answered(env, s.mem, cmds[0], en)
    ensures Untouched(s.mem, s1.mem, cmds[0], cq) && RestUntouched(s.mem, s1.mem, cmds[1..])
    ensures SentWithin(en.sent, cmds[0]) && SentOk(env, s.now, |s.mem|, cmds[0], en)
    ensures forall x :: 0 <= x < |s.mem| && !InCqRing(cq, x) ==>
              s1.mem[x] == SentMem(env, s.now, s.mem, cmds[0], en.sent)[x]
    ensures PairReady(env, s1.now, s1.mem, Moved(r, 1), Advance(cq), cmds[1..], done + [CqeOf(en)])
  {
    s1, en := PairTurn(env, s, q, r, cq, cmds, done);
    PairAgain(env, s.now, s1.now, s.mem, q, r, cq, cmds, done, en.sent, en.status, CqeOf(en), s1.mem);
  }

  // An address neither in the completion ring nor where a pending command may write.
  ghost predicate Outside(cq: Cq, cmds: seq<Sqe>, x: int) {
    !InCqRing(cq, x) && forall i :: 0 <= i < |cmds| ==> !InWrite(cmds[i], x)
  }

  // The device writes guest memory only where its completion queue and the commands it serves point.
  lemma {:induction false} BatchConfined(env: Env, s: Sys, q: nat, r: Sq, cq: Cq, cmds: seq<Sqe>, done: seq<Cqe>,
                                         x: nat)
    requires CtrlOk(s.c) && 0 < q < MAX_QUEUES && s.c.sq[q] == r && r.enabled && s.c.cq[r.cqid] == cq
    requires PairReady(env, s.now, s.mem, r, cq, cmds, done) && x < |s.mem| && Outside(cq, cmds, x)
    ensures |ProcessSq(env, s, q).0.mem| == |s.mem| && ProcessSq(env, s, q).0.mem[x] == s.mem[x]
    decreases |cmds|
  {
    if cmds == [] {
      NothingPending(env, s, q, r, cq, done);
    } else {
      var s1, en := PairStep(env, s, q, r, cq, cmds, done);
      OutsideTail(cq, cmds, x);
      BatchConfined(env, s1, q, Moved(r, 1), Advance(cq), cmds[1..], done + [CqeOf(en)], x);
    }
  }

  lemma OutsideTail(cq: Cq, cmds: seq<Sqe>, x: int)
    requires cmds != [] && Outside(cq, cmds, x)
    ensures !InWrite(cmds[0], x) && Outside(Advance(cq), cmds[1..], x)
  {
    assert forall i :: 0 <= i < |cmds[1..]| ==> cmds[1..][i] == cmds[i + 1];
  }

  // ---------------------------------------------------------------- payloads

  ghost predicate RangesApart(e: Sqe, n: nat) {
    forall x :: !(InRange(x, Prp1(e), FirstPart(Prp1(e), n)) && InRange(x, Prp2(e), n - FirstPart(Prp1(e), n)))
  }

  // If the command sent a payload and succeeded, the payload is in its buffer.
  ghost predicate Received(mem: seq<byte>, e: Sqe, entry: Entry) {
    entry.sent.Some? && entry.status == SUCCESS ==>
      var n := |entry.sent.value|;
      PrpFits(Prp1(e), Prp2(e), n, |mem|) && PrpPeek(mem, Prp1(e), Prp2(e), n) == entry.sent.value
  }

  // The n bytes command i sends go to two ranges that do not overlap and that no later command writes.
  ghost predicate Lasts(cmds: seq<Sqe>, i: nat, n: nat)
    requires i < |cmds|
  {
    && RangesApart(cmds[i], n)
    && forall j, x :: i < j < |cmds| && InBuffer(x, Prp1(cmds[i]), Prp2(cmds[i]), n) ==> !InWrite(cmds[j], x)
  }

  lemma PayloadLands(env: Env, t: nat, mem: seq<byte>, m: seq<byte>, e: Sqe, entry: Entry)
    requires entry.sent.Some? && SentOk(env, t, |mem|, e, entry) && |m| == |mem|
    requires RangesApart(e, |entry.sent.value|)
    requires entry.status == SUCCESS ==>
      forall x :: 0 <= x < |mem| && InBuffer(x, Prp1(e), Prp2(e), |entry.sent.value|) ==>
        m[x] == SentMem(env, t, mem, e, entry.sent)[x]
    ensures Received(m, e, entry)
  {
    if entry.status == SUCCESS {
      var p := entry.sent.value;
      PrpExact(env, t + 1, mem, Prp1(e), Prp2(e), p);
      PeekPoke(mem, Prp1(e), Prp2(e), p);
      PeekLocal(m, PrpPoke(mem, Prp1(e), Prp2(e), p), Prp1(e), Prp2(e), |p|);
    }
  }

  // Command i's payload, if it sent one that lasts, is in its buffer.
  ghost predicate Lands(mem: seq<byte>, cmds: seq<Sqe>, i: nat, entry: Entry)
    requires i < |cmds|
  {
    match entry
    case Entry(_, _, _, _, _, sent, _, _, _) =>
      sent.Some? && Lasts(cmds, i, |sent.value|) ==> Received(mem, cmds[i], entry)
  }

  ghost predicate DeliveredAt(mem: seq<byte>, cmds: seq<Sqe>, log: seq<Entry>, i: nat)
    requires i < |cmds|
  {
    i < |log| && Lands(mem, cmds, i, log[i])
  }

  // The rest of the batch writes nowhere near command 0's payload.
  lemma HeadPayload(env: Env, t: nat, mem: seq<byte>, m1: seq<byte>, m: seq<byte>, r: Sq, cq: Cq, cmds: seq<Sqe>,
                    en: Entry)
    requires cmds != [] && Separate(r, cq, cmds) && |m| == |m1| == |mem|
    requires en.sent.Some? && SentWithin(en.sent, cmds[0]) && SentOk(env, t, |mem|, cmds[0], en)
    requires forall x :: 0 <= x < |mem| && !InCqRing(cq, x) ==> m1[x] == SentMem(env, t, mem, cmds[0], en.sent)[x]
    requires forall x :: 0 <= x < |mem| && Outside(cq, cmds[1..], x) ==> m[x] == m1[x]
    requires Lasts(cmds, 0, |en.sent.value|)
    ensures Received(m, cmds[0], en)
  {
    var p := en.sent.value;
    forall x | 0 <= x < |mem| && InBuffer(x, Prp1(cmds[0]), Prp2(cmds[0]), |p|) && en.status == SUCCESS
      ensures m[x] == SentMem(env, t, mem, cmds[0], en.sent)[x]
    {
      SentInWrite(env, t, |mem|, cmds[0], p, x);
      assert forall i :: 0 <= i < |cmds[1..]| ==> cmds[1..][i] == cmds[i + 1];
      assert Outside(cq, cmds[1..], x);
    }
    PayloadLands(env, t, mem, m, cmds[0], en);
  }

  lemma RestConfined(env: Env, s: Sys, q: nat, r: Sq, cq: Cq, cmds: seq<Sqe>, done: seq<Cqe>)
    requires CtrlOk(s.c) && 0 < q < MAX_QUEUES && s.c.sq[q] == r && r.enabled && s.c.cq[r.cqid] == cq
    requires PairReady(env, s.now, s.mem, r, cq, cmds, done)
    ensures |ProcessSq(env, s, q).0.mem| == |s.mem|
    ensures forall x :: 0 <= x < |s.mem| && Outside(cq, cmds, x) ==> ProcessSq(env, s, q).0.mem[x] == s.mem[x]
  {
    ProcessKeeps(env, s, q);
    forall x | 0 <= x < |s.mem| && Outside(cq, cmds, x) ensures ProcessSq(env, s, q).0.mem[x] == s.mem[x] {
      BatchConfined(env, s, q, r, cq, cmds, done, x);
    }
  }

  lemma HeadDelivered(env: Env, s: Sys, q: nat, r: Sq, cq: Cq, cmds: seq<Sqe>, done: seq<Cqe>)
    requires CtrlOk(s.c) && 0 < q < MAX_QUEUES && s.c.sq[q] == r && r.enabled && s.c.cq[r.cqid] == cq
    requires cmds != [] && PairReady(env, s.now, s.mem, r, cq, cmds, done)
    ensures DeliveredAt(ProcessSq(env, s, q).0.mem, cmds, ProcessSq(env, s, q).1, 0)
  {
    var s1, en := PairStep(env, s, q, r, cq, cmds, done);
    RestConfined(env, s1, q, Moved(r, 1), Advance(cq), cmds[1..], done + [CqeOf(en)]);
    SameRing(cq, cmds[1..]);
    if en.sent.Some? && Lasts(cmds, 0, |en.sent.value|) {
      HeadPayload(env, s.now, s.mem, s1.mem, ProcessSq(env, s1, q).0.mem, r, cq, cmds, en);
    }
  }

  lemma SameRing(cq: Cq, cmds: seq<Sqe>)
    ensures forall x :: Outside(cq, cmds, x) ==> Outside(Advance(cq), cmds, x)
  {
  }

  lemma DeliveredCons(mem: seq<byte>, cmds: seq<Sqe>, e: Entry, rest: seq<Entry>, i: nat)
    requires 0 < i < |cmds| && DeliveredAt(mem, cmds[1..], rest, i - 1)
    ensures DeliveredAt(mem, cmds, [e] + rest, i)
  {
    assert ([e] + rest)[i] == rest[i - 1] && cmds[1..][i - 1] == cmds[i];
    if rest[i - 1].sent.Some? && Lasts(cmds, i, |rest[i - 1].sent.value|) {
      LastsTail(cmds, i, |rest[i - 1].sent.value|);
    }
  }

  // Every payload of a batch that lasts is in the host's buffer at the end.
  lemma {:induction false} BatchDelivered(env: Env, s: Sys, q: nat, r: Sq, cq: Cq, cmds: seq<Sqe>, done: seq<Cqe>,
                                          i: nat)
    requires CtrlOk(s.c) && 0 < q < MAX_QUEUES && s.c.sq[q] == r && r.enabled && s.c.cq[r.cqid] == cq
    requires i < |cmds| && PairReady(env, s.now, s.mem, r, cq, cmds, done)
    ensures DeliveredAt(ProcessSq(env, s, q).0.mem, cmds, ProcessSq(env, s, q).1, i)
    decreases i, 1
  {
    if i == 0 {
      HeadDelivered(env, s, q, r, cq, cmds, done);
    } else {
      TailDelivered(env, s, q, r, cq, cmds, done, i);
    }
  }

  lemma {:induction false} TailDelivered(env: Env, s: Sys, q: nat, r: Sq, cq: Cq, cmds: seq<Sqe>, done: seq<Cqe>,
                                         i: nat)
    requires CtrlOk(s.c) && 0 < q < MAX_QUEUES && s.c.sq[q] == r && r.enabled && s.c.cq[r.cqid] == cq
    requires 0 < i < |cmds| && PairReady(env, s.now, s.mem, r, cq, cmds, done)
    ensures DeliveredAt(ProcessSq(env, s, q).0.mem, cmds, ProcessSq(env, s, q).1, i)
    decreases i, 0
  {
    var s1, en := PairStep(env, s, q, r, cq, cmds, done);
    BatchDelivered(env, s1, q, Moved(r, 1), Advance(cq), cmds[1..], done + [CqeOf(en)], i - 1);
    DeliveredCons(ProcessSq(env, s1, q).0.mem, cmds, en, ProcessSq(env, s1, q).1, i);
  }

  lemma LastsTail(cmds: seq<Sqe>, i: nat, n: nat)
    requires 0 < i < |cmds| && Lasts(cmds, i, n)
    ensures Lasts(cmds[1..], i - 1, n)
  {
    assert forall j :: 0 <= j < |cmds[1..]| ==> cmds[1..][j] == cmds[j + 1];
  }

  // ---------------------------------------------------------------- the whole batch, command by command

  // By induction over the pending commands: each is answered on the data its buffer held at the doorbell.
  lemma {:induction false} BatchAnswered(env: Env, s: Sys, q: nat, r: Sq, cq: Cq, cmds: seq<Sqe>, done: seq<Cqe>)
    requires CtrlOk(s.c) && 0 < q < MAX_QUEUES && s.c.sq[q] == r && r.enabled && s.c.cq[r.cqid] == cq
    requires PairReady(env, s.now, s.mem, r, cq, cmds, done)
    ensures AllAnswered(env, s.mem, cmds, ProcessSq(env, s, q).1)
    decreases |cmds|
  {
    if cmds == [] {
      NothingPending(env, s, q, r, cq, done);
    } else {
      var s1, en := PairStep(env, s, q, r, cq, cmds, done);
      BatchAnswered(env, s1, q, Moved(r, 1), Advance(cq), cmds[1..], done + [CqeOf(en)]);
      AnsweredCons(env, s.mem, s1.mem, cmds, en, ProcessSq(env, s1, q).1);
    }
  }

  // The completion ring gains exactly the completions of the log, in order, and the pair is left with nothing pending,
  // ready for the next batch.
  lemma {:induction false} BatchPosted(env: Env, s: Sys, q: nat, r: Sq, cq: Cq, cmds: seq<Sqe>, done: seq<Cqe>)
    requires CtrlOk(s.c) && 0 < q < MAX_QUEUES && s.c.sq[q] == r && r.enabled && s.c.cq[r.cqid] == cq
    requires PairReady(env, s.now, s.mem, r, cq, cmds, done)
    ensures var (s', log) := ProcessSq(env, s, q);
            && |s'.c.sq| == |s'.c.cq| == MAX_QUEUES && s'.c.sq[q] == Moved(r, |cmds|)
            && SameCqShape(cq, s'.c.cq[r.cqid])
            && PairReady(env, s'.now, s'.mem, s'.c.sq[q], s'.c.cq[r.cqid], [], done + Cqes(log))
    decreases |cmds|
  {
    if cmds == [] {
      NothingPending(env, s, q, r, cq, done);
      MovedPending(r);
    } else {
      var s1, en := PairStep(env, s, q, r, cq, cmds, done);
      BatchPosted(env, s1, q, Moved(r, 1), Advance(cq), cmds[1..], done + [CqeOf(en)]);
      MovedRest(r, |cmds|, |cmds[1..]|);
      CqesCons(done, en, ProcessSq(env, s1, q).1);
    }
  }

  // The namespace ends as the map after the submitted commands.
  lemma {:induction false} BatchApplied(env: Env, s: Sys, q: nat, r: Sq, cq: Cq, cmds: seq<Sqe>, done: seq<Cqe>)
    requires CtrlOk(s.c) && 0 < q < MAX_QUEUES && s.c.sq[q] == r && r.enabled && s.c.cq[r.cqid] == cq
    requires PairReady(env, s.now, s.mem, r, cq, cmds, done)
    ensures NsOk(ProcessSq(env, s, q).0.c.ns)
    ensures Abs(ProcessSq(env, s, q).0.c.ns) == IdealRun(env, s.c.ns.maxKeys, s.now, s.mem, Abs(s.c.ns), cmds)
    decreases |cmds|
  {
    if cmds == [] {
      NothingPending(env, s, q, r, cq, done);
    } else {
      var s1, en := PairStep(env, s, q, r, cq, cmds, done);
      BatchApplied(env, s1, q, Moved(r, 1), Advance(cq), cmds[1..], done + [CqeOf(en)]);
      IdealStep(env, s.c.ns.maxKeys, s.now, s1.now, s.mem, s1.mem, Abs(s.c.ns), Abs(s1.c.ns), cmds);
    }
  }

  // ---------------------------------------------------------------- the composed theorem

  // A host that has consumed `consumed` completions and polls on sees exactly the rest of `sent`, in order, and
  // then nothing new.
  ghost predicate HostReads(mem: seq<byte>, cq: Cq, sent: seq<Cqe>, consumed: nat) {
    && cq.size > 0 && SlotAt(cq.dma, cq.size) <= |mem|
    && forall i :: consumed <= i <= |sent| ==>
         && (SeesNew(mem, cq.dma, cq.size, i) <==> i < |sent|)
         && (i < |sent| ==> EntryAt(mem, cq.dma, cq.size, i) == sent[i])
  }

  // Queue q has nothing pending, and its completion ring holds `done`.
  ghost predicate NextBatch(env: Env, s: Sys, q: nat, done: seq<Cqe>) {
    && q < |s.c.sq| && s.c.sq[q].cqid < |s.c.cq|
    && PairReady(env, s.now, s.mem, s.c.sq[q], s.c.cq[s.c.sq[q].cqid], [], done)
  }

  lemma HostPolls(mem: seq<byte>, cq: Cq, sent: seq<Cqe>, consumed: nat)
    requires RingHolds(mem, cq.dma, cq.size, sent) && consumed <= |sent| <= consumed + cq.size
    ensures HostReads(mem, cq, sent, consumed)
  {
    forall i | consumed <= i <= |sent|
      ensures (SeesNew(mem, cq.dma, cq.size, i) <==> i < |sent|)
           && (i < |sent| ==> EntryAt(mem, cq.dma, cq.size, i) == sent[i])
    {
      PollExact(mem, cq.dma, cq.size, sent, i);
    }
  }

  // The completion of command i of a batch: its identifier, its queue, the head after it, and the status its log entry
  // was given.
  ghost predicate Completes(c: Cqe, q: nat, r: Sq, i: nat, e: Sqe, entry: Entry)
    requires r.size > 0
  {
    && CqeCid(c) == RdLe(e[2..4]) && CqeSqId(c) == q && CqeSqHead(c) == (r.head + i + 1) % r.size
    && CqeStatus(c) == entry.status
  }

  lemma NextHead(r: Sq, i: nat)
    requires 1 <= r.size <= 0x1_0000
    ensures (Moved(r, i).head + 1) % r.size == (r.head + i + 1) % r.size
  {
    ModSucc(r.head + i, r.size);
  }

  lemma CompletesAt(c: Cqe, q: nat, r: Sq, i: nat, e: Sqe, entry: Entry)
    requires 1 <= r.size <= 0x1_0000 && entry.sqe == e && entry.index == Moved(r, i).head
    requires entry.posted.Some? && c == entry.posted.value.cqe && CompletesEntry(entry.posted.value, r, q, entry)
    ensures Completes(c, q, r, i, e, entry)
  {
    NextHead(r, i);
  }

  lemma BatchCompletes(env: Env, s: Sys, q: nat, r: Sq, cq: Cq, cmds: seq<Sqe>, done: seq<Cqe>)
    requires CtrlOk(s.c) && 0 < q < MAX_QUEUES && s.c.sq[q] == r && r.enabled && s.c.cq[r.cqid] == cq
    requires PairReady(env, s.now, s.mem, r, cq, cmds, done)
    ensures var log := ProcessSq(env, s, q).1;
            |log| == |cmds| && forall i :: 0 <= i < |cmds| ==> Completes(CqeOf(log[i]), q, r, i, cmds[i], log[i])
  {
    BatchAnswered(env, s, q, r, cq, cmds, done);
    BatchCompletions(env, s, q);
    BatchExact(env, s, q);
    var log := ProcessSq(env, s, q).1;
    forall i | 0 <= i < |cmds| ensures Completes(CqeOf(log[i]), q, r, i, cmds[i], log[i]) {
      assert Answered(env, s.mem, cmds[i], log[i]);
      assert Served(env, s.now, |s.mem|, q, r, i, log[i]);
      CompletesAt(CqeOf(log[i]), q, r, i, cmds[i], log[i]);
    }
  }

  // A BAR0 offset in the tail doorbell of submission queue q.
  predicate IsTailDoorbell(offset: nat, q: nat) { 0x1000 + 8 * q <= offset < 0x1004 + 8 * q }

  // Which doorbell an offset in the 16 KiB of BAR0 belongs to.
  lemma TailDoorbellAt(offset: nat, q: nat)
    requires offset < 0x4000 && q < MAX_QUEUES
    ensures IsTailDoorbell(offset, q)
      <==> offset >= REG_DOORBELL && !DoorbellIsCq(offset) && DoorbellQid(offset) == q
  {
  }

  // The device takes the low 16 bits of what is written.
  lemma DoorbellTakes(data: seq<byte>, v: u16)
    requires RdLe(data) % 0x1_0000 == v
    ensures DoorbellValue(data) == v
  {
    var n := RdLe(data);
    var a, b := n / TWO32, n % TWO32;
    assert n == TWO16 * (TWO16 * a + b / TWO16) + b % TWO16;
    DivModUnique(n, TWO16, TWO16 * a + b / TWO16, b % TWO16);
  }

  lemma DoorbellRings(env: Env, s: Sys, q: nat, offset: nat, data: seq<byte>, v: u16)
    requires CtrlOk(s.c) && q < MAX_QUEUES && IsTailDoorbell(offset, q)
    requires |data| <= 8 && RdLe(data) % 0x1_0000 == v && SqOk(s.c.sq[q].(tail := v))
    ensures WriteAllowed(s.c, offset, data)
    ensures var c := RingDoorbell(s.c, q, v);
            CtrlOk(c) && BarWrite(env, s, offset, data) == ProcessSq(env, s.(c := c), q)
  {
    TailDoorbellAt(offset, q);
    DoorbellTakes(data, v);
  }

  // The namespace went from ns to ns' through exactly cmds, each reading its buffer as it stood in mem at tick `now`,
  // and the log gives every answer the map prescribes at that point.
  ghost predicate NamespaceServed(env: Env, now: nat, mem: seq<byte>, ns: Ns, ns': Ns, cmds: seq<Sqe>,
                                  log: seq<Entry>)
    requires NsOk(ns)
  {
    && NsOk(ns')
    && Abs(ns') == IdealRun(env, ns.maxKeys, now, mem, Abs(ns), cmds)
    && Explains(env, ns.maxKeys, |mem|, Abs(ns), log, Abs(ns'))
    && AllAnswered(env, mem, cmds, log)
  }

  lemma BatchServes(env: Env, s: Sys, q: nat, r: Sq, cq: Cq, cmds: seq<Sqe>, done: seq<Cqe>)
    requires CtrlOk(s.c) && 0 < q < MAX_QUEUES && s.c.sq[q] == r && r.enabled && s.c.cq[r.cqid] == cq
    requires PairReady(env, s.now, s.mem, r, cq, cmds, done)
    ensures var (s', log) := ProcessSq(env, s, q);
            NamespaceServed(env, s.now, s.mem, s.c.ns, s'.c.ns, cmds, log)
  {
    BatchAnswered(env, s, q, r, cq, cmds, done);
    BatchApplied(env, s, q, r, cq, cmds, done);
    ProcessRefines(env, s, q);
  }

  // What the host finds in mem after a batch of cmds on record r: every payload that lasts in its buffer, and, from
  // the completions it had not consumed on, one completion per command and then nothing new.
  ghost predicate HostFinds(mem: seq<byte>, q: nat, r: Sq, cq: Cq, cmds: seq<Sqe>, log: seq<Entry>, done: seq<Cqe>,
                            consumed: nat)
  {
    match r
    case Sq(_, size, _, _, _, _, _) =>
      && size > 0 && |log| == |cmds|
      && (forall i :: 0 <= i < |cmds| ==> DeliveredAt(mem, cmds, log, i))
      && (forall i :: 0 <= i < |cmds| ==> Completes(Cqes(log)[i], q, r, i, cmds[i], log[i]))
      && HostReads(mem, cq, done + Cqes(log), consumed)
  }

  lemma BatchFound(env: Env, s: Sys, q: nat, r: Sq, cq: Cq, cmds: seq<Sqe>, done: seq<Cqe>, consumed: nat)
    requires CtrlOk(s.c) && 0 < q < MAX_QUEUES && s.c.sq[q] == r && r.enabled && s.c.cq[r.cqid] == cq
    requires PairReady(env, s.now, s.mem, r, cq, cmds, done)
    requires consumed <= |done| && |done| + |cmds| <= consumed + cq.size
    ensures var (s', log) := ProcessSq(env, s, q);
            HostFinds(s'.mem, q, r, cq, cmds, log, done, consumed) && NextBatch(env, s', q, done + Cqes(log))
  {
    var s', log := ProcessSq(env, s, q).0, ProcessSq(env, s, q).1;
    BatchCompletes(env, s, q, r, cq, cmds, done);
    forall i | 0 <= i < |cmds| ensures DeliveredAt(s'.mem, cmds, log, i) {
      BatchDelivered(env, s, q, r, cq, cmds, done, i);
    }
    BatchPosted(env, s, q, r, cq, cmds, done);
    HostPolls(s'.mem, cq, done + Cqes(log), consumed);
  }

  // From the doorbell to the consumer. The host has put cmds in submission queue q, with the rings and the buffers
  // placed as PairReady asks, has consumed `consumed` of the `done` completions so far, and leaves room for the new.
  // One write of the tail v to the doorbell at 0x1000 + 8q then serves exactly those commands: the namespace ends as
  // the map after them, each Store having taken the bytes its buffer held at the doorbell; every answer is the one the
  // map prescribes at that point; the payload of every Retrieve and List that succeeded is in its buffer, if nothing
  // sent later went over it; and the polling host reads, after the completions it had not consumed yet, one completion
  // per command, in order, with the command's identifier, its queue, the head after it and its status, and then sees
  // nothing new. The pair is then ready for the next batch.
  lemma DoorbellToConsumer(env: Env, s: Sys, q: nat, offset: nat, data: seq<byte>, v: u16, cmds: seq<Sqe>,
                           done: seq<Cqe>, consumed: nat)
    requires CtrlOk(s.c) && 0 < q < MAX_QUEUES && s.c.sq[q].enabled
    requires IsTailDoorbell(offset, q) && |data| <= 8 && RdLe(data) % 0x1_0000 == v
    requires PairReady(env, s.now, s.mem, s.c.sq[q].(tail := v), s.c.cq[s.c.sq[q].cqid], cmds, done)
    requires consumed <= |done| && |done| + |cmds| <= consumed + s.c.cq[s.c.sq[q].cqid].size
    ensures WriteAllowed(s.c, offset, data)
    ensures var (s', log) := BarWrite(env, s, offset, data);
            var (r, cq) := (s.c.sq[q].(tail := v), s.c.cq[s.c.sq[q].cqid]);
            && NamespaceServed(env, s.now, s.mem, s.c.ns, s'.c.ns, cmds, log)
            && HostFinds(s'.mem, q, r, cq, cmds, log, done, consumed)
            && NextBatch(env, s', q, done + Cqes(log))
  {
    var c := RingDoorbell(s.c, q, v);
    var r, cq, s1 := c.sq[q], s.c.cq[s.c.sq[q].cqid], s.(c := c);
    DoorbellRings(env, s, q, offset, data, v);
    BatchServes(env, s1, q, r, cq, cmds, done);
    BatchFound(env, s1, q, r, cq, cmds, done, consumed);
  }
}
