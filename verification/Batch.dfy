/** What one submission-queue doorbell does: how many commands it serves, and which completions it produces. */
module Batch {
  import opened Bytes
  import opened NvmeSpec
  import opened GuestMemory
  import opened KvSlots
  import opened KvMap
  import opened KvList
  import opened ControllerState
  import opened Queues
  import opened RingPair

  lemma MovedOnce(c: Ctrl, q: nat)
    requires q < |c.sq| && 1 <= c.sq[q].size <= 0x1_0000
    ensures StepHead(c, q) == c.(sq := c.sq[q := Moved(c.sq[q], 1)])
  {
  }

  // How many entries are served from record r at tick `now`, and where the head and the tick end.
  ghost predicate BatchDone(env: Env, now: nat, size: nat, q: nat, r: Sq, log: seq<Entry>, r': Sq, now': nat)
    requires r.enabled && SqOk(r)
  {
    match r
    case Sq(_, _, _, _, _, tail, _) =>
      && |log| <= Pending(r)
      && r' == Moved(r, |log|)
      && (forall i :: 0 <= i < |log| ==> Served(env, now, size, q, r, i, log[i]))
      && (|log| == Pending(r) <==> r'.head == tail)
      && (|log| < Pending(r) ==> !GpaOk(env, now + 4 * |log|, SqeAddr(r'), SQE_SIZE, size))
      && now' == now + 4 * (if |log| < Pending(r) then |log| + 1 else |log|)
  }

  // Log entry i of a batch is ring entry i after the head, fetched at the batch's i-th tick.
  ghost predicate Served(env: Env, now: nat, size: nat, q: nat, r: Sq, i: nat, e: Entry)
    requires 1 <= r.size <= 0x1_0000
  {
    && e.qid == q && e.index == Moved(r, i).head && e.tick == now + 4 * i
    && GpaOk(env, now + 4 * i, SqeAddr(Moved(r, i)), SQE_SIZE, size)
  }

  // A doorbell consumes (tail - head) mod size commands, or stops at the first entry it cannot fetch with the head
  // still on it, so that the next doorbell resumes there.
  lemma {:induction false} BatchExact(env: Env, s: Sys, q: nat)
    requires CtrlOk(s.c) && q < MAX_QUEUES && s.c.sq[q].enabled
    ensures var (s', log) := ProcessSq(env, s, q);
            q < |s'.c.sq| && BatchDone(env, s.now, |s.mem|, q, s.c.sq[q], log, s'.c.sq[q], s'.now)
    decreases Backlog(s.c.sq[q])
  {
    var r := s.c.sq[q];
    if r.head == r.tail || !Fetch(env, s, q).ok {
      BatchEmpty(env, s, q);
    } else {
      var s1, entry := TurnFacts(env, s, q);
      BatchExact(env, s1, q);
      var (s', log) := ProcessSq(env, s1, q);
      BatchStep(env, s.now, s1.now, |s.mem|, q, r, s1.c.sq[q], entry, log, s'.c.sq[q], s'.now);
    }
  }

  lemma BatchEmpty(env: Env, s: Sys, q: nat)
    requires CtrlOk(s.c) && q < MAX_QUEUES && s.c.sq[q].enabled
    requires s.c.sq[q].head == s.c.sq[q].tail || !Fetch(env, s, q).ok
    ensures var (s', log) := ProcessSq(env, s, q);
            s'.c == s.c && BatchDone(env, s.now, |s.mem|, q, s.c.sq[q], log, s'.c.sq[q], s'.now)
  {
    MovedPending(s.c.sq[q]);
    if s.c.sq[q].head == s.c.sq[q].tail {
      ProcessDone(env, s, q);
    } else {
      ProcessStuck(env, s, q);
    }
  }

  // One turn of the queue loop, as far as the queue itself is concerned.
  lemma TurnFacts(env: Env, s: Sys, q: nat) returns (s1: Sys, en: Entry)
    requires CtrlOk(s.c) && q < MAX_QUEUES && s.c.sq[q].enabled && s.c.sq[q].head != s.c.sq[q].tail
    requires Fetch(env, s, q).ok
    ensures CtrlOk(s1.c) && s1.c.sq[q] == Moved(s.c.sq[q], 1) && Backlog(s1.c.sq[q]) == Backlog(s.c.sq[q]) - 1
    ensures s1.now == s.now + 4 && |s1.mem| == |s.mem|
    ensures Served(env, s.now, |s.mem|, q, s.c.sq[q], 0, en)
    ensures ProcessSq(env, s, q) == (ProcessSq(env, s1, q).0, [en] + ProcessSq(env, s1, q).1)
  {
    ProcessTurn(env, s, q);
    var r := Serve(env, s, q, Fetch(env, s, q).data);
    s1, en := r.0, r.1;
    ServeKeeps(env, s, q, Fetch(env, s, q).data);
    MovedOnce(s.c, q);
    MovedPending(s.c.sq[q]);
  }

  lemma BatchStep(env: Env, now: nat, now1: nat, size: nat, q: nat, r: Sq, r1: Sq, e: Entry, rest: seq<Entry>,
                  r': Sq, now': nat)
    requires r.enabled && SqOk(r) && r.head != r.tail && SqOk(r1)
    requires r1 == Moved(r, 1) && now1 == now + 4
    requires BatchDone(env, now1, size, q, r1, rest, r', now')
    requires Served(env, now, size, q, r, 0, e)
    ensures BatchDone(env, now, size, q, r, [e] + rest, r', now')
  {
    MovedPending(r);
    MovedAgain(r, |rest|);
    var log := [e] + rest;
    forall i | 0 <= i < |log| ensures Served(env, now, size, q, r, i, log[i]) {
      if i > 0 {
        assert Served(env, now + 4, size, q, Moved(r, 1), i - 1, rest[i - 1]);
        MovedAgain(r, i - 1);
      }
    }
  }

  // ---------------------------------------------------------------- completions of an I/O queue

  // One I/O command, in full: only its own head, its completion queue and the namespace change, and memory only
  // through what it sends and its completion entry.
  lemma ServeIo(env: Env, s: Sys, q: nat, e: Sqe)
    requires CtrlOk(s.c) && 0 < q < MAX_QUEUES && s.c.sq[q].enabled
    ensures var (s', en) := Serve(env, s, q, e);
            var r := s.c.sq[q];
            var cq := s.c.cq[r.cqid];
            var m := SentMem(env, s.now, s.mem, e, en.sent);
            var cqe := IoCqe(q, r, e, en.status, cq.phase);
            && s'.now == s.now + 4 && s'.c.r == s.c.r && s'.c.sq == s.c.sq[q := Moved(r, 1)]
            && s'.c.cq == (if cq.enabled then s.c.cq[r.cqid := Advance(cq)] else s.c.cq)
            && s'.mem == (if cq.enabled then GpaWrite(env, s.now + 3, m, CqeAddr(cq), cqe) else m)
            && en.qid == q && en.index == r.head && en.tick == s.now && en.sqe == e
            && en.cdw0 == 0 && en.status < 0x8000
            && en.data == Delivered(env, s.now, s.mem, e) && SentWithin(en.sent, e)
            && en.posted == if cq.enabled
                            then Some(Posting(r.cqid, CqeAddr(cq), cqe, cq.irq,
                                              GpaOk(env, s.now + 3, CqeAddr(cq), CQE_SIZE, |s.mem|)))
                            else None
  {
    var c := StepHead(s.c, q);
    MovedOnce(s.c, q);
    StepHeadKeeps(s.c, q);
    IoKeeps(env, s.now, c, s.mem, e);
    ExecMem(env, s.now, q, c, s.mem, e);
    SentBound(env, s.now, q, s.c.ns, e, Delivered(env, s.now, s.mem, e));
  }

  lemma SentBound(env: Env, t: nat, q: nat, ns: Ns, e: Sqe, x: Inbound)
    requires NsOk(ns) && DeliveredOk(KvOf(e), x) && q > 0
    ensures SentWithin(Sent(env, t, q, ns, e, x), e)
  {
    var cmd := KvOf(e);
    if cmd.opcode == KV_LIST && !cmd.KeyTooLong() && ListNs(ns, cmd, env, t).Send? {
      ListAnswersPage(ns, cmd, env, t);
    }
  }

  // Where in the entry the transfer finds its buffer.
  lemma DeliveredIs(env: Env, t: nat, mem: seq<byte>, e: Sqe)
    ensures Delivered(env, t, mem, e)
         == PrpRead(env, t + 1, mem, RdLe(e[24..32]), RdLe(e[32..40]), RdLe(e[40..44]))
  {
  }

  ghost predicate CompletesEntry(p: Posting, r: Sq, q: nat, e: Entry)
    requires 1 <= r.size <= 0x1_0000
  {
    && p.cqid == r.cqid && CqeCid(p.cqe) == RdLe(e.sqe[2..4]) && CqeSqId(p.cqe) == q
    && CqeSqHead(p.cqe) == (e.index + 1) % r.size && CqeStatus(p.cqe) == e.status && CqeCdw0(p.cqe) == e.cdw0
  }

  // The entry has a completion exactly when its completion queue is enabled and the command does not stay open.
  ghost predicate CompletedOnce(e: Entry, r: Sq, q: nat, live: bool)
    requires 1 <= r.size <= 0x1_0000
  {
    && (e.posted.Some? <==> live && e.status != NO_COMPLETE)
    && (e.posted.Some? ==> CompletesEntry(e.posted.value, r, q, e))
  }

  ghost predicate Completed(log: seq<Entry>, r: Sq, q: nat, live: bool)
    requires 1 <= r.size <= 0x1_0000
  {
    forall i :: 0 <= i < |log| ==> CompletedOnce(log[i], r, q, live)
  }

  // Every command served gets exactly one completion when its completion queue is enabled, and none otherwise; only
  // an asynchronous event request stays open. The completion carries the command's identifier, its queue, the
  // advanced head, its status and its result.
  lemma {:induction false} BatchCompletions(env: Env, s: Sys, q: nat)
    requires CtrlOk(s.c) && q < MAX_QUEUES && s.c.sq[q].enabled && (q == 0 ==> s.c.sq[0].cqid == 0)
    ensures Completed(ProcessSq(env, s, q).1, s.c.sq[q], q, s.c.cq[s.c.sq[q].cqid].enabled)
    decreases Backlog(s.c.sq[q])
  {
    var r := s.c.sq[q];
    if r.head == r.tail {
      ProcessDone(env, s, q);
    } else if !Fetch(env, s, q).ok {
      ProcessStuck(env, s, q);
    } else {
      var e := Fetch(env, s, q).data;
      var (s1, entry) := Serve(env, s, q, e);
      ProcessTurn(env, s, q);
      if q > 0 {
        ServeCompletes(env, s, q, e);
      } else {
        ServeAdminCompletes(env, s, e);
      }
      BatchCompletions(env, s1, q);
      CompletedCons(entry, ProcessSq(env, s1, q).1, r, q, s.c.cq[r.cqid].enabled);
    }
  }

  lemma ServeCompletes(env: Env, s: Sys, q: nat, e: Sqe)
    requires CtrlOk(s.c) && 0 < q < MAX_QUEUES && s.c.sq[q].enabled
    ensures var ((s', en), r) := (Serve(env, s, q, e), s.c.sq[q]);
            && CompletedOnce(en, r, q, s.c.cq[r.cqid].enabled)
            && |s'.c.sq| == |s'.c.cq| == MAX_QUEUES && s'.c.sq[q] == Moved(r, 1)
            && s'.c.cq[r.cqid].enabled == s.c.cq[r.cqid].enabled
  {
    var r, en := s.c.sq[q], Serve(env, s, q, e).1;
    ServeIo(env, s, q, e);
    IoCqeFields(q, r, e, en.status, s.c.cq[r.cqid].phase);
  }

  lemma ServeAdminCompletes(env: Env, s: Sys, e: Sqe)
    requires CtrlOk(s.c) && s.c.sq[0].enabled && s.c.sq[0].cqid == 0
    ensures var ((s', en), r) := (Serve(env, s, 0, e), s.c.sq[0]);
            && CompletedOnce(en, r, 0, s.c.cq[0].enabled)
            && |s'.c.sq| == |s'.c.cq| == MAX_QUEUES && s'.c.sq[0] == Moved(r, 1)
            && s'.c.cq[0].enabled == s.c.cq[0].enabled
  {
    var c, x := StepHead(s.c, 0), Delivered(env, s.now, s.mem, e);
    MovedOnce(s.c, 0);
    StepHeadKeeps(s.c, 0);
    AdminKeeps(env, s.now, c, s.mem, e);
    AdminStatus(env, s.now, c, s.mem, e);
    FinishCompletes(env, s.now, s.c.sq[0], c.sq[0], e, x, Sent(env, s.now, 0, s.c.ns, e, x),
                    AdminExec(env, s.now, c, s.mem, e));
  }

  lemma AdminStatus(env: Env, t: nat, c: Ctrl, mem: seq<byte>, e: Sqe)
    requires CtrlOk(c)
    ensures AdminExec(env, t, c, mem, e).status < 0x8000 || AdminExec(env, t, c, mem, e).status == NO_COMPLETE
  {
  }

  // The end of an admin command: r is its queue record before the fetch, r' after it.
  lemma FinishCompletes(env: Env, t: nat, r: Sq, r': Sq, e: Sqe, x: Inbound, sent: Option<seq<byte>>, o: AdminOut)
    requires |o.c.sq| == |o.c.cq| == MAX_QUEUES && o.c.sq[0] == r'
    requires 1 <= r.size <= 0x1_0000 && r' == Moved(r, 1) && r.cqid == 0
    requires o.status < 0x8000 || o.status == NO_COMPLETE
    ensures var (s', en) := Finish(env, t, 0, r.head, r', e, x, sent, o);
            && CompletedOnce(en, r, 0, o.c.cq[0].enabled)
            && s'.c.sq == o.c.sq && |s'.c.cq| == MAX_QUEUES && s'.c.cq[0].enabled == o.c.cq[0].enabled
  {
    CqeRoundTrip(o.cdw0, r'.head, 0, Cid(e), o.status, o.c.cq[0].phase);
  }

  lemma CompletedCons(e: Entry, rest: seq<Entry>, r: Sq, q: nat, live: bool)
    requires 1 <= r.size <= 0x1_0000
    requires CompletedOnce(e, r, q, live) && Completed(rest, Moved(r, 1), q, live)
    ensures Completed([e] + rest, r, q, live)
  {
    var log := [e] + rest;
    forall i | 0 <= i < |log| ensures CompletedOnce(log[i], r, q, live) {
      if i > 0 {
        assert CompletedOnce(rest[i - 1], Moved(r, 1), q, live);
      }
    }
  }
}
