/** Over any run of the host: every pending command is served and completed once, and memory holds what it should. */
module Completions {
  import opened Bytes
  import opened NvmeSpec
  import opened GuestMemory
  import opened Queues
  import opened ControllerState
  import opened Registers
  import opened Runs
  import opened Batch

  // ---------------------------------------------------------------- the log against guest memory

  // Memory after a served command: its payload, then its completion entry.
  ghost function MemAfter(env: Env, mem: seq<byte>, e: Entry): (m: seq<byte>)
    ensures |m| == |mem|
  {
    var m := SentMem(env, e.tick, mem, e.sqe, e.sent);
    match e.posted
    case None => m
    case Some(p) => GpaWrite(env, e.tick + 3, m, p.addr, p.cqe)
  }

  // The entry is what the ring at dma held, and its data what its PRPs held, when it was fetched.
  ghost predicate FetchedFrom(env: Env, dma: u64, mem: seq<byte>, e: Entry) {
    match e
    case Entry(_, index, tick, sqe, data, _, _, _, _) =>
      && GpaRead(env, tick, mem, (dma + index * SQE_SIZE) % TWO64, SQE_SIZE) == Inbound(true, sqe)
      && data == PrpRead(env, tick + 1, mem, RdLe(sqe[24..32]), RdLe(sqe[32..40]), RdLe(sqe[40..44]))
  }

  // Read in order, the log accounts for every fetch and for every write to guest memory.
  ghost predicate Traced(env: Env, dma: u64, mem: seq<byte>, log: seq<Entry>, mem': seq<byte>)
    decreases |log|
  {
    if log == [] then mem' == mem
    else
      FetchedFrom(env, dma, mem, log[0]) && Traced(env, dma, MemAfter(env, mem, log[0]), log[1..], mem')
  }

  lemma FinishTraced(env: Env, t: nat, q: u16, index: nat, r: Sq, e: Sqe, x: Inbound, sent: Option<seq<byte>>,
                     o: AdminOut, mem: seq<byte>)
    requires r.cqid < |o.c.cq| && o.mem == SentMem(env, t, mem, e, sent)
    ensures var (s', entry) := Finish(env, t, q, index, r, e, x, sent, o);
            s'.mem == MemAfter(env, mem, entry) && entry.sqe == e && entry.data == x && entry.tick == t
            && entry.index == index
  {
  }

  lemma ServeTraced(env: Env, s: Sys, q: nat, e: Sqe)
    requires CtrlOk(s.c) && q < MAX_QUEUES && s.c.sq[q].enabled
    ensures var (s', entry) := Serve(env, s, q, e);
            s'.mem == MemAfter(env, s.mem, entry) && entry.sqe == e && entry.tick == s.now
            && entry.data == Delivered(env, s.now, s.mem, e) && entry.index == s.c.sq[q].head
  {
    var c, x := StepHead(s.c, q), Delivered(env, s.now, s.mem, e);
    ExecShape(env, s.now, q, c, s.mem, e);
    ExecMem(env, s.now, q, c, s.mem, e);
    FinishTraced(env, s.now, q, s.c.sq[q].head, c.sq[q], e, x, Sent(env, s.now, q, s.c.ns, e, x),
                 Exec(env, s.now, q, c, s.mem, e), s.mem);
  }

  lemma FetchIs(env: Env, s: Sys, q: nat, r: Sq)
    requires q < |s.c.sq| && r == s.c.sq[q]
    ensures Fetch(env, s, q) == GpaRead(env, s.now, s.mem, (r.dma + r.head * SQE_SIZE) % TWO64, SQE_SIZE)
  {
  }

  lemma FetchedWith(env: Env, dma: u64, mem: seq<byte>, en: Entry, at: u64)
    requires at == (dma + en.index * SQE_SIZE) % TWO64
    requires GpaRead(env, en.tick, mem, at, SQE_SIZE) == Inbound(true, en.sqe)
    requires en.data == Delivered(env, en.tick, mem, en.sqe)
    ensures FetchedFrom(env, dma, mem, en)
  {
    DeliveredIs(env, en.tick, mem, en.sqe);
  }

  lemma EntryFetched(env: Env, s: Sys, q: nat, en: Entry)
    requires q < |s.c.sq| && Fetch(env, s, q) == Inbound(true, en.sqe)
    requires en.index == s.c.sq[q].head && en.tick == s.now && en.data == Delivered(env, s.now, s.mem, en.sqe)
    ensures FetchedFrom(env, s.c.sq[q].dma, s.mem, en)
  {
    var r := s.c.sq[q];
    FetchIs(env, s, q, r);
    FetchedWith(env, r.dma, s.mem, en, (r.dma + r.head * SQE_SIZE) % TWO64);
  }

  // One turn of the queue loop, as far as guest memory is concerned.
  lemma TurnTraced(env: Env, s: Sys, q: nat) returns (s1: Sys, en: Entry)
    requires CtrlOk(s.c) && q < MAX_QUEUES && s.c.sq[q].enabled && s.c.sq[q].head != s.c.sq[q].tail
    requires Fetch(env, s, q).ok
    ensures CtrlOk(s1.c) && Backlog(s1.c.sq[q]) == Backlog(s.c.sq[q]) - 1 && s1.c.sq[q].dma == s.c.sq[q].dma
    ensures s1.mem == MemAfter(env, s.mem, en) && FetchedFrom(env, s.c.sq[q].dma, s.mem, en)
    ensures ProcessSq(env, s, q) == (ProcessSq(env, s1, q).0, [en] + ProcessSq(env, s1, q).1)
  {
    var e := Fetch(env, s, q).data;
    var served := Serve(env, s, q, e);
    s1, en := served.0, served.1;
    ProcessTurn(env, s, q);
    ServeKeeps(env, s, q, e);
    ServeTraced(env, s, q, e);
    EntryFetched(env, s, q, en);
  }

  lemma {:induction false} ProcessTraced(env: Env, s: Sys, q: nat)
    requires CtrlOk(s.c) && q < MAX_QUEUES
    ensures Traced(env, s.c.sq[q].dma, s.mem, ProcessSq(env, s, q).1, ProcessSq(env, s, q).0.mem)
    decreases Backlog(s.c.sq[q])
  {
    if !s.c.sq[q].enabled || s.c.sq[q].head == s.c.sq[q].tail {
      ProcessDone(env, s, q);
    } else if !Fetch(env, s, q).ok {
      ProcessStuck(env, s, q);
    } else {
      var s1, en := TurnTraced(env, s, q);
      ProcessTraced(env, s1, q);
      TracedCons(env, s.c.sq[q].dma, s.mem, en, ProcessSq(env, s1, q).1, ProcessSq(env, s1, q).0.mem);
    }
  }

  lemma TracedCons(env: Env, dma: u64, mem: seq<byte>, e: Entry, rest: seq<Entry>, mem': seq<byte>)
    requires FetchedFrom(env, dma, mem, e) && Traced(env, dma, MemAfter(env, mem, e), rest, mem')
    ensures Traced(env, dma, mem, [e] + rest, mem')
  {
    assert ([e] + rest)[1..] == rest;
  }

  // ---------------------------------------------------------------- one doorbell

  // What a doorbell that moves queue q's tail to v owes the host. All pending entries are served in ring order from
  // the head, unless one cannot be fetched, and the head ends at the tail or on that entry; each command is completed;
  // the log accounts for guest memory.
  ghost predicate DoorbellServed(env: Env, s: Sys, q: nat, v: u16, s': Sys, log: seq<Entry>)
    requires CtrlOk(s.c) && q < MAX_QUEUES && (s.c.sq[q].enabled ==> v < s.c.sq[q].size)
  {
    var r := s.c.sq[q].(tail := v);
    if !r.enabled then log == [] && s'.mem == s.mem
    else
      && q < |s'.c.sq| && BatchDone(env, s.now, |s.mem|, q, r, log, s'.c.sq[q], s'.now)
      && Completed(log, r, q, s.c.cq[r.cqid].enabled)
      && Traced(env, r.dma, s.mem, log, s'.mem)
  }

  ghost predicate IsDoorbell(offset: nat) {
    offset >= REG_DOORBELL && !DoorbellIsCq(offset) && DoorbellQid(offset) < MAX_QUEUES
  }

  // Commands are served by tail doorbells only.
  ghost predicate StepServed(env: Env, s: Sys, e: Event, s': Sys, log: seq<Entry>)
    requires CtrlOk(s.c) && Allowed(s, e)
  {
    if e.Write? && IsDoorbell(e.offset) then
      DoorbellServed(env, s, DoorbellQid(e.offset), DoorbellValue(e.data), s', log)
    else log == [] && (e.HostStore? || s'.mem == s.mem)
  }

  ghost predicate RunServed(env: Env, s: Sys, es: seq<Event>)
    requires CtrlOk(s.c) && HostObeys(env, s, es)
    decreases |es|
  {
    es == [] ||
    (StepKeeps(env, s, es[0]);
     var (s1, o) := Step(env, s, es[0]);
     StepServed(env, s, es[0], s1, o.log) && RunServed(env, s1, es[1..]))
  }

  lemma DoorbellServes(env: Env, s: Sys, q: nat, v: u16)
    requires CtrlOk(s.c) && CstsOk(s.c) && q < MAX_QUEUES && (s.c.sq[q].enabled ==> v < s.c.sq[q].size)
    ensures var s1 := s.(c := RingDoorbell(s.c, q, v));
            CtrlOk(s1.c) && DoorbellServed(env, s, q, v, ProcessSq(env, s1, q).0, ProcessSq(env, s1, q).1)
  {
    var s1 := s.(c := RingDoorbell(s.c, q, v));
    if s.c.sq[q].enabled {
      BatchExact(env, s1, q);
      BatchCompletions(env, s1, q);
      ProcessTraced(env, s1, q);
    } else {
      ProcessDone(env, s1, q);
    }
  }

  lemma StepServes(env: Env, s: Sys, e: Event)
    requires CtrlOk(s.c) && CstsOk(s.c) && Allowed(s, e)
    ensures StepServed(env, s, e, Step(env, s, e).0, Step(env, s, e).1.log)
  {
    if e.Write? && IsDoorbell(e.offset) {
      DoorbellServes(env, s, DoorbellQid(e.offset), DoorbellValue(e.data));
    }
  }

  // In every run from a reachable state, each doorbell serves all of its queue's pending entries, as far as they can be
  // fetched, and completes each exactly once if the completion queue is enabled, whatever the host does in between
  // and on whatever other queues; and the device writes guest memory only as the log says.
  lemma {:induction false} RunCompletions(env: Env, s: Sys, es: seq<Event>)
    requires CtrlOk(s.c) && CstsOk(s.c) && HostObeys(env, s, es)
    ensures RunServed(env, s, es)
    decreases |es|
  {
    if es != [] {
      StepKeeps(env, s, es[0]);
      StepServes(env, s, es[0]);
      StepCsts(env, s, es[0]);
      RunCompletions(env, Step(env, s, es[0]).0, es[1..]);
    }
  }
}
