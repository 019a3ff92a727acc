/** A submission ring, a completion ring and data buffers side by side in guest memory. */
module RingPair {
  import opened Bytes
  import opened NvmeSpec
  import opened GuestMemory
  import opened Queues
  import opened CompletionRing

  // ---------------------------------------------------------------- who owns which addresses

  // A Store that takes a value reads its buffer; no other command reads one.
  predicate TakesValue(e: Sqe) {
    var cmd := KvOf(e);
    cmd.opcode == KV_STORE && !cmd.KeyTooLong() && cmd.hbs <= MAX_VAL
  }

  function ReadLen(e: Sqe): nat { if TakesValue(e) then KvOf(e).hbs else 0 }

  // The longest payload a command sends: a value, or a listing with at least its header.
  function SendLen(e: Sqe): nat {
    var cmd := KvOf(e);
    if cmd.opcode == KV_RETRIEVE then Min(cmd.hbs, MAX_VAL) else if cmd.opcode == KV_LIST then Max(4, cmd.hbs) else 0
  }

  // A transfer carries at most the rest of one page and another page.
  function WriteLen(e: Sqe): nat { Min(SendLen(e), 2 * PAGE_SIZE - Prp1(e) % PAGE_SIZE) }

  ghost predicate SentWithin(sent: Option<seq<byte>>, e: Sqe) { sent.Some? ==> |sent.value| <= SendLen(e) }

  ghost predicate InRead(e: Sqe, x: int) { InBuffer(x, Prp1(e), Prp2(e), ReadLen(e)) }
  ghost predicate InWrite(e: Sqe, x: int) { InBuffer(x, Prp1(e), Prp2(e), WriteLen(e)) }
  ghost predicate InSqRing(r: Sq, x: int) { InRange(x, r.dma, SQE_SIZE * r.size) }
  ghost predicate InCqRing(q: Cq, x: int) { InRange(x, q.dma, CQE_SIZE * q.size) }

  // The rings do not overlap; what a command writes misses the rings and what later commands read; no command reads
  // the completion ring.
  ghost predicate Separate(r: Sq, q: Cq, cmds: seq<Sqe>) {
    && (forall x :: InSqRing(r, x) ==> !InCqRing(q, x))
    && (forall i, x :: 0 <= i < |cmds| && InWrite(cmds[i], x) ==> !InSqRing(r, x) && !InCqRing(q, x))
    && (forall i, x :: 0 <= i < |cmds| && InRead(cmds[i], x) ==> !InCqRing(q, x))
    && (forall i, j, x :: 0 <= i < j < |cmds| && InWrite(cmds[i], x) ==> !InRead(cmds[j], x))
  }

  function SqSlotAt(r: Sq, i: nat): nat { r.dma + SQE_SIZE * i }

  // Ring entry i after the head, as it stands in memory.
  function Submitted(mem: seq<byte>, r: Sq, i: nat): Sqe
    requires 1 <= r.size <= 0x1_0000 && SqSlotAt(r, r.size) <= |mem|
  {
    assert Moved(r, i).head < r.size;
    Peek(mem, SqSlotAt(r, Moved(r, i).head), SQE_SIZE)
  }

  // cmds are the entries the host has put between head and tail.
  ghost predicate Submission(mem: seq<byte>, r: Sq, cmds: seq<Sqe>) {
    && r.enabled && SqOk(r) && SqSlotAt(r, r.size) <= |mem|
    && |cmds| == Pending(r)
    && forall i :: 0 <= i < |cmds| ==> cmds[i] == Submitted(mem, r, i)
  }

  // The next n fetches and completions can be transferred.
  ghost predicate RingsMapped(env: Env, now: nat, size: nat, r: Sq, q: Cq, n: nat)
    requires 1 <= r.size <= 0x1_0000
    decreases n
  {
    n == 0 || (TurnMapped(env, now, size, r, q) && RingsMapped(env, now + 4, size, Moved(r, 1), Advance(q), n - 1))
  }

  ghost predicate TurnMapped(env: Env, now: nat, size: nat, r: Sq, q: Cq) {
    GpaOk(env, now, SqeAddr(r), SQE_SIZE, size) && GpaOk(env, now + 3, CqeAddr(q), CQE_SIZE, size)
  }

  // A queue pair whose completion ring holds `sent` and whose submission ring holds cmds.
  ghost predicate PairReady(env: Env, now: nat, mem: seq<byte>, r: Sq, cq: Cq, cmds: seq<Sqe>, sent: seq<Cqe>) {
    match cq
    case Cq(dma, size, _, _, _, _, _, enabled) =>
      && |mem| <= TWO64
      && enabled && size <= 0xffff && Posted(cq, |sent|) && RingHolds(mem, dma, size, sent)
      && Submission(mem, r, cmds)
      && RingsMapped(env, now, |mem|, r, cq, |cmds|)
      && Separate(r, cq, cmds)
  }

  // From m to m', only what e writes and the completion ring changed.
  ghost predicate Untouched(m: seq<byte>, m': seq<byte>, e: Sqe, cq: Cq) {
    |m'| == |m| && forall x :: 0 <= x < |m| && !InWrite(e, x) && !InCqRing(cq, x) ==> m'[x] == m[x]
  }

  // ---------------------------------------------------------------- what a command touches

  lemma ReachMonotone(x: int, prp1: nat, prp2: nat, len: nat, more: nat)
    requires len <= more && InBuffer(x, prp1, prp2, len)
    ensures InBuffer(x, prp1, prp2, more)
  {
  }

  lemma SqSlotInRing(r: Sq, i: nat)
    requires 1 <= r.size <= 0x1_0000
    ensures Moved(r, i).head < r.size
    ensures SqSlotAt(r, Moved(r, i).head) + SQE_SIZE <= SqSlotAt(r, r.size)
    ensures forall x :: InRange(x, SqSlotAt(r, Moved(r, i).head), SQE_SIZE) ==> InSqRing(r, x)
  {
  }

  // ---------------------------------------------------------------- one command

  lemma SubmissionTail(m: seq<byte>, m': seq<byte>, r: Sq, cmds: seq<Sqe>)
    requires Submission(m, r, cmds) && cmds != [] && |m'| == |m|
    requires forall x :: 0 <= x < |m| && InSqRing(r, x) ==> m'[x] == m[x]
    ensures r.head != r.tail
    ensures SqOk(Moved(r, 1)) ==> Submission(m', Moved(r, 1), cmds[1..])
  {
    MovedPending(r);
    if SqOk(Moved(r, 1)) {
      forall i | 0 <= i < |cmds[1..]| ensures cmds[1..][i] == Submitted(m', Moved(r, 1), i) {
        MovedAgain(r, i);
        SqSlotInRing(r, i + 1);
        assert Submitted(m, r, i + 1) == Submitted(m', Moved(r, 1), i);
      }
    }
  }

  lemma SeparateTail(r: Sq, q: Cq, r': Sq, q': Cq, cmds: seq<Sqe>)
    requires Separate(r, q, cmds) && cmds != []
    requires r'.dma == r.dma && r'.size == r.size && q'.dma == q.dma && q'.size == q.size
    ensures Separate(r', q', cmds[1..])
  {
    forall x ensures InSqRing(r', x) == InSqRing(r, x) && InCqRing(q', x) == InCqRing(q, x) {
    }
    assert forall i :: 0 <= i < |cmds[1..]| ==> cmds[1..][i] == cmds[i + 1];
    forall i, j, x | 0 <= i < j < |cmds[1..]| && InWrite(cmds[1..][i], x) ensures !InRead(cmds[1..][j], x) {
      assert cmds[1..][i] == cmds[i + 1] && cmds[1..][j] == cmds[j + 1];
    }
  }

  // After one command the pair is ready for the rest.
  lemma PairTail(env: Env, now: nat, m: seq<byte>, m': seq<byte>, r: Sq, cq: Cq, cmds: seq<Sqe>, sent: seq<Cqe>, c: Cqe)
    requires PairReady(env, now, m, r, cq, cmds, sent) && cmds != [] && SqOk(Moved(r, 1))
    requires Untouched(m, m', cmds[0], cq) && RingHolds(m', cq.dma, cq.size, sent + [c])
    ensures PairReady(env, now + 4, m', Moved(r, 1), Advance(cq), cmds[1..], sent + [c])
  {
    forall x | 0 <= x < |m| && InSqRing(r, x) ensures m'[x] == m[x] {
      assert !InWrite(cmds[0], x) && !InCqRing(cq, x);
    }
    AdvancePosted(cq, |sent|);
    SubmissionTail(m, m', r, cmds);
    SeparateTail(r, cq, Moved(r, 1), Advance(cq), cmds);
  }

  // What the commands will read is unchanged.
  ghost predicate RestUntouched(m: seq<byte>, m': seq<byte>, cmds: seq<Sqe>) {
    |m'| == |m| && forall i, x :: 0 <= i < |cmds| && 0 <= x < |m| && InRead(cmds[i], x) ==> m'[x] == m[x]
  }

  lemma RestKept(r: Sq, cq: Cq, cmds: seq<Sqe>, m: seq<byte>, m': seq<byte>)
    requires cmds != [] && Separate(r, cq, cmds) && Untouched(m, m', cmds[0], cq)
    ensures RestUntouched(m, m', cmds[1..])
  {
    forall i, x | 0 <= i < |cmds[1..]| && 0 <= x < |m| && InRead(cmds[1..][i], x) ensures m'[x] == m[x] {
      assert cmds[1..][i] == cmds[i + 1];
      assert !InWrite(cmds[0], x);
    }
  }

  lemma PairWrite(env: Env, now: nat, mem: seq<byte>, m: seq<byte>, r: Sq, cq: Cq, cmds: seq<Sqe>, sent: seq<Cqe>,
                  q: u16, e: Sqe, status: u16)
    requires PairReady(env, now, mem, r, cq, cmds, sent) && cmds != [] && cmds[0] == e && status < 0x8000
    requires Untouched(mem, m, e, cq) && RingHolds(m, cq.dma, cq.size, sent)
    ensures var c := IoCqe(q, r, e, status, cq.phase);
            var m' := GpaWrite(env, now + 3, m, CqeAddr(cq), c);
            && Untouched(mem, m', e, cq) && RingHolds(m', cq.dma, cq.size, sent + [c])
            && GpaOk(env, now + 3, CqeAddr(cq), CQE_SIZE, |mem|)
            && forall x :: 0 <= x < |mem| && !InCqRing(cq, x) ==> m'[x] == m[x]
  {
    IoCqeFields(q, r, e, status, cq.phase);
    var c := IoCqe(q, r, e, status, cq.phase);
    assert CqePhase(c) == cq.phase;
    WriteAppends(env, now + 3, m, cq, sent, c);
  }
}
