/** Queue records: submission and completion rings as the controller keeps them. */
module Queues {
  import opened Bytes
  import opened NvmeSpec

  const MAX_QUEUES := 64

  datatype Sq = Sq(dma: u64, size: nat, qid: u16, cqid: u16, head: u16, tail: u16, enabled: bool)
  datatype Cq = Cq(dma: u64, size: nat, qid: u16, head: u16, tail: u16, phase: nat, irq: nat, enabled: bool)

  const ZERO_SQ := Sq(0, 0, 0, 0, 0, 0, false)
  const ZERO_CQ := Cq(0, 0, 0, 0, 0, 0, 0, false)

  ghost predicate SqOk(s: Sq) {
    s.enabled ==> 1 <= s.size <= 0x1_0000 && s.head < s.size && s.tail < s.size && s.cqid < MAX_QUEUES
  }

  ghost predicate CqOk(q: Cq) {
    q.enabled ==> 1 <= q.size <= 0x1_0000 && q.tail < q.size && q.phase in {0, 1}
  }

  // ---------------------------------------------------------------- completion rings

  function FlipBit(p: nat): nat { if p % 2 == 0 then p + 1 else p - 1 }

  // cq->tail is 16 bits wide; it wraps to 0, and the phase flips, when it reaches the queue's size.
  function Advance(q: Cq): Cq {
    var tail := (q.tail + 1) % TWO16;
    if tail == q.size then q.(tail := 0, phase := FlipBit(q.phase)) else q.(tail := tail)
  }

  function CqeAddr(q: Cq): u64 { (q.dma + q.tail * CQE_SIZE) % TWO64 }
  function SqeAddr(s: Sq): u64 { (s.dma + s.head * SQE_SIZE) % TWO64 }

  lemma AdvanceOk(q: Cq)
    requires q.enabled && CqOk(q)
    ensures CqOk(Advance(q)) && Advance(q).enabled
    ensures Advance(q) == q.(tail := Advance(q).tail, phase := Advance(q).phase)
  {
  }

  // ---------------------------------------------------------------- submission rings

  // Entries between head and tail.
  function Pending(s: Sq): nat
    requires s.head < s.size && s.tail < s.size
  {
    if s.head <= s.tail then s.tail - s.head else s.tail + s.size - s.head
  }

  function Backlog(s: Sq): nat {
    if s.enabled && s.head < s.size && s.tail < s.size then Pending(s) else 0
  }

  lemma PendingStep(s: Sq)
    requires s.head < s.size <= 0x1_0000 && s.tail < s.size && s.head != s.tail
    ensures var s' := s.(head := (s.head + 1) % s.size % TWO16);
            s'.head < s.size && Pending(s') == Pending(s) - 1
  {
    if s.head + 1 < s.size {
      DivModUnique(s.head + 1, s.size, 0, s.head + 1);
    } else {
      DivModUnique(s.head + 1, s.size, 1, 0);
    }
  }

  // A submission queue record whose head has moved on by k entries.
  function Moved(r: Sq, k: nat): Sq
    requires 1 <= r.size <= 0x1_0000
  {
    r.(head := (r.head + k) % r.size)
  }

  lemma AddMod(a: nat, k: nat, s: nat)
    requires s > 0
    ensures ((a + 1) % s + k) % s == (a + (k + 1)) % s
  {
    var b := a + 1;
    var d := (b % s + k) % s;
    assert b % s + k == s * ((b % s + k) / s) + d;
    assert b + k == s * (b / s + (b % s + k) / s) + d;
    DivModUnique(b + k, s, b / s + (b % s + k) / s, d);
  }

  lemma ModSucc(a: nat, s: nat)
    requires s > 0
    ensures (a % s + 1) % s == (a + 1) % s
  {
    if a % s + 1 < s {
      DivModUnique(a + 1, s, a / s, a % s + 1);
      DivModUnique(a % s + 1, s, 0, a % s + 1);
    } else {
      DivModUnique(a + 1, s, a / s + 1, 0);
      DivModUnique(a % s + 1, s, 1, 0);
    }
  }

  lemma MovedAgain(r: Sq, k: nat)
    requires 1 <= r.size <= 0x1_0000
    ensures Moved(Moved(r, 1), k) == Moved(r, k + 1)
  {
    AddMod(r.head, k, r.size);
  }

  lemma MovedRest(r: Sq, n: nat, k: nat)
    requires 1 <= r.size <= 0x1_0000 && n == k + 1
    ensures Moved(Moved(r, 1), k) == Moved(r, n)
  {
    MovedAgain(r, k);
  }

  lemma MovedPending(r: Sq)
    requires r.enabled && SqOk(r)
    ensures Moved(r, Pending(r)).head == r.tail
    ensures Moved(r, 0) == r
    ensures r.head != r.tail ==> Pending(Moved(r, 1)) == Pending(r) - 1
  {
    if r.head <= r.tail {
      DivModUnique(r.tail, r.size, 0, r.tail);
    } else {
      DivModUnique(r.tail + r.size, r.size, 1, r.tail);
    }
    DivModUnique(r.head, r.size, 0, r.head);
    if r.head != r.tail {
      PendingStep(r);
    }
  }

  // A head that starts inside the ring reaches the tail after some number of steps exactly when the tail is inside
  // the ring too: an out-of-range tail leaves the loop only through a failed fetch.
  lemma TailReachable(r: Sq)
    requires 1 <= r.size <= 0x1_0000 && r.head < r.size
    ensures (exists k: nat :: Moved(r, k).head == r.tail) <==> r.tail < r.size
  {
    if r.tail < r.size {
      MovedPending(r.(enabled := true, cqid := 0));
      assert Moved(r, Pending(r)).head == r.tail;
    }
  }

  // The completion entry an I/O command gets.
  function IoCqe(q: u16, r: Sq, e: Sqe, status: u16, phase: nat): Cqe
    requires 1 <= r.size <= 0x1_0000
  {
    MakeCqe(0, Moved(r, 1).head, q, Cid(e), status, phase)
  }

  lemma IoCqeFields(q: u16, r: Sq, e: Sqe, status: u16, phase: nat)
    requires 1 <= r.size <= 0x1_0000 && status < 0x8000
    ensures var c := IoCqe(q, r, e, status, phase);
            && CqeCdw0(c) == 0 && CqeCid(c) == RdLe(e[2..4]) && CqeSqId(c) == q && CqeSqHead(c) == (r.head + 1) % r.size
            && CqeStatus(c) == status && CqePhase(c) == phase % 2 && (phase <= 1 ==> CqePhase(c) == phase)
  {
    CqeRoundTrip(0, Moved(r, 1).head, q, Cid(e), status, phase);
  }
}
