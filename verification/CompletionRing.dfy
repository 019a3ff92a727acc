/** A completion queue in guest memory is a FIFO: phase tags tell a polling host exactly which entries are new. */
module CompletionRing {
  import opened Bytes
  import opened NvmeSpec
  import opened GuestMemory
  import opened Queues

  // The phase tag of entry number k of a queue.
  function PhaseOf(k: nat, size: nat): (p: nat)
    requires size > 0
    ensures p == 0 || p == 1
  {
    1 - k / size % 2
  }

  lemma ModDiffer(j: nat, n: nat, s: nat)
    requires j < n < j + s
    ensures j % s != n % s
  {
    if j % s == n % s {
      assert n - j == s * (n / s - j / s);
      NoMultipleBetween(s, n / s - j / s);
    }
  }

  lemma NextLap(j: nat, s: nat)
    requires s > 0
    ensures (j + s) % s == j % s && PhaseOf(j + s, s) == 1 - PhaseOf(j, s)
  {
    DivModUnique(j + s, s, j / s + 1, j % s);
  }

  lemma StepWithin(n: nat, s: nat)
    requires s > 0 && n % s + 1 < s
    ensures (n + 1) % s == n % s + 1 && (n + 1) / s == n / s
  {
    DivModUnique(n + 1, s, n / s, n % s + 1);
  }

  lemma StepWraps(n: nat, s: nat)
    requires s > 0 && n % s + 1 == s
    ensures (n + 1) % s == 0 && (n + 1) / s == n / s + 1
  {
    DivModUnique(n + 1, s, n / s + 1, 0);
  }

  // ---------------------------------------------------------------- the phase law

  // A queue record that has taken n posts since it was created.
  ghost predicate Posted(q: Cq, n: nat) {
    q.size > 0 && q.tail == n % q.size && q.phase == PhaseOf(n, q.size)
  }

  ghost function AfterPosts(q: Cq, n: nat): Cq {
    if n == 0 then q else Advance(AfterPosts(q, n - 1))
  }

  // A post at index i of a lap.
  lemma AdvanceAt(q: Cq, i: nat, lap: nat)
    requires q.tail == i < q.size <= 0xffff && q.phase == 1 - lap % 2
    ensures Advance(q) == if i + 1 == q.size then q.(tail := 0, phase := 1 - (lap + 1) % 2) else q.(tail := i + 1)
  {
  }

  lemma AdvancePosted(q: Cq, n: nat)
    requires Posted(q, n) && q.size <= 0xffff
    ensures Posted(Advance(q), n + 1) && Advance(q).size == q.size
  {
    AdvanceAt(q, n % q.size, n / q.size);
    if n % q.size + 1 == q.size {
      StepWraps(n, q.size);
    } else {
      StepWithin(n, q.size);
    }
  }

  lemma {:induction false} PhaseLaw(q: Cq, n: nat)
    requires Posted(q, 0) && q.size <= 0xffff
    ensures Posted(AfterPosts(q, n), n) && AfterPosts(q, n).size == q.size
  {
    if n > 0 {
      PhaseLaw(q, n - 1);
      AdvancePosted(AfterPosts(q, n - 1), n - 1);
    }
  }

  // With 65536 entries the 16-bit tail wraps by itself and the phase never flips.
  lemma {:induction false} WideQueueKeepsPhase(q: Cq, n: nat)
    requires Posted(q, 0) && q.size == 0x1_0000
    ensures var r := AfterPosts(q, n);
            r.size == q.size && r.phase == 1 && r.tail == n % 0x1_0000
  {
    if n > 0 {
      WideQueueKeepsPhase(q, n - 1);
    }
  }

  // The phase law holds for every number of posts exactly when the queue has at most 65535 entries.
  lemma PhaseLawExact(q: Cq)
    requires Posted(q, 0) && q.size <= 0x1_0000
    ensures (forall n: nat :: Posted(AfterPosts(q, n), n)) <==> q.size <= 0xffff
  {
    if q.size <= 0xffff {
      forall n: nat ensures Posted(AfterPosts(q, n), n) {
        PhaseLaw(q, n);
      }
    } else {
      WideQueueKeepsPhase(q, 0x1_0000);
      assert !Posted(AfterPosts(q, 0x1_0000), 0x1_0000);
    }
  }

  // ---------------------------------------------------------------- the ring in memory

  function SlotAt(base: nat, i: nat): nat { base + CQE_SIZE * i }

  // The last `size` of the entries sent are in their slots; slots never written still have phase 0.
  ghost predicate RingHolds(mem: seq<byte>, base: nat, size: nat, sent: seq<Cqe>) {
    && size > 0 && SlotAt(base, size) <= |mem|
    && (forall j :: 0 <= j < |sent| && |sent| <= j + size ==> Peek(mem, SlotAt(base, j % size), CQE_SIZE) == sent[j])
    && (forall i :: |sent| <= i < size ==> CqePhase(Peek(mem, SlotAt(base, i), CQE_SIZE)) == 0)
    && (forall j :: 0 <= j < |sent| ==> CqePhase(sent[j]) == PhaseOf(j, size))
  }

  lemma SlotInRing(base: nat, size: nat, i: nat)
    requires i < size
    ensures SlotAt(base, i) + CQE_SIZE <= SlotAt(base, size)
  {
  }

  lemma EmptyRing(mem: seq<byte>, base: nat, size: nat)
    requires size > 0 && SlotAt(base, size) <= |mem|
    requires forall x :: base <= x < SlotAt(base, size) ==> mem[x] == 0
    ensures RingHolds(mem, base, size, [])
  {
    forall i | 0 <= i < size ensures CqePhase(Peek(mem, SlotAt(base, i), CQE_SIZE)) == 0 {
      SlotInRing(base, size, i);
      var e := Peek(mem, SlotAt(base, i), CQE_SIZE);
      assert e[14..16] == [e[14], e[15]] == [0, 0];
      assert RdLe([0, 0]) == 0 by { assert [0 as byte, 0][1..] == [0]; assert [0 as byte][1..] == []; }
    }
  }

  // Writing entry number |sent| in its slot.
  lemma RingPost(mem: seq<byte>, base: nat, size: nat, sent: seq<Cqe>, e: Cqe)
    requires RingHolds(mem, base, size, sent) && CqePhase(e) == PhaseOf(|sent|, size)
    ensures SlotAt(base, |sent| % size) + CQE_SIZE <= |mem|
    ensures RingHolds(Poke(mem, SlotAt(base, |sent| % size), e), base, size, sent + [e])
  {
    var n := |sent|;
    SlotInRing(base, size, n % size);
    var mem' := Poke(mem, SlotAt(base, n % size), e);
    var sent' := sent + [e];
    forall j | 0 <= j < |sent'| && |sent'| <= j + size
      ensures Peek(mem', SlotAt(base, j % size), CQE_SIZE) == sent'[j]
    {
      SlotInRing(base, size, j % size);
      if j == n {
        PeekWritten(mem, SlotAt(base, n % size), e);
      } else {
        ModDiffer(j, n, size);
        PeekPast(mem, SlotAt(base, n % size), e, SlotAt(base, j % size), CQE_SIZE);
      }
    }
    forall i | |sent'| <= i < size ensures CqePhase(Peek(mem', SlotAt(base, i), CQE_SIZE)) == 0 {
      SlotInRing(base, size, i);
      DivModUnique(n, size, 0, n);
      PeekPast(mem, SlotAt(base, n % size), e, SlotAt(base, i), CQE_SIZE);
    }
  }

  // Writes outside the ring leave it alone.
  lemma RingFrame(mem: seq<byte>, mem': seq<byte>, base: nat, size: nat, sent: seq<Cqe>)
    requires RingHolds(mem, base, size, sent) && |mem'| == |mem|
    requires forall x :: base <= x < SlotAt(base, size) ==> mem'[x] == mem[x]
    ensures RingHolds(mem', base, size, sent)
  {
    forall i | 0 <= i < size
      ensures Peek(mem', SlotAt(base, i), CQE_SIZE) == Peek(mem, SlotAt(base, i), CQE_SIZE)
    {
      SlotInRing(base, size, i);
    }
  }

  // ---------------------------------------------------------------- the polling host

  function EntryAt(mem: seq<byte>, base: nat, size: nat, consumed: nat): Cqe
    requires size > 0 && SlotAt(base, size) <= |mem|
  {
    SlotInRing(base, size, consumed % size);
    Peek(mem, SlotAt(base, consumed % size), CQE_SIZE)
  }

  // A host that has consumed `consumed` entries looks at the next slot and compares phase tags.
  predicate SeesNew(mem: seq<byte>, base: nat, size: nat, consumed: nat)
    requires size > 0 && SlotAt(base, size) <= |mem|
  {
    CqePhase(EntryAt(mem, base, size, consumed)) == PhaseOf(consumed, size)
  }

  // The slot after the last entry sent still carries the phase of the previous lap, or none.
  lemma NothingNew(mem: seq<byte>, base: nat, size: nat, sent: seq<Cqe>)
    requires RingHolds(mem, base, size, sent)
    ensures !SeesNew(mem, base, size, |sent|)
  {
    var n := |sent|;
    if n < size {
      DivModUnique(n, size, 0, n);
      assert CqePhase(Peek(mem, SlotAt(base, n), CQE_SIZE)) == 0;
    } else {
      var j := n - size;
      NextLap(j, size);
      assert Peek(mem, SlotAt(base, j % size), CQE_SIZE) == sent[j];
      assert CqePhase(sent[j]) == PhaseOf(j, size);
    }
  }

  // As long as the host is at most one lap behind, it sees a new entry exactly when there is one, and then reads
  // exactly entry number `consumed`.
  lemma PollExact(mem: seq<byte>, base: nat, size: nat, sent: seq<Cqe>, consumed: nat)
    requires RingHolds(mem, base, size, sent) && consumed <= |sent| <= consumed + size
    ensures SeesNew(mem, base, size, consumed) <==> consumed < |sent|
    ensures consumed < |sent| ==> EntryAt(mem, base, size, consumed) == sent[consumed]
  {
    if consumed == |sent| {
      NothingNew(mem, base, size, sent);
    }
  }

  lemma LapsLater(j: nat, k: nat, s: nat)
    requires s > 0
    ensures (j + s * k) % s == j % s && (j + s * k) / s == j / s + k
  {
    var q, r := j / s, j % s;
    assert j + s * k == s * (q + k) + r by {
      assert j == s * q + r;
      assert s * (q + k) == s * q + s * k;
    }
    DivModUnique(j + s * k, s, q + k, r);
  }

  lemma Laps(j: nat, k: nat, s: nat)
    requires s > 0
    ensures (j + s * k) % s == j % s
    ensures PhaseOf(j + s * k, s) == if k % 2 == 0 then PhaseOf(j, s) else 1 - PhaseOf(j, s)
  {
    LapsLater(j, k, s);
    Parity(j / s, k);
  }

  lemma Parity(a: nat, k: nat)
    ensures (a + k) % 2 == if k % 2 == 0 then a % 2 else 1 - a % 2
  {
  }

  // A host whose slot has been written `lost` times since.
  lemma OverrunBy(mem: seq<byte>, base: nat, size: nat, sent: seq<Cqe>, consumed: nat, lost: nat, last: nat)
    requires RingHolds(mem, base, size, sent) && last == consumed + size * lost
    requires last < |sent| <= last + size
    ensures EntryAt(mem, base, size, consumed) == sent[last]
    ensures SeesNew(mem, base, size, consumed) <==> lost % 2 == 0
  {
    Laps(consumed, lost, size);
    assert Peek(mem, SlotAt(base, last % size), CQE_SIZE) == sent[last];
    assert CqePhase(sent[last]) == PhaseOf(last, size);
  }

  // How far behind a host may be: it reads the last entry written to its slot, which is the one it is waiting for
  // exactly when it is at most one lap behind; a host that has lost an odd number of laps sees nothing new, and one
  // that has lost an even number takes a later entry for its own.
  lemma OverrunLosesEntry(mem: seq<byte>, base: nat, size: nat, sent: seq<Cqe>, consumed: nat)
    returns (lost: nat, last: nat)
    requires RingHolds(mem, base, size, sent) && consumed < |sent|
    ensures last == consumed + size * lost && last < |sent| <= last + size
    ensures EntryAt(mem, base, size, consumed) == sent[last]
    ensures last == consumed <==> |sent| <= consumed + size
    ensures SeesNew(mem, base, size, consumed) <==> lost % 2 == 0
  {
    lost := LapsLost(|sent| - 1 - consumed, size);
    last := consumed + size * lost;
    OverrunBy(mem, base, size, sent, consumed, lost, last);
  }

  lemma {:induction false} LapsLost(d: nat, s: nat) returns (k: nat)
    requires s > 0
    ensures s * k <= d < s * k + s && (s * k == 0 <==> d < s)
    decreases d
  {
    if d < s {
      k := 0;
    } else {
      var j := LapsLost(d - s, s);
      k := j + 1;
      assert s * k == s * j + s;
    }
  }

  // ---------------------------------------------------------------- posting

  // A completion entry written at the queue's tail is appended to the ring, and nothing outside the ring changes.
  lemma WriteAppends(env: Env, t: nat, mem: seq<byte>, q: Cq, sent: seq<Cqe>, e: Cqe)
    requires Posted(q, |sent|) && RingHolds(mem, q.dma, q.size, sent) && CqePhase(e) == q.phase
    requires |mem| <= TWO64 && GpaOk(env, t, CqeAddr(q), CQE_SIZE, |mem|)
    ensures var m := GpaWrite(env, t, mem, CqeAddr(q), e);
            && RingHolds(m, q.dma, q.size, sent + [e])
            && forall x :: 0 <= x < |mem| && !InRange(x, q.dma, CQE_SIZE * q.size) ==> m[x] == mem[x]
  {
    SlotInRing(q.dma, q.size, q.tail);
    assert CqeAddr(q) == SlotAt(q.dma, q.tail);
    GpaExact(env, t, mem, CqeAddr(q), e);
    RingPost(mem, q.dma, q.size, sent, e);
  }
}
