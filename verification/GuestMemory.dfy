/** Guest memory, the DMA translation service, and PRP scatter/gather. */
module GuestMemory {
  import opened Bytes
  import opened NvmeSpec

  // Everything the controller does not decide itself, as functions of a tick that advances with every command:
  //  cut   - the segment lengths vfu_addr_to_sgl finds for a range ([] on failure)
  //  pin   - whether vfu_sgl_get succeeds
  //  heap  - whether the k-th allocation of a command succeeds
  //  page  - the 4096 bytes an Identify (CNS, CSI) returns for a given NSZE and NUSE
  datatype Env = Env(cut: (nat, nat, nat) -> seq<nat>,
                     pin: nat -> bool,
                     heap: (nat, nat) -> bool,
                     page: (nat, nat, nat, nat) -> seq<byte>)

  datatype Segment = Segment(at: nat, len: nat)

  // What a transfer from the host delivered: the bytes that reached the buffer, and whether it completed.
  datatype Inbound = Inbound(ok: bool, data: seq<byte>)

  function Total(cut: seq<nat>): nat {
    if cut == [] then 0 else cut[0] + Total(cut[1..])
  }

  // Consecutive segments of the given lengths from gpa on.
  function Segments(gpa: nat, cut: seq<nat>): (s: seq<Segment>)
    ensures |s| == |cut|
    decreases |cut|
  {
    if cut == [] then [] else [Segment(gpa, cut[0])] + Segments(gpa + cut[0], cut[1..])
  }

  function Length(segs: seq<Segment>): nat {
    if segs == [] then 0 else segs[0].len + Length(segs[1..])
  }

  ghost predicate InMemory(segs: seq<Segment>, size: nat) {
    forall i :: 0 <= i < |segs| ==> segs[i].at + segs[i].len <= size
  }

  // vfu_addr_to_sgl: either fails ([]) or cuts exactly the requested range into at most maxSg segments.
  function AddrToSgl(env: Env, t: nat, gpa: nat, len: nat, maxSg: nat, size: nat): (s: seq<Segment>)
    ensures |s| <= maxSg
    ensures InMemory(s, size)
    ensures s != [] ==> Length(s) == len
  {
    var cut := env.cut(t, gpa, len);
    if 1 <= |cut| <= maxSg && Total(cut) == len && gpa + len <= size then
      SegmentsInRange(gpa, cut, size);
      Segments(gpa, cut)
    else
      []
  }

  lemma {:induction false} SegmentsInRange(gpa: nat, cut: seq<nat>, size: nat)
    requires gpa + Total(cut) <= size
    ensures InMemory(Segments(gpa, cut), size)
    ensures Length(Segments(gpa, cut)) == Total(cut)
    decreases |cut|
  {
    if cut != [] {
      SegmentsInRange(gpa + cut[0], cut[1..], size);
      assert Segments(gpa, cut)[1..] == Segments(gpa + cut[0], cut[1..]);
    }
  }

  // The memory after d is laid over the segments in order.
  function Scatter(mem: seq<byte>, segs: seq<Segment>, d: seq<byte>): (r: seq<byte>)
    requires InMemory(segs, |mem|)
    ensures |r| == |mem|
    decreases |segs|
  {
    if segs == [] then mem
    else
      var c := Min(segs[0].len, |d|);
      Scatter(Poke(mem, segs[0].at, d[..c]), segs[1..], d[c..])
  }

  // The first len bytes the segments hold, in order.
  function Gather(mem: seq<byte>, segs: seq<Segment>, len: nat): (d: seq<byte>)
    requires InMemory(segs, |mem|)
    ensures |d| == Min(Length(segs), len)
  {
    if segs == [] then []
    else
      var c := Min(segs[0].len, len);
      Peek(mem, segs[0].at, c) + Gather(mem, segs[1..], len - c)
  }

  // Segments that partition a range behave as the range itself, however it was cut.
  lemma {:induction false} ScatterExact(mem: seq<byte>, gpa: nat, cut: seq<nat>, d: seq<byte>)
    requires gpa + Total(cut) <= |mem| && |d| <= Total(cut)
    ensures InMemory(Segments(gpa, cut), |mem|)
    ensures Scatter(mem, Segments(gpa, cut), d) == Poke(mem, gpa, d)
    decreases |cut|
  {
    SegmentsInRange(gpa, cut, |mem|);
    if cut != [] {
      var c := Min(cut[0], |d|);
      var m := Poke(mem, gpa, d[..c]);
      ScatterExact(m, gpa + cut[0], cut[1..], d[c..]);
      assert Segments(gpa, cut)[1..] == Segments(gpa + cut[0], cut[1..]);
      if c == cut[0] {
        PokeSplit(mem, gpa, d, c);
      } else {
        assert d[..c] == d && d[c..] == [];
      }
    } else {
      assert Poke(mem, gpa, d) == mem;
    }
  }

  lemma {:induction false} GatherExact(mem: seq<byte>, gpa: nat, cut: seq<nat>, len: nat)
    requires gpa + Total(cut) <= |mem| && len <= Total(cut)
    ensures InMemory(Segments(gpa, cut), |mem|)
    ensures Gather(mem, Segments(gpa, cut), len) == Peek(mem, gpa, len)
    decreases |cut|
  {
    SegmentsInRange(gpa, cut, |mem|);
    if cut != [] {
      var c := Min(cut[0], len);
      GatherExact(mem, gpa + cut[0], cut[1..], len - c);
      assert Segments(gpa, cut)[1..] == Segments(gpa + cut[0], cut[1..]);
      if c == cut[0] {
        PeekSplit(mem, gpa, len, c);
      } else {
        assert Peek(mem, gpa + cut[0], 0) == [];
      }
    }
  }

  // A scatter over two lists of segments is the two scatters one after the other.
  lemma {:induction false} ScatterConcat(mem: seq<byte>, a: seq<Segment>, b: seq<Segment>, d: seq<byte>,
                                          done: seq<byte>)
    requires InMemory(a, |mem|) && InMemory(b, |mem|) && Length(a) <= |d|
    requires done == Scatter(mem, a, d[..Length(a)])
    ensures InMemory(a + b, |mem|) && Scatter(mem, a + b, d) == Scatter(done, b, d[Length(a)..])
    decreases |a|
  {
    if a == [] {
      assert a + b == b && d[0..] == d;
    } else {
      var c, n := a[0].len, Length(a);
      var m := Poke(mem, a[0].at, d[..c]);
      assert done == Scatter(m, a[1..], d[c..][..n - c]) by {
        Slices(d, c, n);
      }
      ScatterConcat(m, a[1..], b, d[c..], done);
      assert Scatter(mem, a + b, d) == Scatter(m, a[1..] + b, d[c..]) by {
        Reattach(a, b);
        ScatterCons(mem, a[0], a[1..] + b, d);
      }
      assert d[c..][n - c..] == d[n..];
    }
  }

  lemma ScatterCons(mem: seq<byte>, s: Segment, rest: seq<Segment>, d: seq<byte>)
    requires InMemory(rest, |mem|) && s.at + s.len <= |mem| && s.len <= |d|
    ensures InMemory([s] + rest, |mem|)
    ensures Scatter(mem, [s] + rest, d) == Scatter(Poke(mem, s.at, d[..s.len]), rest, d[s.len..])
  {
    var segs := [s] + rest;
    assert segs[0] == s && segs[1..] == rest;
  }

  lemma Slices(d: seq<byte>, c: nat, n: nat)
    requires c <= n <= |d|
    ensures d[..n][..c] == d[..c] && d[..n][c..] == d[c..][..n - c]
  {
  }

  lemma {:induction false} GatherConcat(mem: seq<byte>, a: seq<Segment>, b: seq<Segment>, len: nat,
                                         first: seq<byte>, rest: seq<byte>)
    requires InMemory(a, |mem|) && InMemory(b, |mem|) && Length(a) <= len
    requires first == Gather(mem, a, Length(a)) && rest == Gather(mem, b, len - Length(a))
    ensures InMemory(a + b, |mem|) && Gather(mem, a + b, len) == first + rest
    decreases |a|
  {
    if a == [] {
      assert a + b == b;
    } else {
      var p, g := Peek(mem, a[0].at, a[0].len), Gather(mem, a[1..], Length(a[1..]));
      assert Gather(mem, a + b, len) == p + (g + rest) by {
        GatherConcat(mem, a[1..], b, len - a[0].len, g, rest);
        Reattach(a, b);
        GatherCons(mem, a[0], a[1..] + b, len);
      }
      assert first == p + g;
      Assoc(p, g, rest);
    }
  }

  lemma Reattach(a: seq<Segment>, b: seq<Segment>)
    requires a != []
    ensures [a[0]] + (a[1..] + b) == a + b
  {
  }

  lemma GatherCons(mem: seq<byte>, s: Segment, rest: seq<Segment>, len: nat)
    requires InMemory(rest, |mem|) && s.at + s.len <= |mem| && s.len <= len
    ensures InMemory([s] + rest, |mem|) && Length([s] + rest) == s.len + Length(rest)
    ensures Gather(mem, [s] + rest, len) == Peek(mem, s.at, s.len) + Gather(mem, rest, len - s.len)
  {
    assert ([s] + rest)[1..] == rest;
  }

  lemma Assoc<T>(x: seq<T>, y: seq<T>, z: seq<T>)
    ensures x + (y + z) == (x + y) + z
  {
  }

  // What a copy loop that has moved `done` bytes through the first i segments has established.
  ghost predicate Copied(was: seq<byte>, mem: seq<byte>, segs: seq<Segment>, i: nat, buf: seq<byte>, done: nat,
                         toHost: bool, out: seq<byte>)
    requires InMemory(segs, |was|) && |mem| == |was| && i <= |segs| && done <= |buf|
  {
    && (if done < |buf| then done + Length(segs[i..]) == Length(segs) else Length(segs) >= |buf|)
    && if toHost then out == [] && Scatter(was, segs, buf) == Scatter(mem, segs[i..], buf[done..])
       else mem == was && Gather(was, segs, |buf|) == out + Gather(was, segs[i..], |buf| - done)
  }

  lemma CopyStart(mem: seq<byte>, segs: seq<Segment>, buf: seq<byte>, toHost: bool)
    requires InMemory(segs, |mem|)
    ensures Copied(mem, mem, segs, 0, buf, 0, toHost, [])
  {
    assert segs[0..] == segs && buf[0..] == buf;
  }

  lemma CopyOut(was: seq<byte>, mem: seq<byte>, segs: seq<Segment>, i: nat, buf: seq<byte>, done: nat, c: nat)
    requires InMemory(segs, |was|) && |mem| == |was| && i < |segs| && done < |buf|
    requires c == Min(segs[i].len, |buf| - done)
    requires Copied(was, mem, segs, i, buf, done, true, [])
    ensures Copied(was, Poke(mem, segs[i].at, buf[done..done + c]), segs, i + 1, buf, done + c, true, [])
  {
    LengthStep(segs, i);
    ScatterStep(mem, segs, i, buf, done, c);
  }

  lemma CopyIn(mem: seq<byte>, segs: seq<Segment>, i: nat, buf: seq<byte>, done: nat, out: seq<byte>, c: nat)
    requires InMemory(segs, |mem|) && i < |segs| && done < |buf|
    requires c == Min(segs[i].len, |buf| - done)
    requires Copied(mem, mem, segs, i, buf, done, false, out)
    ensures Copied(mem, mem, segs, i + 1, buf, done + c, false, out + Peek(mem, segs[i].at, c))
  {
    LengthStep(segs, i);
    var p, g := Peek(mem, segs[i].at, c), Gather(mem, segs[i + 1..], |buf| - done - c);
    assert Gather(mem, segs, |buf|) == out + (p + g) by {
      GatherStep(mem, segs, i, |buf| - done, c);
    }
    Assoc(out, p, g);
  }

  lemma LengthStep(segs: seq<Segment>, i: nat)
    requires i < |segs|
    ensures Length(segs[i..]) == segs[i].len + Length(segs[i + 1..])
  {
    assert segs[i..][1..] == segs[i + 1..];
  }

  lemma ScatterStep(mem: seq<byte>, segs: seq<Segment>, i: nat, d: seq<byte>, done: nat, c: nat)
    requires InMemory(segs, |mem|) && i < |segs| && done <= |d| && c == Min(segs[i].len, |d| - done)
    ensures Scatter(mem, segs[i..], d[done..])
         == Scatter(Poke(mem, segs[i].at, d[done..done + c]), segs[i + 1..], d[done + c..])
  {
    assert segs[i..][0] == segs[i] && segs[i..][1..] == segs[i + 1..];
    assert d[done..][..c] == d[done..done + c] && d[done..][c..] == d[done + c..];
  }

  lemma GatherStep(mem: seq<byte>, segs: seq<Segment>, i: nat, rest: nat, c: nat)
    requires InMemory(segs, |mem|) && i < |segs| && c == Min(segs[i].len, rest)
    ensures Gather(mem, segs[i..], rest) == Peek(mem, segs[i].at, c) + Gather(mem, segs[i + 1..], rest - c)
  {
    assert segs[i..][0] == segs[i] && segs[i..][1..] == segs[i + 1..];
  }

  lemma CopyEnd(was: seq<byte>, mem: seq<byte>, segs: seq<Segment>, i: nat, buf: seq<byte>, done: nat,
                toHost: bool, out: seq<byte>)
    requires InMemory(segs, |was|) && |mem| == |was| && i <= |segs| && done <= |buf|
    requires Copied(was, mem, segs, i, buf, done, toHost, out) && (i == |segs| || done == |buf|)
    ensures (done == |buf|) == (Length(segs) >= |buf|)
    ensures if toHost then out == [] && mem == Scatter(was, segs, buf)
            else mem == was && out == Gather(was, segs, |buf|)
  {
    if toHost {
      ScatterNothing(mem, segs[i..], buf[done..]);
    } else {
      assert Gather(was, segs[i..], |buf| - done) == [];
    }
  }

  // ---------------------------------------------------------------- contiguous transfers (queue entries)

  function GpaSegments(env: Env, t: nat, gpa: nat, len: nat, size: nat): (s: seq<Segment>)
    ensures InMemory(s, size)
    ensures s != [] ==> Length(s) == len
  {
    AddrToSgl(env, t, gpa, len, 8, size)
  }

  predicate GpaOk(env: Env, t: nat, gpa: nat, len: nat, size: nat) {
    len == 0 || (GpaSegments(env, t, gpa, len, size) != [] && env.pin(t))
  }

  function GpaRead(env: Env, t: nat, mem: seq<byte>, gpa: nat, len: nat): (r: Inbound)
    ensures r.ok == GpaOk(env, t, gpa, len, |mem|)
    ensures |r.data| == if r.ok then len else 0
  {
    if len == 0 then Inbound(true, [])
    else if GpaOk(env, t, gpa, len, |mem|) then
      Inbound(true, Gather(mem, GpaSegments(env, t, gpa, len, |mem|), len))
    else Inbound(false, [])
  }

  function GpaWrite(env: Env, t: nat, mem: seq<byte>, gpa: nat, d: seq<byte>): (r: seq<byte>)
    ensures |r| == |mem|
  {
    if d != [] && GpaOk(env, t, gpa, |d|, |mem|) then Scatter(mem, GpaSegments(env, t, gpa, |d|, |mem|), d) else mem
  }

  lemma GpaExact(env: Env, t: nat, mem: seq<byte>, gpa: nat, d: seq<byte>)
    requires d != [] && GpaOk(env, t, gpa, |d|, |mem|)
    ensures gpa + |d| <= |mem|
    ensures GpaRead(env, t, mem, gpa, |d|).data == Peek(mem, gpa, |d|)
    ensures GpaWrite(env, t, mem, gpa, d) == Poke(mem, gpa, d)
  {
    var cut := env.cut(t, gpa, |d|);
    ScatterExact(mem, gpa, cut, d);
    GatherExact(mem, gpa, cut, |d|);
  }

  // ---------------------------------------------------------------- PRP transfers (data buffers)

  // Bytes that fit between prp1 and the end of its page.
  function FirstPart(prp1: nat, len: nat): (n: nat)
    ensures n <= len && n <= PAGE_SIZE && (len > 0 ==> n > 0)
  {
    Min(len, PAGE_SIZE - prp1 % PAGE_SIZE)
  }

  function PrpSegments(env: Env, t: nat, prp1: nat, prp2: nat, len: nat, size: nat): (s: seq<Segment>)
    ensures InMemory(s, size)
    ensures |s| <= 16
    ensures s != [] ==> Length(s) == len
  {
    var first := FirstPart(prp1, len);
    var a := AddrToSgl(env, t, prp1, first, 16, size);
    var rest := len - first;
    if a == [] || rest == 0 then a
    else if rest > PAGE_SIZE then []
    else
      var b := AddrToSgl(env, t + 1, prp2, rest, 16 - |a|, size);
      LengthConcat(a, b);
      if b == [] then [] else a + b
  }

  lemma {:induction false} LengthConcat(a: seq<Segment>, b: seq<Segment>)
    ensures Length(a + b) == Length(a) + Length(b)
  {
    if a == [] {
      assert a + b == b;
    } else {
      LengthConcat(a[1..], b);
      assert (a + b)[1..] == a[1..] + b;
    }
  }

  predicate PrpOk(env: Env, t: nat, prp1: nat, prp2: nat, len: nat, size: nat) {
    len == 0 || (PrpSegments(env, t, prp1, prp2, len, size) != [] && env.pin(t))
  }

  function PrpRead(env: Env, t: nat, mem: seq<byte>, prp1: nat, prp2: nat, len: nat): (r: Inbound)
    ensures r.ok == PrpOk(env, t, prp1, prp2, len, |mem|)
    ensures |r.data| == if r.ok then len else 0
  {
    if len == 0 then Inbound(true, [])
    else if PrpOk(env, t, prp1, prp2, len, |mem|) then
      Inbound(true, Gather(mem, PrpSegments(env, t, prp1, prp2, len, |mem|), len))
    else Inbound(false, [])
  }

  function PrpWrite(env: Env, t: nat, mem: seq<byte>, prp1: nat, prp2: nat, d: seq<byte>): (r: seq<byte>)
    ensures |r| == |mem|
  {
    if d != [] && PrpOk(env, t, prp1, prp2, |d|, |mem|) then
      Scatter(mem, PrpSegments(env, t, prp1, prp2, |d|, |mem|), d)
    else mem
  }

  ghost predicate PrpFits(prp1: nat, prp2: nat, len: nat, size: nat) {
    var first := FirstPart(prp1, len);
    && len - first <= PAGE_SIZE
    && (len > 0 ==> prp1 + first <= size)
    && (len > first ==> prp2 + (len - first) <= size)
  }

  // The bytes of [prp1, prp1 + first) followed by those of [prp2, prp2 + rest).
  ghost function PrpPeek(mem: seq<byte>, prp1: nat, prp2: nat, len: nat): seq<byte>
    requires PrpFits(prp1, prp2, len, |mem|)
  {
    var first := FirstPart(prp1, len);
    (if len > 0 then Peek(mem, prp1, first) else []) + (if len > first then Peek(mem, prp2, len - first) else [])
  }

  ghost function PrpPoke(mem: seq<byte>, prp1: nat, prp2: nat, d: seq<byte>): (r: seq<byte>)
    requires PrpFits(prp1, prp2, |d|, |mem|)
    ensures |r| == |mem|
  {
    var first := FirstPart(prp1, |d|);
    var m := if d != [] then Poke(mem, prp1, d[..first]) else mem;
    if |d| > first then Poke(m, prp2, d[first..]) else m
  }

  // A transfer that succeeds fits in two pages and moves exactly [prp1, +first) and then [prp2, +rest).
  lemma PrpExact(env: Env, t: nat, mem: seq<byte>, prp1: nat, prp2: nat, d: seq<byte>)
    requires PrpOk(env, t, prp1, prp2, |d|, |mem|)
    ensures PrpFits(prp1, prp2, |d|, |mem|)
    ensures PrpRead(env, t, mem, prp1, prp2, |d|).data == PrpPeek(mem, prp1, prp2, |d|)
    ensures PrpWrite(env, t, mem, prp1, prp2, d) == PrpPoke(mem, prp1, prp2, d)
  {
    if d != [] {
      var a, b := PrpCut(env, t, prp1, prp2, |d|, |mem|);
      PrpGather(mem, prp1, prp2, a, b, |d|);
      PrpScatter(mem, prp1, prp2, a, b, d);
    }
  }

  lemma PrpCut(env: Env, t: nat, prp1: nat, prp2: nat, len: nat, size: nat) returns (a: seq<nat>, b: seq<nat>)
    requires len > 0 && PrpOk(env, t, prp1, prp2, len, size)
    ensures PrpFits(prp1, prp2, len, size)
    ensures Total(a) == FirstPart(prp1, len) && Total(b) == len - Total(a) && (b == [] || Total(b) > 0)
    ensures PrpSegments(env, t, prp1, prp2, len, size) == Segments(prp1, a) + Segments(prp2, b)
  {
    var first := FirstPart(prp1, len);
    a := env.cut(t, prp1, first);
    b := if first == len then [] else env.cut(t + 1, prp2, len - first);
    if first == len {
      assert Segments(prp1, a) + [] == Segments(prp1, a);
    }
  }

  lemma PrpGather(mem: seq<byte>, prp1: nat, prp2: nat, a: seq<nat>, b: seq<nat>, len: nat)
    requires len > 0 && PrpFits(prp1, prp2, len, |mem|)
    requires Total(a) == FirstPart(prp1, len) && Total(b) == len - Total(a) && (b == [] || Total(b) > 0)
    ensures InMemory(Segments(prp1, a) + Segments(prp2, b), |mem|)
    ensures Gather(mem, Segments(prp1, a) + Segments(prp2, b), len) == PrpPeek(mem, prp1, prp2, len)
  {
    SegmentsInRange(prp1, a, |mem|);
    PrpSecond(prp1, prp2, b, len, |mem|);
    var first, rest := Gather(mem, Segments(prp1, a), Total(a)), Gather(mem, Segments(prp2, b), Total(b));
    GatherConcat(mem, Segments(prp1, a), Segments(prp2, b), len, first, rest);
    GatherExact(mem, prp1, a, Total(a));
    if Total(b) > 0 {
      GatherExact(mem, prp2, b, Total(b));
    }
  }

  lemma PrpScatter(mem: seq<byte>, prp1: nat, prp2: nat, a: seq<nat>, b: seq<nat>, d: seq<byte>)
    requires d != [] && PrpFits(prp1, prp2, |d|, |mem|)
    requires Total(a) == FirstPart(prp1, |d|) && Total(b) == |d| - Total(a) && (b == [] || Total(b) > 0)
    ensures InMemory(Segments(prp1, a) + Segments(prp2, b), |mem|)
    ensures Scatter(mem, Segments(prp1, a) + Segments(prp2, b), d) == PrpPoke(mem, prp1, prp2, d)
  {
    var first := Total(a);
    var m := Poke(mem, prp1, d[..first]);
    SegmentsInRange(prp1, a, |mem|);
    PrpSecond(prp1, prp2, b, |d|, |mem|);
    ScatterExact(mem, prp1, a, d[..first]);
    ScatterConcat(mem, Segments(prp1, a), Segments(prp2, b), d, m);
    if Total(b) > 0 {
      ScatterExact(m, prp2, b, d[first..]);
    } else {
      ScatterNothing(m, Segments(prp2, b), d[first..]);
    }
  }

  // The second range lies in memory, or there is none.
  lemma PrpSecond(prp1: nat, prp2: nat, b: seq<nat>, len: nat, size: nat)
    requires PrpFits(prp1, prp2, len, size)
    requires b == [] || Total(b) == len - FirstPart(prp1, len) > 0
    ensures InMemory(Segments(prp2, b), size)
    ensures Length(Segments(prp2, b)) == Total(b)
  {
    if b != [] {
      SegmentsInRange(prp2, b, size);
    }
  }

  // An address that a PRP transfer of at most len bytes may touch.
  predicate InBuffer(x: int, prp1: nat, prp2: nat, len: nat) {
    InRange(x, prp1, FirstPart(prp1, len)) || InRange(x, prp2, len - FirstPart(prp1, len))
  }

  lemma PrpFrame(env: Env, t: nat, mem: seq<byte>, prp1: nat, prp2: nat, d: seq<byte>, x: nat)
    requires x < |mem| && !InBuffer(x, prp1, prp2, |d|)
    ensures PrpWrite(env, t, mem, prp1, prp2, d)[x] == mem[x]
  {
    if PrpOk(env, t, prp1, prp2, |d|, |mem|) {
      PrpExact(env, t, mem, prp1, prp2, d);
    }
  }

  // A read sees only its own buffer.
  lemma PrpReadLocal(env: Env, t: nat, m: seq<byte>, m': seq<byte>, prp1: nat, prp2: nat, len: nat)
    requires |m| == |m'|
    requires forall x :: 0 <= x < |m| && InBuffer(x, prp1, prp2, len) ==> m[x] == m'[x]
    ensures PrpRead(env, t, m, prp1, prp2, len) == PrpRead(env, t, m', prp1, prp2, len)
  {
    if PrpOk(env, t, prp1, prp2, len, |m|) {
      PrpExact(env, t, m, prp1, prp2, Zeros(len));
      PrpExact(env, t, m', prp1, prp2, Zeros(len));
      PeekLocal(m, m', prp1, prp2, len);
    }
  }

  lemma PeekLocal(m: seq<byte>, m': seq<byte>, prp1: nat, prp2: nat, len: nat)
    requires |m| == |m'| && PrpFits(prp1, prp2, len, |m|)
    requires forall x :: 0 <= x < |m| && InBuffer(x, prp1, prp2, len) ==> m[x] == m'[x]
    ensures PrpPeek(m, prp1, prp2, len) == PrpPeek(m', prp1, prp2, len)
  {
    var p, q := PrpPeek(m, prp1, prp2, len), PrpPeek(m', prp1, prp2, len);
    var first := FirstPart(prp1, len);
    forall i | 0 <= i < len ensures p[i] == q[i] {
      assert InBuffer(if i < first then prp1 + i else prp2 + (i - first), prp1, prp2, len);
    }
  }

  // What is written through a pair of PRPs whose pages do not overlap is what is read back through it.
  lemma PrpRoundTrip(env: Env, t: nat, u: nat, mem: seq<byte>, prp1: nat, prp2: nat, d: seq<byte>)
    requires PrpOk(env, t, prp1, prp2, |d|, |mem|) && PrpOk(env, u, prp1, prp2, |d|, |mem|)
    requires forall x :: !(InRange(x, prp1, FirstPart(prp1, |d|)) && InRange(x, prp2, |d| - FirstPart(prp1, |d|)))
    ensures PrpRead(env, u, PrpWrite(env, t, mem, prp1, prp2, d), prp1, prp2, |d|) == Inbound(true, d)
  {
    PrpExact(env, t, mem, prp1, prp2, d);
    PrpExact(env, u, PrpWrite(env, t, mem, prp1, prp2, d), prp1, prp2, d);
    PeekPoke(mem, prp1, prp2, d);
  }

  lemma PeekPoke(mem: seq<byte>, prp1: nat, prp2: nat, d: seq<byte>)
    requires PrpFits(prp1, prp2, |d|, |mem|)
    requires forall x :: !(InRange(x, prp1, FirstPart(prp1, |d|)) && InRange(x, prp2, |d| - FirstPart(prp1, |d|)))
    ensures PrpPeek(PrpPoke(mem, prp1, prp2, d), prp1, prp2, |d|) == d
  {
    var w := PrpPoke(mem, prp1, prp2, d);
    var p := PrpPeek(w, prp1, prp2, |d|);
    var first := FirstPart(prp1, |d|);
    forall i | 0 <= i < |d| ensures p[i] == d[i] {
      if i < first {
        assert InRange(prp1 + i, prp1, first);
        assert p[i] == w[prp1 + i];
      } else {
        assert p[i] == w[prp2 + (i - first)];
      }
    }
  }

  // The unsupported branch is reached exactly by transfers that need a third page; never with one page of data.
  lemma PrpLimit(env: Env, t: nat, prp1: nat, prp2: nat, len: nat, size: nat)
    ensures len - FirstPart(prp1, len) > PAGE_SIZE <==> prp1 % PAGE_SIZE + len > 2 * PAGE_SIZE
    ensures len <= PAGE_SIZE ==> len - FirstPart(prp1, len) <= PAGE_SIZE
    ensures prp1 % PAGE_SIZE + len > 2 * PAGE_SIZE ==> !PrpOk(env, t, prp1, prp2, len, size)
  {
  }

  // ---------------------------------------------------------------- when a transfer succeeds

  // The translation service answers a range with 1 to maxSg segments that make up its length, inside memory.
  ghost predicate Answers(cut: seq<nat>, gpa: nat, len: nat, maxSg: nat, size: nat) {
    1 <= |cut| <= maxSg && Total(cut) == len && gpa + len <= size
  }

  // A contiguous transfer succeeds exactly when its range is answered in at most 8 segments and they are pinned.
  lemma GpaSucceeds(env: Env, t: nat, gpa: nat, len: nat, size: nat)
    ensures GpaOk(env, t, gpa, len, size)
      <==> len == 0 || (env.pin(t) && Answers(env.cut(t, gpa, len), gpa, len, 8, size))
  {
  }

  // A PRP transfer succeeds exactly when what follows the first page fits in a page, both ranges are answered, in at
  // most 16 segments together, and they are pinned.
  lemma PrpSucceeds(env: Env, t: nat, prp1: nat, prp2: nat, len: nat, size: nat, first: nat, rest: nat)
    requires first == if len < 4096 - prp1 % 4096 then len else 4096 - prp1 % 4096
    requires rest == len - first
    ensures PrpOk(env, t, prp1, prp2, len, size)
      <==> || len == 0
           || (&& env.pin(t) && Answers(env.cut(t, prp1, first), prp1, first, 16, size) && rest <= 4096
               && (rest == 0 || Answers(env.cut(t + 1, prp2, rest), prp2, rest, 16 - |env.cut(t, prp1, first)|, size)))
  {
  }

  // A service that answers every range in memory in at most 8 segments, and always pins.
  ghost predicate Translates(env: Env, size: nat) {
    && (forall t: nat :: env.pin(t))
    && forall t: nat, gpa: nat, n: nat :: 0 < n && gpa + n <= size ==> Answers(env.cut(t, gpa, n), gpa, n, 8, size)
  }

  // With such a service, exactly the transfers inside memory, of at most two pages, succeed.
  lemma TranslatesAll(env: Env, t: nat, prp1: nat, prp2: nat, len: nat, size: nat)
    requires Translates(env, size)
    ensures GpaOk(env, t, prp1, len, size) <==> len == 0 || prp1 + len <= size
    ensures PrpOk(env, t, prp1, prp2, len, size) <==> PrpFits(prp1, prp2, len, size)
  {
    GpaSucceeds(env, t, prp1, len, size);
    PrpSucceeds(env, t, prp1, prp2, len, size, FirstPart(prp1, len), len - FirstPart(prp1, len));
  }

  // ---------------------------------------------------------------- the bus object

  /** The vfio-user context: guest memory and the tick of the environment. */
  class Bus {
    const env: Env
    var mem: seq<byte>
    var now: nat

    constructor (env: Env, mem: seq<byte>)
      ensures this.env == env && this.mem == mem && now == 0
    {
      this.env := env;
      this.mem := mem;
      now := 0;
    }

    // Copy between a local buffer and mapped segments; -1 (false) when the segments are short.
    method SglCopy(segs: seq<Segment>, t: nat, buf: seq<byte>, len: nat, toHost: bool)
      returns (ok: bool, out: seq<byte>)
      requires InMemory(segs, |mem|) && |buf| == len
      modifies this`mem
      ensures ok == (1 <= |segs| <= 16 && env.pin(t) && Length(segs) >= len)
      ensures mem == if toHost && 1 <= |segs| <= 16 && env.pin(t) then Scatter(old(mem), segs, buf) else old(mem)
      ensures out == if !toHost && 1 <= |segs| <= 16 && env.pin(t) then Gather(old(mem), segs, len) else []
    {
      out := [];
      if |segs| == 0 || |segs| > 16 || !env.pin(t) {
        return false, [];
      }
      ghost var was := mem;
      var done, i := 0, 0;
      CopyStart(mem, segs, buf, toHost);
      while i < |segs| && done < len
        invariant 0 <= i <= |segs| && 0 <= done <= len
        invariant |mem| == |was|
        invariant Copied(was, mem, segs, i, buf, done, toHost, out)
        decreases |segs| - i
      {
        var c := segs[i].len;
        if done + c > len {
          c := len - done;
        }
        if toHost {
          CopyOut(was, mem, segs, i, buf, done, c);
          mem := Poke(mem, segs[i].at, buf[done..done + c]);
        } else {
          CopyIn(mem, segs, i, buf, done, out, c);
          out := out + Peek(mem, segs[i].at, c);
        }
        done := done + c;
        i := i + 1;
      }
      CopyEnd(was, mem, segs, i, buf, done, toHost, out);
      return done == len, out;
    }

    // A contiguous guest range, such as a queue entry.
    method GpaXfer(t: nat, gpa: nat, buf: seq<byte>, len: nat, toHost: bool) returns (ok: bool, out: seq<byte>)
      requires |buf| == len
      modifies this`mem
      ensures ok == GpaOk(env, t, gpa, len, |old(mem)|)
      ensures mem == if toHost then GpaWrite(env, t, old(mem), gpa, buf) else old(mem)
      ensures out == if toHost then [] else GpaRead(env, t, old(mem), gpa, len).data
    {
      if len == 0 {
        return true, [];
      }
      var segs := AddrToSgl(env, t, gpa, len, 8, |mem|);
      if |segs| == 0 {
        return false, [];
      }
      ok, out := SglCopy(segs, t, buf, len, toHost);
    }

    // A data buffer described by two PRP entries.
    method PrpXfer(t: nat, prp1: nat, prp2: nat, buf: seq<byte>, len: nat, toHost: bool)
      returns (ok: bool, out: seq<byte>)
      requires |buf| == len
      modifies this`mem
      ensures ok == PrpOk(env, t, prp1, prp2, len, |old(mem)|)
      ensures mem == if toHost then PrpWrite(env, t, old(mem), prp1, prp2, buf) else old(mem)
      ensures out == if toHost then [] else PrpRead(env, t, old(mem), prp1, prp2, len).data
    {
      if len == 0 {
        return true, [];
      }
      var off := prp1 % PAGE_SIZE;
      var first := Min(len, PAGE_SIZE - off);
      ghost var goal := PrpSegments(env, t, prp1, prp2, len, |mem|);
      var sgl := AddrToSgl(env, t, prp1, first, 16, |mem|);
      if |sgl| == 0 {
        assert goal == [];
        return false, [];
      }
      var remaining := len - first;
      if remaining > 0 {
        if remaining > PAGE_SIZE {
          assert goal == [];
          return false, [];
        }
        var more := AddrToSgl(env, t + 1, prp2, remaining, 16 - |sgl|, |mem|);
        if |more| == 0 {
          assert goal == [];
          return false, [];
        }
        sgl := sgl + more;
      }
      assert sgl == goal && sgl != [] && Length(goal) == len;
      ok, out := SglCopy(sgl, t, buf, len, toHost);
      assert ok == env.pin(t);
    }
  }

  lemma {:induction false} ScatterNothing(mem: seq<byte>, segs: seq<Segment>, d: seq<byte>)
    requires InMemory(segs, |mem|) && (d == [] || segs == [])
    ensures Scatter(mem, segs, d) == mem
  {
    if segs != [] {
      assert Poke(mem, segs[0].at, []) == mem;
      assert d[..0] == [] && d[0..] == d;
      ScatterNothing(mem, segs[1..], d);
    }
  }
}
