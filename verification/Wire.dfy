/** The bytes on the wire, as a host writes and reads them: every field is where the specification has it. */
module Wire {
  import opened Bytes
  import opened NvmeSpec

  // ---------------------------------------------------------------- numbers

  // Digit i of v, from the low end.
  lemma {:induction false} DigitAt(n: nat, v: nat, i: nat)
    requires i < n
    ensures WrLe(n, v)[i] == v / Pow256(i) % 256
  {
    if i > 0 {
      DigitAt(n - 1, v / 256, i - 1);
      DivTwice(v, 256, Pow256(i - 1));
    }
  }

  lemma DivTwice(v: nat, a: nat, b: nat)
    requires a > 0 && b > 0
    ensures a * b > 0 && v / a / b == v / (a * b)
  {
    var x, s := v / a, v % a;
    var q, r := x / b, x % b;
    TwoSteps(v, a, b, x, s, q, r);
    DivModUnique(v, a * b, q, a * r + s);
  }

  lemma TwoSteps(v: nat, a: nat, b: nat, x: nat, s: nat, q: nat, r: nat)
    requires s < a && r < b && v == a * x + s && x == b * q + r
    ensures v == (a * b) * q + (a * r + s) && 0 <= a * r + s < a * b
  {
    Distribute(a, r, b, q);
    MulBound(a, r, b);
  }

  lemma MulBound(a: nat, r: nat, b: nat)
    requires r < b
    ensures a * r + a <= a * b && 0 <= a * r
  {
    assert a * (r + 1) <= a * b;
    assert a * (r + 1) == a * r + a;
  }

  lemma Number(n: nat, v: nat)
    requires (n == 2 && v < 0x1_0000) || (n == 4 && v < TWO32) || (n == 8 && v < TWO64)
    ensures RdLe(WrLe(n, v)) == v
  {
    Pow256Widths();
    LeExact(n, v);
  }

  lemma TwoHalves(a: seq<byte>, b: seq<byte>)
    requires |a| == |b| == 2
    ensures RdLe(a + b) % 0x1_0000 == RdLe(a) && RdLe(a + b) / 0x1_0000 == RdLe(b)
  {
    Pow256Widths();
    ReadConcat(a, b);
    DivModUnique(RdLe(a + b), 0x1_0000, RdLe(b), RdLe(a));
  }

  lemma LowTwelve(v: nat)
    ensures v % 0x1_0000 % 4096 == v % 4096
  {
    assert v == 4096 * (16 * (v / 0x1_0000) + v % 0x1_0000 / 4096) + v % 0x1_0000 % 4096;
    DivModUnique(v, 4096, 16 * (v / 0x1_0000) + v % 0x1_0000 / 4096, v % 0x1_0000 % 4096);
  }

  lemma Prepend(n: nat, d: byte, w: nat)
    ensures WrLe(n + 1, d + 256 * w) == [d] + WrLe(n, w)
  {
    DivModUnique(d + 256 * w, 256, w, d);
  }

  lemma SmallMods(v: u16)
    ensures v % TWO32 == v && v % TWO16 == v && v % TWO32 % TWO16 == v
  {
  }

  // The halves and the outer bytes of a dword.
  lemma WordParts(b: seq<byte>)
    requires |b| == 4
    ensures RdLe(b) % 0x1_0000 == RdLe(b[..2]) && RdLe(b) / 0x1_0000 == RdLe(b[2..])
    ensures RdLe(b) % 0x100 == b[0] && RdLe(b) / 0x100_0000 == b[3]
  {
    TwoHalves(b[..2], b[2..]);
    assert b[..2] + b[2..] == b;
    FirstByte(b);
    LastByte(b);
  }

  lemma FirstByte(b: seq<byte>)
    requires b != []
    ensures RdLe(b) % 0x100 == b[0]
  {
    DivModUnique(RdLe(b), 0x100, RdLe(b[1..]), b[0]);
  }

  lemma LastByte(b: seq<byte>)
    requires |b| == 4
    ensures RdLe(b) / 0x100_0000 == b[3]
  {
    var a, d := b[..3], b[3..];
    assert b == a + d && d[1..] == [];
    ReadConcat(a, d);
    ThreeBytes();
    assert RdLe(d) == b[3];
    DivModUnique(RdLe(b), 0x100_0000, b[3], RdLe(a));
  }

  lemma ThreeBytes()
    ensures Pow256(3) == 0x100_0000
  {
    Pow256Widths();
    assert Pow256(3) == 256 * Pow256(2);
  }

  // The bytes of the CAP and VS values: 1024 entries at most, contiguous queues, 7.5 seconds to get ready, the NVM and
  // the other I/O command sets; version 2.0.0.
  lemma CapDigits()
    ensures WrLe(8, 0x0000_0820_0f01_03ff) == [0xff, 0x03, 0x01, 0x0f, 0x20, 0x08, 0x00, 0x00]
  {
    MiddleDigits();
    Prepend(6, 0x03, 0x0820_0f01);
    Prepend(7, 0xff, 0x0008_200f_0103);
  }

  lemma MiddleDigits()
    ensures WrLe(6, 0x0820_0f01) == [0x01, 0x0f, 0x20, 0x08, 0x00, 0x00]
  {
    HighDigits();
    Prepend(4, 0x0f, 0x0820);
    Prepend(5, 0x01, 0x0008_200f);
  }

  lemma HighDigits()
    ensures WrLe(4, 0x0820) == [0x20, 0x08, 0x00, 0x00]
  {
    Prepend(0, 0, 0);
    Prepend(1, 0, 0);
    Prepend(2, 0x08, 0);
    Prepend(3, 0x20, 0x08);
  }

  lemma VsDigits()
    ensures WrLe(4, 0x0002_0000) == [0x00, 0x00, 0x02, 0x00]
  {
    Prepend(0, 0, 0);
    Prepend(1, 0x02, 0);
    Prepend(2, 0x00, 0x02);
    Prepend(3, 0x00, 0x0200);
  }

  // ---------------------------------------------------------------- submission entries

  // A 64-byte entry, field by field: opcode, flags, command identifier, namespace, two dwords, metadata pointer, the
  // two PRP entries, and command dwords 10 to 15.
  function EncodeSqe(opcode: byte, flags: byte, cid: u16, nsid: u32, cdw2: u32, cdw3: u32, mptr: u64, prp1: u64,
                     prp2: u64, cdw10: u32, cdw11: u32, rest: seq<byte>): Sqe
    requires |rest| == 16
  {
    [opcode, flags] + WrLe(2, cid) + WrLe(4, nsid) + WrLe(4, cdw2) + WrLe(4, cdw3) + WrLe(8, mptr)
    + WrLe(8, prp1) + WrLe(8, prp2) + WrLe(4, cdw10) + WrLe(4, cdw11) + rest
  }

  // A key-value command: the first half of the key where dwords 2 and 3 are, the buffer size in dword 10, the key
  // length and the options in dword 11, and the second half of the key in the last two dwords.
  function EncodeKv(opcode: byte, flags: byte, cid: u16, nsid: u32, key: seq<byte>, mptr: u64, prp1: u64, prp2: u64,
                    hbs: u32, kl: byte, ro: byte, reserved: u16, cdw12: u32, cdw13: u32, keyHi: seq<byte>): Sqe
    requires |key| == 8 && |keyHi| == 8
  {
    [opcode, flags] + WrLe(2, cid) + WrLe(4, nsid) + key + WrLe(8, mptr) + WrLe(8, prp1) + WrLe(8, prp2)
    + WrLe(4, hbs) + [kl, ro] + WrLe(2, reserved) + WrLe(4, cdw12) + WrLe(4, cdw13) + keyHi
  }

  // The pieces of a concatenation are its slices.
  lemma SqeSlices(a: seq<byte>, cid: seq<byte>, ns: seq<byte>, two: seq<byte>, m: seq<byte>, p1: seq<byte>,
                  p2: seq<byte>, ten: seq<byte>, eleven: seq<byte>, rest: seq<byte>)
    requires |a| == |cid| == 2 && |ns| == |ten| == |eleven| == 4 && |two| == |m| == |p1| == |p2| == 8 && |rest| == 16
    ensures var s := a + cid + ns + two + m + p1 + p2 + ten + eleven + rest;
            && |s| == 64 && s[0] == a[0] && s[2..4] == cid && s[4..8] == ns && s[8..16] == two && s[24..32] == p1
            && s[32..40] == p2 && s[40..44] == ten && s[44..48] == eleven && s[48..64] == rest
  {
  }

  // The device reads every field of a generic entry that it uses as the host wrote it.
  lemma SqeRoundTrip(opcode: byte, flags: byte, cid: u16, nsid: u32, cdw2: u32, cdw3: u32, mptr: u64, prp1: u64,
                     prp2: u64, cdw10: u32, cdw11: u32, rest: seq<byte>)
    requires |rest| == 16
    ensures var e := EncodeSqe(opcode, flags, cid, nsid, cdw2, cdw3, mptr, prp1, prp2, cdw10, cdw11, rest);
            && e[0] == opcode && Cid(e) == cid && Prp1(e) == prp1 && Prp2(e) == prp2
            && Cdw10(e) == cdw10 && Cdw11(e) == cdw11
  {
    var two := WrLe(4, cdw2) + WrLe(4, cdw3);
    var e := [opcode, flags] + WrLe(2, cid) + WrLe(4, nsid) + two + WrLe(8, mptr) + WrLe(8, prp1) + WrLe(8, prp2)
             + WrLe(4, cdw10) + WrLe(4, cdw11) + rest;
    assert e == EncodeSqe(opcode, flags, cid, nsid, cdw2, cdw3, mptr, prp1, prp2, cdw10, cdw11, rest);
    SqeSlices([opcode, flags], WrLe(2, cid), WrLe(4, nsid), two, WrLe(8, mptr), WrLe(8, prp1), WrLe(8, prp2),
              WrLe(4, cdw10), WrLe(4, cdw11), rest);
    Pow256Widths();
    LeExact(2, cid);
    LeExact(8, prp1);
    LeExact(8, prp2);
    LeExact(4, cdw10);
    LeExact(4, cdw11);
  }

  // The device reads every field of a key-value command that it uses as the host wrote it.
  lemma KvRoundTrip(opcode: byte, flags: byte, cid: u16, nsid: u32, key: seq<byte>, mptr: u64, prp1: u64, prp2: u64,
                    hbs: u32, kl: byte, ro: byte, reserved: u16, cdw12: u32, cdw13: u32, keyHi: seq<byte>)
    requires |key| == 8 && |keyHi| == 8
    ensures var e := EncodeKv(opcode, flags, cid, nsid, key, mptr, prp1, prp2, hbs, kl, ro, reserved, cdw12, cdw13,
                              keyHi);
            && Cid(e) == cid && Prp1(e) == prp1 && Prp2(e) == prp2
            && KvOf(e) == KvCmd(opcode, prp1, prp2, hbs, kl, ro, key, keyHi)
  {
    var eleven, rest := [kl, ro] + WrLe(2, reserved), WrLe(4, cdw12) + WrLe(4, cdw13) + keyHi;
    var e := [opcode, flags] + WrLe(2, cid) + WrLe(4, nsid) + key + WrLe(8, mptr) + WrLe(8, prp1) + WrLe(8, prp2)
             + WrLe(4, hbs) + eleven + rest;
    assert e == EncodeKv(opcode, flags, cid, nsid, key, mptr, prp1, prp2, hbs, kl, ro, reserved, cdw12, cdw13, keyHi);
    SqeSlices([opcode, flags], WrLe(2, cid), WrLe(4, nsid), key, WrLe(8, mptr), WrLe(8, prp1), WrLe(8, prp2),
              WrLe(4, hbs), eleven, rest);
    assert e[44] == e[44..48][0] && e[45] == e[44..48][1] && e[56..64] == e[48..64][8..];
    assert rest[8..] == keyHi;
    Pow256Widths();
    LeExact(2, cid);
    LeExact(8, prp1);
    LeExact(8, prp2);
    LeExact(4, hbs);
  }

  // A key of at most 16 bytes, written over the two halves, is the key the device sees.
  lemma KeyRoundTrip(k: seq<byte>, pad: seq<byte>, cmd: KvCmd)
    requires |k| + |pad| == 16 && cmd.kl == |k| && cmd.lo == (k + pad)[..8] && cmd.hi == (k + pad)[8..]
    ensures cmd.Valid() && !cmd.KeyTooLong() && cmd.Key() == k
  {
    assert (cmd.lo + cmd.hi)[..|k|] == k;
  }

  // ---------------------------------------------------------------- completion entries

  // Where a host finds the fields of a completion entry.
  lemma CqeLayout(cdw0: u32, sqHead: u16, sqid: u16, cid: u16, status: u16, phase: nat)
    requires status < 0x8000 && phase <= 1
    ensures var c := MakeCqe(cdw0, sqHead, sqid, cid, status, phase);
            && RdLe(c[0..4]) == cdw0 && c[4..8] == [0, 0, 0, 0] && RdLe(c[8..10]) == sqHead && RdLe(c[10..12]) == sqid
            && RdLe(c[12..14]) == cid && RdLe(c[14..16]) == 2 * status + phase
  {
    CqeRoundTrip(cdw0, sqHead, sqid, cid, status, phase);
    var c := MakeCqe(cdw0, sqHead, sqid, cid, status, phase);
    assert c[0..4] == c[..4];
    assert c[4..8] == Zeros(4);
  }

  // How the host's views of a completion entry read its bytes.
  lemma CqeViews(c: Cqe)
    ensures CqeCdw0(c) == RdLe(c[0..4]) && CqeSqHead(c) == RdLe(c[8..10]) && CqeSqId(c) == RdLe(c[10..12])
    ensures CqeCid(c) == RdLe(c[12..14]) && 2 * CqeStatus(c) + CqePhase(c) == RdLe(c[14..16])
  {
    assert c[0..4] == c[..4];
  }
}
