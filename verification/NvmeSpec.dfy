/** Constants and entry layouts shared by the key-value handlers and the controller. */
module NvmeSpec {
  import opened Bytes

  const PAGE_SIZE := 4096
  const SQE_SIZE := 64
  const CQE_SIZE := 16

  // Key-value limits and the footprint charged for each key.
  const MAX_KEY := 16
  const MAX_VAL := 4096
  const FOOTPRINT := 4112
  const INT_MAX := 0x7fff_ffff

  // Key-value opcodes.
  const KV_STORE := 0x01
  const KV_RETRIEVE := 0x02
  const KV_LIST := 0x06
  const KV_DELETE := 0x10
  const KV_EXIST := 0x14

  // Status codes: (status code type << 8) | status code.
  const SUCCESS: u16 := 0x0000
  const INVALID_OPCODE: u16 := 0x0001
  const INVALID_FIELD: u16 := 0x0002
  const INVALID_QID: u16 := 0x0101
  const CAP_EXCEEDED: u16 := 0x0181
  const INVALID_VAL_SIZE: u16 := 0x0185
  const INVALID_KEY_SIZE: u16 := 0x0186
  const KEY_NOT_EXISTS: u16 := 0x0187
  const KEY_EXISTS: u16 := 0x0189
  const DNR := 0x4000
  const NO_COMPLETE: u16 := 0xffff

  datatype Option<+T> = None | Some(value: T)

  type Sqe = s: seq<byte> | |s| == SQE_SIZE witness Zeros(SQE_SIZE)
  type Cqe = s: seq<byte> | |s| == CQE_SIZE witness Zeros(CQE_SIZE)

  // A submission queue entry read as a key-value command.
  datatype KvCmd = KvCmd(opcode: byte, prp1: nat, prp2: nat, hbs: u32, kl: byte, ro: byte,
                         lo: seq<byte>, hi: seq<byte>)
  {
    ghost predicate Valid() { |lo| == 8 && |hi| == 8 }

    // The key a command names: kl bytes, the first eight from `key` and the rest from `key_hi`.
    function Key(): (k: seq<byte>)
      requires |lo| == 8 && |hi| == 8
      ensures |k| == Min(kl, MAX_KEY)
    {
      (lo + hi)[..Min(kl, MAX_KEY)]
    }

    predicate KeyTooLong() { kl > MAX_KEY }
    predicate OnlyIfPresent() { ro % 2 == 1 }
    predicate OnlyIfAbsent() { ro / 2 % 2 == 1 }
  }

  function Field(e: Sqe, at: nat, n: nat): (v: nat)
    requires at + n <= SQE_SIZE
    ensures v < Pow256(n)
  {
    RdLe(e[at..at + n])
  }

  function Cid(e: Sqe): u16 { Pow256Widths(); Field(e, 2, 2) }
  function Prp1(e: Sqe): u64 { Pow256Widths(); Field(e, 24, 8) }
  function Prp2(e: Sqe): u64 { Pow256Widths(); Field(e, 32, 8) }
  function Cdw10(e: Sqe): u32 { Pow256Widths(); Field(e, 40, 4) }
  function Cdw11(e: Sqe): u32 { Pow256Widths(); Field(e, 44, 4) }

  function KvOf(e: Sqe): (c: KvCmd)
    ensures c.Valid()
  {
    KvCmd(e[0], Prp1(e), Prp2(e), Cdw10(e), e[44], e[45], e[8..16], e[56..64])
  }

  // The status code shifted over the phase tag, in 16 bits.
  function StatusWord(status: u16, phase: nat): (w: u16)
    ensures w / 2 == status % 0x8000 && w % 2 == phase % 2
  {
    (status * 2) % TWO16 + phase % 2
  }

  // A 16-byte completion entry; the phase tag is bit 0 of the status word.
  function MakeCqe(cdw0: u32, sqHead: u16, sqid: u16, cid: u16, status: u16, phase: nat): Cqe {
    WrLe(4, cdw0) + Zeros(4) + WrLe(2, sqHead) + WrLe(2, sqid) + WrLe(2, cid)
    + WrLe(2, StatusWord(status, phase))
  }

  function CqeCdw0(c: Cqe): nat { RdLe(c[..4]) }
  function CqeSqHead(c: Cqe): nat { RdLe(c[8..10]) }
  function CqeSqId(c: Cqe): nat { RdLe(c[10..12]) }
  function CqeCid(c: Cqe): nat { RdLe(c[12..14]) }
  function CqeStatus(c: Cqe): nat { RdLe(c[14..16]) / 2 }
  function CqePhase(c: Cqe): nat { RdLe(c[14..16]) % 2 }

  // The host reads back every field the controller put in; a status below 0x8000 survives the shift.
  lemma CqeRoundTrip(cdw0: u32, sqHead: u16, sqid: u16, cid: u16, status: u16, phase: nat)
    ensures var c := MakeCqe(cdw0, sqHead, sqid, cid, status, phase);
            && CqeCdw0(c) == cdw0
            && CqeSqHead(c) == sqHead && CqeSqId(c) == sqid && CqeCid(c) == cid
            && CqeStatus(c) == status % 0x8000 && CqePhase(c) == phase % 2
  {
    var c := MakeCqe(cdw0, sqHead, sqid, cid, status, phase);
    CqeParts(WrLe(4, cdw0), Zeros(4), WrLe(2, sqHead), WrLe(2, sqid), WrLe(2, cid),
             WrLe(2, StatusWord(status, phase)));
    Pow256Widths();
    assert CqeCdw0(c) == cdw0 by { LeExact(4, cdw0); }
    assert CqeSqHead(c) == sqHead by { LeExact(2, sqHead); }
    assert CqeSqId(c) == sqid by { LeExact(2, sqid); }
    assert CqeCid(c) == cid by { LeExact(2, cid); }
    assert RdLe(c[14..16]) == StatusWord(status, phase) by { LeExact(2, StatusWord(status, phase)); }
  }

  lemma LeExact(n: nat, v: nat)
    requires v < Pow256(n)
    ensures RdLe(WrLe(n, v)) == v
  {
    WriteThenRead(n, v);
  }

  lemma CqeParts(a: seq<byte>, z: seq<byte>, b: seq<byte>, c: seq<byte>, d: seq<byte>, e: seq<byte>)
    requires |a| == |z| == 4 && |b| == |c| == |d| == |e| == 2
    ensures var s := a + z + b + c + d + e;
            s[..4] == a && s[8..10] == b && s[10..12] == c && s[12..14] == d && s[14..16] == e
  {
  }
}
