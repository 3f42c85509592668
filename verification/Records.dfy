/** The records the kernel puts into a perf ring, their byte layout, and what the
    sampling plugin makes of them. */
module Records {

  newtype byte = x: int | 0 <= x < 256

  /** One record as it lies in memory, header included. */
  type Record = seq<byte>

  const HEADER_SIZE: nat := 8
  const SAMPLE_SIZE: nat := 32

  const PERF_RECORD_MMAP: nat := 1
  const PERF_RECORD_THROTTLE: nat := 5
  const PERF_RECORD_UNTHROTTLE: nat := 6
  const PERF_RECORD_SAMPLE: nat := 9

  /** Little-endian value of a byte string. */
  function LittleEndian(s: seq<byte>): nat
  {
    if s == [] then 0 else s[0] as nat + 256 * LittleEndian(s[1..])
  }

  lemma {:induction false} LittleEndianZero(s: seq<byte>)
    requires forall i :: 0 <= i < |s| ==> s[i] == 0
    ensures LittleEndian(s) == 0
    decreases |s|
  {
    if s != [] {
      LittleEndianZero(s[1..]);
    }
  }

  /** perf_event_header.size: the two bytes at offset 6. */
  function HeaderSize(header: seq<byte>): (size: nat)
    requires |header| >= HEADER_SIZE
    ensures size < 0x1_0000
  {
    header[6] as nat + 256 * header[7] as nat
  }

  /** perf_event_header.type: the four bytes at offset 0. */
  function HeaderType(r: Record): nat
    requires |r| >= HEADER_SIZE
  {
    LittleEndian(r[0..4])
  }

  /** What perf_event_open(2), section "MMAP layout", promises of every record:
      a non-zero multiple of eight bytes whose header tells its length, and a sample
      that carries the three words requested (ip, addr, data_src). */
  predicate WellFormed(r: Record)
  {
    && |r| >= HEADER_SIZE
    && |r| % 8 == 0
    && HeaderSize(r) == |r|
    && (HeaderType(r) == PERF_RECORD_SAMPLE ==> |r| >= SAMPLE_SIZE)
  }

  predicate AllWellFormed(c: seq<Record>)
  {
    forall i :: 0 <= i < |c| ==> WellFormed(c[i])
  }

  function SampleIp(r: Record): nat
    requires |r| >= SAMPLE_SIZE
  {
    LittleEndian(r[8..16])
  }

  function SampleAddress(r: Record): nat
    requires |r| >= SAMPLE_SIZE
  {
    LittleEndian(r[16..24])
  }

  function SampleDataSource(r: Record): nat
    requires |r| >= SAMPLE_SIZE
  {
    LittleEndian(r[24..32])
  }

  /** perf_mem_data_src.mem_op, the lowest five bits. */
  function MemOp(dataSource: nat): nat
  {
    dataSource % 32
  }

  /** perf_mem_data_src.mem_lvl, the fourteen bits above mem_op. */
  function MemLevel(dataSource: nat): nat
  {
    dataSource / 32 % 0x4000
  }

  datatype Kind = AddressSample | ZeroAddress | Throttle | Unthrottle | Unknown

  /** The branch of the drain loop a record takes. */
  function KindOf(r: Record): Kind
    requires WellFormed(r)
  {
    var t := HeaderType(r);
    if t == PERF_RECORD_SAMPLE then
      if SampleAddress(r) != 0 then AddressSample else ZeroAddress
    else if t == PERF_RECORD_THROTTLE then Throttle
    else if t == PERF_RECORD_UNTHROTTLE then Unthrottle
    else Unknown
  }

  /** A sample at address 1 by a memory operation with the given code. */
  function SampleOf(op: nat): (r: Record)
    requires op < 32
    ensures |r| == SAMPLE_SIZE
  {
    seq(SAMPLE_SIZE, i requires 0 <= i < SAMPLE_SIZE =>
      if i == 0 then 9 else if i == 6 then 32 else if i == 16 then 1 else if i == 24 then op as byte else 0)
  }

  lemma LittleEndianByte(s: seq<byte>)
    requires s != [] && forall i :: 1 <= i < |s| ==> s[i] == 0
    ensures LittleEndian(s) == s[0] as nat
  {
    LittleEndianZero(s[1..]);
  }

  lemma SampleOfIs(op: nat)
    requires op < 32
    ensures WellFormed(SampleOf(op)) && KindOf(SampleOf(op)) == AddressSample
    ensures MemOp(SampleDataSource(SampleOf(op))) == op
  {
    var r := SampleOf(op);
    LittleEndianByte(r[0..4]);
    LittleEndianByte(r[16..24]);
    LittleEndianByte(r[24..32]);
  }

  /** The bytes of a list of records, one after the other. */
  function Flatten(c: seq<Record>): seq<byte>
  {
    if c == [] then [] else Flatten(c[..|c| - 1]) + c[|c| - 1]
  }

  /** The stream position at which record i begins. */
  function Start(c: seq<Record>, i: nat): nat
    requires i <= |c|
  {
    |Flatten(c[..i])|
  }

  lemma FlattenSnoc(c: seq<Record>, r: Record)
    ensures Flatten(c + [r]) == Flatten(c) + r
  {
    assert (c + [r])[..|c|] == c;
  }

  lemma {:induction false} FlattenPrefix(c: seq<Record>, i: nat)
    requires i <= |c|
    ensures Flatten(c[..i]) <= Flatten(c)
  {
    if i == |c| {
      assert c[..i] == c;
    } else {
      FlattenPrefix(c[..|c| - 1], i);
      assert c[..|c| - 1][..i] == c[..i];
    }
  }

  /** Record i occupies exactly the stream positions from its start to the next one's. */
  lemma FlattenAt(c: seq<Record>, i: nat)
    requires i < |c|
    ensures Start(c, i + 1) == Start(c, i) + |c[i]| <= |Flatten(c)|
    ensures Flatten(c)[Start(c, i)..Start(c, i) + |c[i]|] == c[i]
  {
    var all, before, next := Flatten(c), Flatten(c[..i]), Flatten(c[..i + 1]);
    assert c[..i + 1] == c[..i] + [c[i]];
    FlattenSnoc(c[..i], c[i]);
    FlattenPrefix(c, i + 1);
    assert all[..|next|] == next == before + c[i];
    assert all[|before|..|next|] == next[|before|..];
  }

  lemma StartMonotone(c: seq<Record>, i: nat, j: nat)
    requires i <= j <= |c|
    ensures Start(c, i) <= Start(c, j) <= |Flatten(c)|
  {
    FlattenPrefix(c[..j], i);
    assert c[..j][..i] == c[..i];
    FlattenPrefix(c, j);
  }

  /** If every record is a multiple of eight bytes, so is every start. */
  lemma {:induction false} FlattenAligned(c: seq<Record>)
    requires forall r :: r in c ==> WellFormed(r)
    ensures |Flatten(c)| % 8 == 0
  {
    if c != [] {
      FlattenAligned(c[..|c| - 1]);
      assert WellFormed(c[|c| - 1]);
    }
  }
}
