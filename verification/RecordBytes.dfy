/** What the drain loop makes of a record, said on its bytes, and records built byte by byte. */
module RecordBytes {
  import opened Bits
  import opened Records
  import opened Sampling

  const ZEROS: seq<byte> := [0, 0, 0, 0, 0, 0, 0, 0]

  /** The number n in `len` bytes, lowest first. */
  function Bytes(n: nat, len: nat): (s: seq<byte>)
    ensures |s| == len
  {
    if len == 0 then [] else [(n % 256) as byte] + Bytes(n / 256, len - 1)
  }

  lemma {:induction false} BytesValue(n: nat, len: nat)
    requires n < Pow2(8 * len)
    ensures LittleEndian(Bytes(n, len)) == n
    decreases len
  {
    if len != 0 {
      Pow2Sum(8, 8 * (len - 1));
      Byte();
      BytesValue(n / 256, len - 1);
      assert Bytes(n, len)[1..] == Bytes(n / 256, len - 1);
    }
  }

  lemma Byte()
    ensures Pow2(8) == 256
  {
    assert Pow2(4) == 16;
    Pow2Sum(4, 4);
  }

  lemma {:induction false} LittleEndianInjective(a: seq<byte>, b: seq<byte>)
    requires |a| == |b| && LittleEndian(a) == LittleEndian(b)
    ensures a == b
    decreases |a|
  {
    if a != [] {
      assert a[0] as nat == LittleEndian(a) % 256 && b[0] as nat == LittleEndian(b) % 256;
      LittleEndianInjective(a[1..], b[1..]);
      assert a == [a[0]] + a[1..] && b == [b[0]] + b[1..];
    }
  }

  /** A byte followed by zeros is what its value says. */
  lemma ByteIff(s: seq<byte>, b: byte)
    requires s != []
    ensures LittleEndian(s) == b as nat <==> s == [b] + seq(|s| - 1, _ => 0 as byte)
  {
    var t := [b] + seq(|s| - 1, _ => 0 as byte);
    LittleEndianByte(t);
    if LittleEndian(s) == b as nat {
      LittleEndianInjective(s, t);
    }
  }

  lemma TypeIff(s: seq<byte>, b: byte)
    requires |s| == 4
    ensures LittleEndian(s) == b as nat <==> s == [b, 0, 0, 0]
  {
    ByteIff(s, b);
    assert [b] + seq(3, _ => 0 as byte) == [b, 0, 0, 0];
  }

  lemma ZeroIff(s: seq<byte>)
    requires |s| == 8
    ensures LittleEndian(s) == 0 <==> s == ZEROS
  {
    ByteIff(s, 0);
    assert [0 as byte] + seq(7, _ => 0 as byte) == ZEROS;
  }

  /** The branches of the drain loop, by the bytes of the header and of the address. */
  lemma KindByBytes(r: Record)
    requires WellFormed(r)
    ensures r[0..4] == [9, 0, 0, 0] ==> |r| >= 32
    ensures KindOf(r) == AddressSample <==> r[0..4] == [9, 0, 0, 0] && r[16..24] != ZEROS
    ensures KindOf(r) == ZeroAddress <==> r[0..4] == [9, 0, 0, 0] && r[16..24] == ZEROS
    ensures KindOf(r) == Throttle <==> r[0..4] == [5, 0, 0, 0]
    ensures KindOf(r) == Unthrottle <==> r[0..4] == [6, 0, 0, 0]
    ensures KindOf(r) == Unknown <==>
      r[0..4] != [9, 0, 0, 0] && r[0..4] != [5, 0, 0, 0] && r[0..4] != [6, 0, 0, 0]
  {
    TypeIff(r[0..4], 9);
    TypeIff(r[0..4], 5);
    TypeIff(r[0..4], 6);
    if |r| >= 32 {
      ZeroIff(r[16..24]);
    }
  }

  /** The size in the header is the little-endian number at offset 6. */
  lemma SizeByBytes(header: seq<byte>)
    requires |header| >= 8
    ensures HeaderSize(header) == LittleEndian(header[6..8])
  {
    var s := header[6..8];
    assert s[1..] == [header[7]];
    assert s[1..][1..] == [];
    assert LittleEndian(s[1..]) == header[7] as nat;
  }

  /** The kernel's promise about a record, on its bytes. */
  lemma WellFormedByBytes(r: Record)
    ensures WellFormed(r) <==>
      |r| >= 8 && |r| % 8 == 0 && LittleEndian(r[6..8]) == |r| && (r[0..4] == [9, 0, 0, 0] ==> |r| >= 32)
  {
    if |r| >= 8 {
      SizeByBytes(r);
      TypeIff(r[0..4], 9);
    }
  }

  /** Which accesses a record contributes, and what they carry: one, with the address at offset
      16, the instruction pointer at offset 8 and the low bits of the word at offset 24, for a
      sample whose address is not zero; none for any other record. */
  lemma AccessesByBytes(cfg: Config, r: Record)
    requires WellFormed(r)
    ensures r[0..4] == [9, 0, 0, 0] ==> |r| >= 32
    ensures Accesses(cfg, [r]) ==
      if r[0..4] == [9, 0, 0, 0] && r[16..24] != ZEROS then
        var source := LittleEndian(r[24..32]);
        [Access(LittleEndian(r[16..24]), LittleEndian(r[8..16]),
                cfg.accessOf(source % 32), cfg.levelOf(source / 32 % 16384))]
      else []
  {
    KindByBytes(r);
    AccessesSnoc(cfg, [], r);
    assert [] + [r] == [r];
  }

  // ---- records built byte by byte ----

  /** The data source word: operation, level, and whatever the kernel puts above. */
  function DataSource(op: nat, level: nat, above: nat): nat
  {
    op + 32 * (level + 16384 * above)
  }

  /** A sample of 32 bytes: type 9, any flags, size 32, and the three words. */
  function SampleWith(misc: nat, ip: nat, address: nat, source: nat): (r: Record)
    ensures |r| == 32
  {
    Bytes(9, 4) + Bytes(misc, 2) + Bytes(32, 2) + Bytes(ip, 8) + Bytes(address, 8) + Bytes(source, 8)
  }

  lemma SampleSlices(misc: nat, ip: nat, address: nat, source: nat)
    ensures var r := SampleWith(misc, ip, address, source);
      && r[0..4] == Bytes(9, 4) && r[6..8] == Bytes(32, 2)
      && r[8..16] == Bytes(ip, 8) && r[16..24] == Bytes(address, 8) && r[24..32] == Bytes(source, 8)
  {
    SixParts(Bytes(9, 4), Bytes(misc, 2), Bytes(32, 2), Bytes(ip, 8), Bytes(address, 8), Bytes(source, 8));
  }

  lemma SixParts(a: seq<byte>, b: seq<byte>, c: seq<byte>, d: seq<byte>, e: seq<byte>, f: seq<byte>)
    requires |a| == 4 && |b| == |c| == 2 && |d| == |e| == |f| == 8
    ensures var r := a + b + c + d + e + f;
      r[0..4] == a && r[6..8] == c && r[8..16] == d && r[16..24] == e && r[24..32] == f
  {
  }

  lemma SmallBytes()
    ensures Bytes(9, 4) == [9, 0, 0, 0] && Bytes(32, 2) == [32, 0]
  {
    assert Bytes(0, 3) == [0, 0, 0] by {
      assert Bytes(0, 1) == [0] + Bytes(0, 0);
      assert Bytes(0, 2) == [0] + Bytes(0, 1);
      assert Bytes(0, 3) == [0] + Bytes(0, 2);
    }
    assert Bytes(9, 4) == [9] + Bytes(0, 3);
    assert Bytes(32, 2) == [32] + Bytes(0, 1);
    assert Bytes(0, 1) == [0] + Bytes(0, 0);
  }

  lemma SampleWithOk(misc: nat, ip: nat, address: nat, source: nat)
    requires address < 0x1_0000_0000_0000_0000
    ensures var r := SampleWith(misc, ip, address, source);
      WellFormed(r) && r[0..4] == [9, 0, 0, 0] && (r[16..24] == ZEROS <==> address == 0)
  {
    var r := SampleWith(misc, ip, address, source);
    SampleSlices(misc, ip, address, source);
    SmallBytes();
    SizeByBytes(r);
    assert r[6] == r[6..8][0] && r[7] == r[6..8][1];
    TypeIff(r[0..4], 9);
    Bits.Words();
    BytesValue(address, 8);
    ZeroIff(r[16..24]);
  }

  lemma SourceParts(op: nat, level: nat, above: nat)
    requires op < 32 && level < 16384
    ensures DataSource(op, level, above) % 32 == op
    ensures DataSource(op, level, above) / 32 % 16384 == level
  {
    var rest := level + 16384 * above;
    ModUnique(DataSource(op, level, above), 32, rest, op);
    ModUnique(rest, 16384, above, level);
  }

  /** A sample the kernel writes for these values is decoded to these values. */
  lemma SampleRoundTrip(cfg: Config, misc: nat, ip: nat, address: nat, op: nat, level: nat, above: nat)
    requires ip < 0x1_0000_0000_0000_0000 && 0 < address < 0x1_0000_0000_0000_0000
    requires op < 32 && level < 16384 && DataSource(op, level, above) < 0x1_0000_0000_0000_0000
    ensures var r := SampleWith(misc, ip, address, DataSource(op, level, above));
      && WellFormed(r) && Accesses(cfg, [r]) == [Access(address, ip, cfg.accessOf(op), cfg.levelOf(level))]
      && KindOf(r).AddressSample? && AccessOf(cfg, r) == Access(address, ip, cfg.accessOf(op), cfg.levelOf(level))
  {
    var source := DataSource(op, level, above);
    var r := SampleWith(misc, ip, address, source);
    SampleWithOk(misc, ip, address, source);
    AccessesByBytes(cfg, r);
    KindByBytes(r);
    SampleSlices(misc, ip, address, source);
    Bits.Words();
    BytesValue(ip, 8);
    BytesValue(address, 8);
    BytesValue(source, 8);
    SourceParts(op, level, above);
  }

  /** A sample with address zero leaves nothing, whatever else it says. */
  lemma ZeroAddressDropped(cfg: Config, misc: nat, ip: nat, source: nat)
    ensures var r := SampleWith(misc, ip, 0, source);
      WellFormed(r) && KindOf(r) == ZeroAddress && Accesses(cfg, [r]) == []
  {
    SampleWithOk(misc, ip, 0, source);
    KindByBytes(SampleWith(misc, ip, 0, source));
    AccessesByBytes(cfg, SampleWith(misc, ip, 0, source));
  }

  /** The kernel may write records of every length that is a multiple of eight. */
  lemma AnyLength(t: byte, n: nat)
    requires 8 <= n < 0x1_0000 && n % 8 == 0 && (t == 9 ==> n >= 32)
    ensures var r := [t, 0, 0, 0, 0, 0] + Bytes(n, 2) + seq(n - 8, _ => 0 as byte);
      WellFormed(r) && |r| == n
  {
    var r := [t, 0, 0, 0, 0, 0] + Bytes(n, 2) + seq(n - 8, _ => 0 as byte);
    Byte();
    Pow2Sum(8, 8);
    BytesValue(n, 2);
    SizeByBytes(r);
    assert r[6..8] == Bytes(n, 2);
    TypeIff(r[0..4], 9);
    assert r[0..4] == [t, 0, 0, 0];
  }
}
