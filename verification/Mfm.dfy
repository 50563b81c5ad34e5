/** The MFM track encoder: sectors split into odd and even halves, clock bits
    inserted, laid out longword by longword behind a gap. */
module Mfm {

  datatype Octet = Octet(bits: bv8)
  datatype Long = Long(bits: bv32)
  datatype Window = Window(bits: bv16)

  const MASK: bv32 := 0x5555_5555
  const GAP := Long(0xAAAA_AAAA)
  const GAP_AFTER_ONE := Long(0x2AAA_AAAA)
  const SYNC := Long(0x4489_4489)
  const SYNC_MARK := Window(0x4489)

  const SECTOR_BYTES := 512
  const SECTOR_LONGS := 272
  const MFM_SECTOR_BYTES := 1088

  // ----------------------------------------------------- bytes and longwords

  function FromBytes(a: Octet, b: Octet, c: Octet, d: Octet): Long {
    Long(((a.bits as bv32) << 24) | ((b.bits as bv32) << 16) | ((c.bits as bv32) << 8) | (d.bits as bv32))
  }

  /** Byte `r` of a longword, most significant first. */
  function ByteOf(v: Long, r: nat): Octet
    requires r < 4
  {
    match r
    case 0 => Octet((v.bits >> 24) as bv8)
    case 1 => Octet(((v.bits >> 16) & 0xFF) as bv8)
    case 2 => Octet(((v.bits >> 8) & 0xFF) as bv8)
    case _ => Octet((v.bits & 0xFF) as bv8)
  }

  lemma BytesRoundTrip(v: Long)
    ensures FromBytes(ByteOf(v, 0), ByteOf(v, 1), ByteOf(v, 2), ByteOf(v, 3)) == v
  {
  }

  lemma LongRoundTrip(a: Octet, b: Octet, c: Octet, d: Octet)
    ensures var v := FromBytes(a, b, c, d);
      ByteOf(v, 0) == a && ByteOf(v, 1) == b && ByteOf(v, 2) == c && ByteOf(v, 3) == d
  {
  }

  /** `read_be32` */
  function LongAt(s: seq<Octet>, pos: nat): Long
    requires pos + 4 <= |s|
  {
    FromBytes(s[pos], s[pos + 1], s[pos + 2], s[pos + 3])
  }

  /** The byte that stands for `v`. */
  function ByteOfValue(v: nat): bv8
    requires v < 256
  {
    if v == 0 then 0 else ByteOfValue(v - 1) + 1
  }

  /** The low byte of an integer. */
  function LowByte(x: int): Octet {
    Octet(ByteOfValue(x % 256))
  }

  lemma {:induction false} ByteValue(v: nat)
    requires v < 256
    ensures ByteOfValue(v) as int == v
  {
    if v == 0 {
    } else {
      ByteValue(v - 1);
    }
  }

  lemma LowByteValue(x: int)
    ensures LowByte(x).bits as int == x % 256
  {
    hide ByteOfValue;
    ByteValue(x % 256);
  }

  // ------------------------------------------------------------ bit cells

  function OddBits(v: Long): Long { Long((v.bits >> 1) & MASK) }
  function EvenBits(v: Long): Long { Long(v.bits & MASK) }
  function Xor(a: Long, b: Long): Long { Long(a.bits ^ b.bits) }
  function Half(a: Long): Long { Long(a.bits >> 1) }

  /** The clocked form of the data bits of `raw` behind a longword ending in the
      last bit of `previous`: a clock is set between two clear data bits. */
  function Clocked(previous: Long, raw: Long): Long {
    var v := raw.bits & MASK;
    var left := (previous.bits << 31) | (v >> 1);
    var right := v << 1;
    Long(v | (!left & !right & 0xAAAA_AAAA))
  }

  predicate EndsInOne(v: Long) {
    v.bits & 1 != 0
  }

  // ------------------------------------------------------------- a sector

  function Info(track: nat, sector: nat, perTrack: nat): Long {
    FromBytes(Octet(0xFF), LowByte(track), LowByte(sector), LowByte(perTrack - sector))
  }

  function HeaderChecksum(info: Long): Long {
    Xor(OddBits(info), EvenBits(info))
  }

  function DataChecksum(data: seq<Octet>, n: nat): Long
    requires 4 * n <= |data|
  {
    if n == 0 then Long(0)
    else
      var v := LongAt(data, 4 * (n - 1));
      Xor(Xor(DataChecksum(data, n - 1), OddBits(v)), EvenBits(v))
  }

  /** Longword `j` of a sector before clocking. */
  function RawLong(data: seq<Octet>, info: Long, j: nat): Long
    requires |data| == SECTOR_BYTES && j < SECTOR_LONGS
  {
    if j == 0 then GAP
    else if j == 1 then SYNC
    else if j == 2 then OddBits(info)
    else if j == 3 then EvenBits(info)
    else if j < 12 then Long(0)
    else if j == 12 then Half(HeaderChecksum(info))
    else if j == 13 then HeaderChecksum(info)
    else if j == 14 then Half(DataChecksum(data, |data| / 4))
    else if j == 15 then DataChecksum(data, |data| / 4)
    else if j < 144 then OddBits(LongAt(data, 4 * (j - 16)))
    else EvenBits(LongAt(data, 4 * (j - 144)))
  }

  function SectorLong(data: seq<Octet>, info: Long, j: nat): Long
    requires |data| == SECTOR_BYTES && j < SECTOR_LONGS
  {
    if j < 2 then RawLong(data, info, j)
    else Clocked(RawLong(data, info, j - 1), RawLong(data, info, j))
  }

  // -------------------------------------------------------------- a track

  /** A track to encode and the buffer it goes into. */
  datatype TrackJob = TrackJob(data: seq<Octet>, track: nat, perTrack: nat, size: nat) {

    ghost predicate Valid() {
      size < 0x1_0000_0000 && perTrack * MFM_SECTOR_BYTES <= size && perTrack * SECTOR_BYTES <= |data|
    }

    function GapLongs(): nat {
      var gap := size - perTrack * MFM_SECTOR_BYTES;
      if gap / 4 > 1 then gap / 4 - 1 else 0
    }

    /** Longwords written: gap, sectors, and a trailing one if there is room. */
    function Longs(): nat {
      GapLongs() + perTrack * SECTOR_LONGS + if size - perTrack * MFM_SECTOR_BYTES >= 4 then 1 else 0
    }

    function SectorData(s: nat): seq<Octet>
      requires Valid() && s < perTrack
    {
      data[s * SECTOR_BYTES .. (s + 1) * SECTOR_BYTES]
    }

    function SectorStart(s: nat): nat {
      GapLongs() + s * SECTOR_LONGS
    }
  }

  /** Longword `l` of the encoded track. */
  function TrackLong(job: TrackJob, l: nat): Long
    requires job.Valid() && l < job.Longs()
  {
    var gap := job.GapLongs();
    if l < gap then GAP
    else if l < gap + job.perTrack * SECTOR_LONGS then
      var s, j := (l - gap) / SECTOR_LONGS, (l - gap) % SECTOR_LONGS;
      if j == 0 then (if l > 0 && EndsInOne(TrackLong(job, l - 1)) then GAP_AFTER_ONE else GAP)
      else SectorLong(job.SectorData(s), Info(job.track, s, job.perTrack), j)
    else Clocked(if l > 0 then TrackLong(job, l - 1) else Long(0), Long(0))
  }

  /** `s` begins with the longwords of the encoded track. */
  ghost predicate Encoded(job: TrackJob, s: seq<Octet>)
    requires job.Valid()
  {
    && |s| == job.size && 4 * job.Longs() <= |s|
    && forall l: nat | l < job.Longs() :: LongAt(s, 4 * l) == TrackLong(job, l)
  }

  // --------------------------------------------------------- the encoder

  lemma ClockedSeesOneBit(p: Long, q: Long, raw: Long)
    requires EndsInOne(p) == EndsInOne(q)
    ensures Clocked(p, raw) == Clocked(q, raw)
  {
  }

  lemma MaskKeepsLastBit(p: Long)
    ensures EndsInOne(EvenBits(p)) == EndsInOne(p)
  {
  }

  function LongIn(dst: array<Octet>, pos: nat): Long
    requires pos + 4 <= dst.Length
    reads dst
  {
    FromBytes(dst[pos], dst[pos + 1], dst[pos + 2], dst[pos + 3])
  }

  lemma LongInIsLongAt(dst: array<Octet>, pos: nat)
    requires pos + 4 <= dst.Length
    ensures LongIn(dst, pos) == LongAt(dst[..], pos)
  {
  }

  /** `write_be32` */
  method WriteLong(dst: array<Octet>, pos: nat, v: Long)
    requires pos + 4 <= dst.Length
    modifies dst
    ensures LongIn(dst, pos) == v
    ensures forall k: nat | k < dst.Length && !(pos <= k < pos + 4) :: dst[k] == old(dst[k])
    ensures forall p: nat | p + 4 <= dst.Length && (p + 4 <= pos || pos + 4 <= p) ::
      LongIn(dst, p) == old(LongIn(dst, p))
  {
    dst[pos] := ByteOf(v, 0);
    dst[pos + 1] := ByteOf(v, 1);
    dst[pos + 2] := ByteOf(v, 2);
    dst[pos + 3] := ByteOf(v, 3);
    BytesRoundTrip(v);
  }

  /** The clocking pass: each longword is clocked behind the one before it. */
  method InsertClocks(buf: array<Long>, from: nat, longs: nat)
    requires 1 <= from && from + longs <= buf.Length
    modifies buf
    ensures forall k: nat | from <= k < from + longs :: buf[k] == Clocked(old(buf[k - 1]), old(buf[k]))
    ensures forall k: nat | k < buf.Length && !(from <= k < from + longs) :: buf[k] == old(buf[k])
  {
    hide Clocked, EvenBits, EndsInOne;
    ghost var was := buf[..];
    var previous := buf[from - 1];
    for i := from to from + longs
      invariant EndsInOne(previous) == EndsInOne(was[i - 1])
      invariant forall k: nat | from <= k < i :: buf[k] == Clocked(was[k - 1], was[k])
      invariant forall k: nat | k < buf.Length && !(from <= k < i) :: buf[k] == was[k]
    {
      var raw := buf[i];
      ClockedSeesOneBit(previous, was[i - 1], raw);
      MaskKeepsLastBit(raw);
      buf[i] := Clocked(previous, raw);
      previous := EvenBits(raw);
    }
  }

  /** Fills the longwords of a sector, before clocking. */
  method FillSector(source: array<Octet>, offset: nat, info: Long) returns (buf: array<Long>)
    requires offset + SECTOR_BYTES <= source.Length
    ensures fresh(buf) && buf.Length == SECTOR_LONGS
    ensures forall j: nat | j < SECTOR_LONGS ::
      buf[j] == RawLong(source[offset..offset + SECTOR_BYTES], info, j)
  {
    hide OddBits, EvenBits, Half, LongAt, DataChecksum, HeaderChecksum;
    ghost var data := source[offset..offset + SECTOR_BYTES];
    buf := new Long[SECTOR_LONGS](_ => Long(0));
    var dataSum := FillData(buf, source, offset);
    FillHeader(buf, info, dataSum);
  }

  /** Gap, sync, info, label and the two checksums. */
  method FillHeader(buf: array<Long>, info: Long, dataSum: Long)
    requires buf.Length == SECTOR_LONGS
    requires forall j: nat | 4 <= j < 12 :: buf[j] == Long(0)
    modifies buf
    ensures buf[0] == GAP && buf[1] == SYNC && buf[2] == OddBits(info) && buf[3] == EvenBits(info)
    ensures forall j: nat | 4 <= j < 12 :: buf[j] == Long(0)
    ensures buf[12] == Half(HeaderChecksum(info)) && buf[13] == HeaderChecksum(info)
    ensures buf[14] == Half(dataSum) && buf[15] == dataSum
    ensures forall j: nat | 16 <= j < SECTOR_LONGS :: buf[j] == old(buf[j])
  {
    hide OddBits, EvenBits, Xor, Half;
    var headerSum := Xor(OddBits(info), EvenBits(info));
    buf[0], buf[1] := GAP, SYNC;
    buf[2], buf[3] := OddBits(info), EvenBits(info);
    buf[12], buf[13] := Half(headerSum), headerSum;
    buf[14], buf[15] := Half(dataSum), dataSum;
  }

  lemma SliceLong(source: array<Octet>, offset: nat, i: nat)
    requires offset + SECTOR_BYTES <= source.Length && i < 128
    ensures LongIn(source, offset + i * 4) == LongAt(source[offset..offset + SECTOR_BYTES], 4 * i)
  {
    hide FromBytes;
  }

  /** The data halves, and their running checksum. */
  method FillData(buf: array<Long>, source: array<Octet>, offset: nat) returns (sum: Long)
    requires offset + SECTOR_BYTES <= source.Length && buf.Length == SECTOR_LONGS
    modifies buf
    ensures var data := source[offset..offset + SECTOR_BYTES]; sum == DataChecksum(data, |data| / 4)
    ensures forall j: nat | 16 <= j < 144 ::
      buf[j] == OddBits(LongAt(source[offset..offset + SECTOR_BYTES], 4 * (j - 16)))
    ensures forall j: nat | 144 <= j < 272 ::
      buf[j] == EvenBits(LongAt(source[offset..offset + SECTOR_BYTES], 4 * (j - 144)))
    ensures forall j: nat | j < 16 :: buf[j] == old(buf[j])
  {
    hide OddBits, EvenBits, Xor, LongIn, LongAt;
    ghost var data := source[offset..offset + SECTOR_BYTES];
    sum := Long(0);
    for i := 0 to 128
      invariant sum == DataChecksum(data, i)
      invariant forall j: nat | j < 16 :: buf[j] == old(buf[j])
      invariant forall j: nat | 16 <= j < 16 + i :: buf[j] == OddBits(LongAt(data, 4 * (j - 16)))
      invariant forall j: nat | 144 <= j < 144 + i :: buf[j] == EvenBits(LongAt(data, 4 * (j - 144)))
    {
      var raw := LongIn(source, offset + i * 4);
      SliceLong(source, offset, i);
      buf[16 + i], buf[144 + i] := OddBits(raw), EvenBits(raw);
      sum := Xor(Xor(sum, OddBits(raw)), EvenBits(raw));
    }
  }

  /** Stores the longwords of `buf` one after the other. */
  method StoreLongs(dst: array<Octet>, pos: nat, buf: array<Long>)
    requires pos + 4 * buf.Length <= dst.Length
    modifies dst
    ensures forall j: nat | j < buf.Length :: LongIn(dst, pos + 4 * j) == buf[j]
    ensures forall k: nat | k < dst.Length && !(pos <= k < pos + 4 * buf.Length) :: dst[k] == old(dst[k])
    ensures forall p: nat | p + 4 <= pos :: LongIn(dst, p) == old(LongIn(dst, p))
  {
    hide LongIn;
    for i := 0 to buf.Length
      invariant forall j: nat | j < i :: LongIn(dst, pos + 4 * j) == buf[j]
      invariant forall k: nat | k < dst.Length && !(pos <= k < pos + 4 * i) :: dst[k] == old(dst[k])
      invariant forall p: nat | p + 4 <= pos :: LongIn(dst, p) == old(LongIn(dst, p))
    {
      WriteLong(dst, pos + 4 * i, buf[i]);
    }
  }

  method EncodeSector(dst: array<Octet>, pos: nat, dstSize: nat, source: array<Octet>, offset: nat, info: Long)
    returns (ok: bool)
    requires pos + dstSize <= dst.Length && offset + SECTOR_BYTES <= source.Length && dst != source
    modifies dst
    ensures ok == (dstSize >= MFM_SECTOR_BYTES)
    ensures ok ==> forall j: nat | j < SECTOR_LONGS ::
      LongIn(dst, pos + 4 * j) == SectorLong(source[offset..offset + SECTOR_BYTES], info, j)
    ensures forall k: nat | k < dst.Length && !(ok && pos <= k < pos + MFM_SECTOR_BYTES) :: dst[k] == old(dst[k])
    ensures forall p: nat | p + 4 <= pos :: LongIn(dst, p) == old(LongIn(dst, p))
  {
    hide RawLong, Clocked, LongIn;
    if dstSize < MFM_SECTOR_BYTES { return false; }
    ghost var data := source[offset..offset + SECTOR_BYTES];
    var buf := FillSector(source, offset, info);
    InsertClocks(buf, 2, SECTOR_LONGS - 2);
    assert forall j: nat | j < SECTOR_LONGS :: buf[j] == SectorLong(data, info, j);
    StoreLongs(dst, pos, buf);
    ok := true;
  }

  /** Encodes a whole track; bytes past the last longword keep their values. */
  method EncodeTrack(dst: array<Octet>, source: array<Octet>, offset: nat, track: nat, perTrack: nat)
    returns (ok: bool)
    requires dst != source && dst.Length < 0x1_0000_0000 && perTrack * MFM_SECTOR_BYTES < 0x1_0000_0000
    requires offset + perTrack * SECTOR_BYTES <= source.Length
    modifies dst
    ensures ok == (dst.Length >= perTrack * MFM_SECTOR_BYTES)
    ensures !ok ==> dst[..] == old(dst[..])
    ensures ok ==> var job := TrackJob(source[offset..offset + perTrack * SECTOR_BYTES], track, perTrack, dst.Length);
      && job.Valid() && 4 * job.Longs() <= dst.Length
      && Encoded(job, dst[..])
      && (forall k: nat | 4 * job.Longs() <= k < dst.Length :: dst[k] == old(dst[k]))
  {
    hide LongIn, LongAt, TrackLong, Clocked, Info;
    var dataBytes := perTrack * MFM_SECTOR_BYTES;
    if dst.Length < dataBytes { return false; }
    ghost var job := TrackJob(source[offset..offset + perTrack * SECTOR_BYTES], track, perTrack, dst.Length);
    var gapSize := dst.Length - dataBytes;
    var gapWords := if gapSize / 4 > 1 then gapSize / 4 - 1 else 0;
    WriteGap(dst, job, gapWords);
    var pos := 4 * gapWords;
    for sec := 0 to perTrack
      invariant pos == 4 * job.SectorStart(sec)
      invariant forall l: nat | l < job.SectorStart(sec) :: LongIn(dst, 4 * l) == TrackLong(job, l)
      invariant forall k: nat | pos <= k < dst.Length :: dst[k] == old(dst[k])
    {
      assert source[offset + sec * SECTOR_BYTES..offset + sec * SECTOR_BYTES + SECTOR_BYTES] == job.SectorData(sec);
      EncodeTrackSector(dst, pos, source, offset + sec * SECTOR_BYTES, Info(track, sec, perTrack), job, sec);
      pos := pos + MFM_SECTOR_BYTES;
    }
    WriteTail(dst, pos, job);
    forall l: nat | l < job.Longs() ensures LongAt(dst[..], 4 * l) == TrackLong(job, l) {
      LongInIsLongAt(dst, 4 * l);
    }
    ok := true;
  }

  /** The leading gap. */
  method WriteGap(dst: array<Octet>, ghost job: TrackJob, gapWords: nat)
    requires job.Valid() && dst.Length == job.size && gapWords == job.GapLongs()
    requires 4 * gapWords <= dst.Length
    modifies dst
    ensures forall l: nat | l < gapWords :: l < job.Longs() && LongIn(dst, 4 * l) == TrackLong(job, l)
    ensures forall k: nat | 4 * gapWords <= k < dst.Length :: dst[k] == old(dst[k])
  {
    hide LongIn, TrackLong;
    for i := 0 to gapWords
      invariant forall l: nat | l < i :: LongIn(dst, 4 * l) == TrackLong(job, l)
      invariant forall k: nat | 4 * i <= k < dst.Length :: dst[k] == old(dst[k])
    {
      TrackLongOutside(job, i);
      WriteLong(dst, 4 * i, GAP);
    }
  }

  /** The trailing longword, when there is room for it. */
  method WriteTail(dst: array<Octet>, pos: nat, ghost job: TrackJob)
    requires job.Valid() && dst.Length == job.size && pos == 4 * job.SectorStart(job.perTrack)
    requires pos <= dst.Length && 4 * job.Longs() <= dst.Length
    requires forall l: nat | l < job.SectorStart(job.perTrack) ::
      l < job.Longs() && LongIn(dst, 4 * l) == TrackLong(job, l)
    modifies dst
    ensures forall l: nat | l < job.Longs() :: LongIn(dst, 4 * l) == TrackLong(job, l)
    ensures forall k: nat | 4 * job.Longs() <= k < dst.Length :: dst[k] == old(dst[k])
  {
    hide LongIn, TrackLong, Clocked;
    if pos + 4 <= dst.Length {
      TrackLongOutside(job, job.SectorStart(job.perTrack));
      var tail := if pos >= 4 then LongIn(dst, pos - 4) else Long(0);
      WriteLong(dst, pos, Clocked(tail, Long(0)));
    }
  }

  lemma TrackLongOutside(job: TrackJob, l: nat)
    requires job.Valid() && l < job.Longs()
    ensures l < job.GapLongs() ==> TrackLong(job, l) == GAP
    ensures l == job.SectorStart(job.perTrack) ==>
      TrackLong(job, l) == Clocked(if l > 0 then TrackLong(job, l - 1) else Long(0), Long(0))
  {
  }

  lemma TrackLongInSector(job: TrackJob, s: nat, j: nat)
    requires job.Valid() && s < job.perTrack && j < SECTOR_LONGS
    ensures job.SectorStart(s) + j < job.Longs()
    ensures TrackLong(job, job.SectorStart(s) + j)
         == if j > 0 then SectorLong(job.SectorData(s), Info(job.track, s, job.perTrack), j)
            else if job.SectorStart(s) > 0 && EndsInOne(TrackLong(job, job.SectorStart(s) - 1)) then GAP_AFTER_ONE
            else GAP
  {
    hide SectorLong, EndsInOne, Info;
    var l := job.SectorStart(s) + j;
    assert (l - job.GapLongs()) / SECTOR_LONGS == s && (l - job.GapLongs()) % SECTOR_LONGS == j;
  }

  /** One turn of the sector loop: the sector, then its first longword again so
      that it does not put a clock after a set data bit. */
  method EncodeTrackSector(dst: array<Octet>, pos: nat, source: array<Octet>, from: nat, info: Long,
                           ghost job: TrackJob, ghost sec: nat)
    requires dst != source && job.Valid() && job.size == dst.Length && sec < job.perTrack
    requires pos == 4 * job.SectorStart(sec) && info == Info(job.track, sec, job.perTrack)
    requires from + SECTOR_BYTES <= source.Length && source[from..from + SECTOR_BYTES] == job.SectorData(sec)
    requires forall l: nat | l < job.SectorStart(sec) :: LongIn(dst, 4 * l) == TrackLong(job, l)
    modifies dst
    ensures forall l: nat | l < job.SectorStart(sec + 1) :: LongIn(dst, 4 * l) == TrackLong(job, l)
    ensures forall k: nat | 4 * job.SectorStart(sec + 1) <= k < dst.Length :: dst[k] == old(dst[k])
  {
    hide LongIn, SectorLong, EndsInOne, TrackLong, Info;
    TrackLongInSector(job, sec, 0);
    var afterOne := pos >= 4 && EndsInOne(LongIn(dst, pos - 4));
    var ok := EncodeSector(dst, pos, MFM_SECTOR_BYTES, source, from, info);
    WriteLong(dst, pos, if afterOne then GAP_AFTER_ONE else GAP);
    forall l: nat | job.SectorStart(sec) < l < job.SectorStart(sec + 1)
      ensures LongIn(dst, 4 * l) == TrackLong(job, l)
    {
      var j := l - job.SectorStart(sec);
      TrackLongInSector(job, sec, j);
      assert 4 * l == pos + 4 * j;
    }
  }
}
