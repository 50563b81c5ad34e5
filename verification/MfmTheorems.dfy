/** The encoded track is legal MFM, carries its sync marks exactly where sectors
    begin, and decodes to what was encoded. */
module MfmTheorems {
  import opened Mfm
  import opened Wrappers

  // ------------------------------------------------------------- windows

  /** The sixteen bit cells from byte `i` on. */
  function WindowAt(s: seq<Octet>, i: nat): Window
    requires i + 1 < |s|
  {
    Pair(s[i], s[i + 1])
  }

  function Pair(a: Octet, b: Octet): Window {
    Window(((a.bits as bv16) << 8) | (b.bits as bv16))
  }

  function Inside(v: Long, r: nat): Window
    requires r < 3
  {
    match r
    case 0 => Window((v.bits >> 16) as bv16)
    case 1 => Window(((v.bits >> 8) & 0xFFFF) as bv16)
    case _ => Window((v.bits & 0xFFFF) as bv16)
  }

  function Across(u: Long, v: Long): Window {
    Window((((u.bits & 0xFF) << 8) | (v.bits >> 24)) as bv16)
  }

  /** No two set cells side by side, and no four clear ones in a row. */
  predicate Legal(w: Window) {
    var b := w.bits;
    b & (b >> 1) == 0 && (b | (b >> 1) | (b >> 2) | (b >> 3)) & 0x1FFF == 0x1FFF
  }

  predicate LegalInside(v: Long) {
    Legal(Inside(v, 0)) && Legal(Inside(v, 1)) && Legal(Inside(v, 2)) && v.bits & 7 != 0
  }

  predicate NoMarkInside(v: Long) {
    Inside(v, 0) != SYNC_MARK && Inside(v, 1) != SYNC_MARK && Inside(v, 2) != SYNC_MARK
  }

  lemma ClockedIsLegal(p: Long, raw: Long)
    ensures LegalInside(Clocked(p, raw)) && NoMarkInside(Clocked(p, raw))
  {
  }

  lemma ConstantsAreLegal()
    ensures LegalInside(GAP) && LegalInside(GAP_AFTER_ONE) && LegalInside(SYNC)
    ensures NoMarkInside(GAP) && NoMarkInside(GAP_AFTER_ONE)
    ensures Inside(SYNC, 0) == SYNC_MARK && Inside(SYNC, 1) != SYNC_MARK && Inside(SYNC, 2) == SYNC_MARK
  {
  }

  lemma ClockedJoins(u: Long, p: Long, raw: Long)
    requires LegalInside(u) && EndsInOne(u) == EndsInOne(p)
    ensures Legal(Across(u, Clocked(p, raw))) && Across(u, Clocked(p, raw)) != SYNC_MARK
  {
  }

  lemma GapJoins(u: Long)
    requires LegalInside(u)
    ensures !EndsInOne(u) ==> Legal(Across(u, GAP)) && Across(u, GAP) != SYNC_MARK
    ensures EndsInOne(u) ==> Legal(Across(u, GAP_AFTER_ONE)) && Across(u, GAP_AFTER_ONE) != SYNC_MARK
  {
  }

  lemma SyncJoins()
    ensures Legal(Across(GAP, SYNC)) && Across(GAP, SYNC) != SYNC_MARK
    ensures Legal(Across(GAP_AFTER_ONE, SYNC)) && Across(GAP_AFTER_ONE, SYNC) != SYNC_MARK
    ensures !EndsInOne(GAP) && !EndsInOne(GAP_AFTER_ONE)
  {
  }

  lemma ClockedKeepsLastBit(p: Long, raw: Long)
    ensures EndsInOne(Clocked(p, raw)) == EndsInOne(raw)
  {
  }

  lemma ClockedKeepsData(p: Long, raw: Long)
    ensures EvenBits(Clocked(p, raw)) == EvenBits(raw)
  {
  }

  // ------------------------------------------------- windows of the track

  lemma HighPair(a: Octet, b: Octet, c: Octet, d: Octet)
    ensures Pair(a, b) == Inside(FromBytes(a, b, c, d), 0)
  {
  }

  lemma MiddlePair(a: Octet, b: Octet, c: Octet, d: Octet)
    ensures Pair(b, c) == Inside(FromBytes(a, b, c, d), 1)
  {
  }

  lemma LowPair(a: Octet, b: Octet, c: Octet, d: Octet)
    ensures Pair(c, d) == Inside(FromBytes(a, b, c, d), 2)
  {
  }

  lemma PairAcross(a: Octet, b: Octet, c: Octet, d: Octet, e: Octet, f: Octet, g: Octet, h: Octet)
    ensures Pair(d, e) == Across(FromBytes(a, b, c, d), FromBytes(e, f, g, h))
  {
  }

  lemma WindowInside(s: seq<Octet>, l: nat, r: nat)
    requires 4 * l + 4 <= |s| && r < 3
    ensures WindowAt(s, 4 * l + r) == Inside(LongAt(s, 4 * l), r)
  {
    hide Pair, Inside, FromBytes;
    HighPair(s[4 * l], s[4 * l + 1], s[4 * l + 2], s[4 * l + 3]);
    MiddlePair(s[4 * l], s[4 * l + 1], s[4 * l + 2], s[4 * l + 3]);
    LowPair(s[4 * l], s[4 * l + 1], s[4 * l + 2], s[4 * l + 3]);
  }

  lemma WindowAcross(s: seq<Octet>, l: nat)
    requires 4 * l + 8 <= |s|
    ensures WindowAt(s, 4 * l + 3) == Across(LongAt(s, 4 * l), LongAt(s, 4 * l + 4))
  {
    hide Pair, Across, FromBytes;
    PairAcross(s[4 * l], s[4 * l + 1], s[4 * l + 2], s[4 * l + 3],
               s[4 * l + 4], s[4 * l + 5], s[4 * l + 6], s[4 * l + 7]);
  }

  /** Where a longword of the track lies. */
  datatype Place = InGap | InSector(s: nat, j: nat) | AtTail

  function PlaceOf(job: TrackJob, l: nat): (p: Place)
    requires job.Valid() && l < job.Longs()
    ensures p.InGap? ==> l < job.GapLongs()
    ensures p.InSector? ==> p.s < job.perTrack && p.j < SECTOR_LONGS && l == job.SectorStart(p.s) + p.j
    ensures p.AtTail? ==> l == job.SectorStart(job.perTrack)
  {
    if l < job.GapLongs() then InGap
    else if l < job.SectorStart(job.perTrack) then
      InSector((l - job.GapLongs()) / SECTOR_LONGS, (l - job.GapLongs()) % SECTOR_LONGS)
    else AtTail
  }

  predicate IsSync(job: TrackJob, l: nat)
    requires job.Valid() && l < job.Longs()
  {
    var p := PlaceOf(job, l);
    p.InSector? && p.j == 1
  }

  /** Each longword is legal in itself, and only sync longwords hold marks. */
  lemma LongIsLegal(job: TrackJob, l: nat)
    requires job.Valid() && l < job.Longs()
    ensures LegalInside(TrackLong(job, l))
    ensures if IsSync(job, l) then TrackLong(job, l) == SYNC else NoMarkInside(TrackLong(job, l))
  {
    hide Clocked, LegalInside, NoMarkInside, TrackLong, EndsInOne, RawLong, Info;
    ConstantsAreLegal();
    match PlaceOf(job, l)
    case InGap => TrackLongOutside(job, l);
    case InSector(s, j) =>
      TrackLongInSector(job, s, j);
      if j >= 2 {
        var data, info := job.SectorData(s), Info(job.track, s, job.perTrack);
        ClockedIsLegal(RawLong(data, info, j - 1), RawLong(data, info, j));
      } else if j == 1 {
        SecondIsSync(job.SectorData(s), Info(job.track, s, job.perTrack));
      }
    case AtTail =>
      TrackLongOutside(job, l);
      ClockedIsLegal(if l > 0 then TrackLong(job, l - 1) else Long(0), Long(0));
  }

  lemma SecondIsSync(data: seq<Octet>, info: Long)
    requires |data| == SECTOR_BYTES
    ensures SectorLong(data, info, 1) == SYNC
    ensures forall j: nat | 2 <= j < SECTOR_LONGS ::
      SectorLong(data, info, j) == Clocked(RawLong(data, info, j - 1), RawLong(data, info, j))
  {
    hide Clocked;
  }

  /** The last bit of a longword is the one its successor was clocked behind. */
  lemma SectorLastBit(data: seq<Octet>, info: Long, j: nat)
    requires |data| == SECTOR_BYTES && j < SECTOR_LONGS
    ensures EndsInOne(SectorLong(data, info, j)) == EndsInOne(RawLong(data, info, j))
  {
    hide Clocked, EndsInOne, RawLong;
    if j >= 2 {
      ClockedKeepsLastBit(RawLong(data, info, j - 1), RawLong(data, info, j));
    }
  }

  lemma SectorJoint(job: TrackJob, s: nat, j: nat)
    requires job.Valid() && s < job.perTrack && 0 < j < SECTOR_LONGS
    ensures var l := job.SectorStart(s) + j;
      l < job.Longs() && Legal(Across(TrackLong(job, l - 1), TrackLong(job, l)))
      && Across(TrackLong(job, l - 1), TrackLong(job, l)) != SYNC_MARK
  {
    hide Clocked, LegalInside, NoMarkInside, Legal, Across, TrackLong, EndsInOne, RawLong, Info, SectorLong, IsSync,
      PlaceOf;
    TrackLongInSector(job, s, j);
    TrackLongInSector(job, s, j - 1);
    var data, info := job.SectorData(s), Info(job.track, s, job.perTrack);
    SecondIsSync(data, info);
    SyncJoins();
    if j >= 2 {
      LongIsLegal(job, job.SectorStart(s) + j - 1);
      SectorLastBit(data, info, j - 1);
      ClockedJoins(SectorLong(data, info, j - 1), RawLong(data, info, j - 1), RawLong(data, info, j));
    }
  }

  /** Neighbouring longwords join legally and without making a mark. */
  lemma JointIsLegal(job: TrackJob, l: nat)
    requires job.Valid() && l + 1 < job.Longs()
    ensures Legal(Across(TrackLong(job, l), TrackLong(job, l + 1)))
    ensures Across(TrackLong(job, l), TrackLong(job, l + 1)) != SYNC_MARK
  {
    hide Clocked, LegalInside, NoMarkInside, Legal, Across, TrackLong, EndsInOne, Info, SectorLong, IsSync;
    var u := TrackLong(job, l);
    LongIsLegal(job, l);
    match PlaceOf(job, l + 1)
    case InGap =>
      TrackLongOutside(job, l);
      TrackLongOutside(job, l + 1);
      GapJoins(GAP);
      SyncJoins();
    case InSector(s, j) =>
      if j > 0 {
        SectorJoint(job, s, j);
      } else {
        TrackLongInSector(job, s, 0);
        GapJoins(u);
      }
    case AtTail =>
      TrackLongOutside(job, l + 1);
      ClockedJoins(u, u, Long(0));
  }

  /** Every sixteen cells of the encoded track, at every byte, are legal: so no
      two set cells are adjacent and no four clear cells follow each other
      anywhere, across longwords, sectors and gaps. */
  lemma TrackIsLegal(job: TrackJob, s: seq<Octet>, i: nat)
    requires job.Valid() && Encoded(job, s) && i + 1 < 4 * job.Longs()
    ensures Legal(WindowAt(s, i))
  {
    hide Legal, WindowAt, LongAt, TrackLong;
    var l, r := i / 4, i % 4;
    if r < 3 {
      WindowInside(s, l, r);
      LongIsLegal(job, l);
      assert LongAt(s, 4 * l) == TrackLong(job, l);
    } else {
      WindowAcross(s, l);
      JointIsLegal(job, l);
      assert LongAt(s, 4 * l) == TrackLong(job, l);
      assert LongAt(s, 4 * (l + 1)) == TrackLong(job, l + 1);
    }
  }

  /** The sixteen cells from byte `i` on when the buffer is read round and round. */
  function CyclicWindow(s: seq<Octet>, i: nat): Window
    requires i < |s|
  {
    Pair(s[i], s[if i + 1 < |s| then i + 1 else 0])
  }

  lemma BlankIsIllegal(a: Octet)
    ensures !Legal(Pair(a, Octet(0))) && !Legal(Pair(Octet(0), a))
  {
  }

  /** A buffer two bytes longer than its longwords, both blank, read round and round:
      the cells are legal at every byte but where these two are met. */
  lemma LegalButAtWrap(job: TrackJob, s: seq<Octet>, i: nat)
    requires job.Valid() && Encoded(job, s) && |s| == 4 * job.Longs() + 2 && i < |s|
    requires s[|s| - 2] == s[|s| - 1] == Octet(0)
    ensures Legal(CyclicWindow(s, i)) <==> i + 1 < 4 * job.Longs()
  {
    hide Legal, Pair;
    if i + 1 < 4 * job.Longs() {
      TrackIsLegal(job, s, i);
    } else {
      BlankIsIllegal(s[i]);
      BlankIsIllegal(s[0]);
    }
  }

  predicate IsMark(job: TrackJob, i: nat) {
    exists s: nat | s < job.perTrack :: i == 4 * job.SectorStart(s) + 4 || i == 4 * job.SectorStart(s) + 6
  }

  lemma MarksAreSyncLongs(job: TrackJob, i: nat)
    requires job.Valid() && i < 4 * job.Longs()
    ensures IsMark(job, i) <==> IsSync(job, i / 4) && (i % 4 == 0 || i % 4 == 2)
  {
    var l := i / 4;
    if IsSync(job, l) && (i % 4 == 0 || i % 4 == 2) {
      assert PlaceOf(job, l).s < job.perTrack;
    }
    if IsMark(job, i) {
      var s: nat :| s < job.perTrack && (i == 4 * job.SectorStart(s) + 4 || i == 4 * job.SectorStart(s) + 6);
      assert l - job.GapLongs() == s * SECTOR_LONGS + 1;
    }
  }

  lemma MarkInLong(job: TrackJob, s: seq<Octet>, l: nat, r: nat)
    requires job.Valid() && Encoded(job, s) && r < 4
    requires if r < 3 then l < job.Longs() else l + 1 < job.Longs()
    ensures WindowAt(s, 4 * l + r) == SYNC_MARK <==> IsSync(job, l) && (r == 0 || r == 2)
  {
    hide WindowAt, LongAt, TrackLong, Inside, Across, IsSync, LegalInside;
    ConstantsAreLegal();
    if r < 3 {
      WindowInside(s, l, r);
      LongIsLegal(job, l);
    } else {
      WindowAcross(s, l);
      JointIsLegal(job, l);
      assert LongAt(s, 4 * (l + 1)) == TrackLong(job, l + 1);
    }
  }

  /** The sync mark occurs, at any byte, only as the two marks of a sector. */
  lemma MarksOnlyAtSectors(job: TrackJob, s: seq<Octet>, i: nat)
    requires job.Valid() && Encoded(job, s) && i + 1 < 4 * job.Longs()
    ensures WindowAt(s, i) == SYNC_MARK <==> IsMark(job, i)
  {
    hide *;
    MarksAreSyncLongs(job, i);
    MarkInLong(job, s, i / 4, i % 4);
  }

  // ------------------------------------------------------------ sync search

  /** The search that starts a word-synchronised read: the first byte at which
      the sync word stands, or `len` when there is none. */
  method FindSync(src: array<Octet>, len: nat, sync: Window) returns (found: nat)
    requires len <= src.Length
    ensures found == len || found + 1 < len
    ensures found + 1 < len ==> WindowAt(src[..], found) == sync
    ensures forall i: nat | i < found && i + 1 < len :: WindowAt(src[..], i) != sync
  {
    hide Pair;
    if len < 2 { return len; }
    var i := 0;
    while i + 1 < len
      invariant i < len
      invariant forall k: nat | k < i :: WindowAt(src[..], k) != sync
    {
      if Pair(src[i], src[i + 1]) == sync { return i; }
      i := i + 1;
    }
    return len;
  }

  /** In an encoded track the search stops at the first sector's first mark. */
  lemma FirstMark(job: TrackJob, s: seq<Octet>, i: nat)
    requires job.Valid() && Encoded(job, s) && job.perTrack > 0
    requires i + 1 < |s| && WindowAt(s, i) == SYNC_MARK
    requires forall k: nat | k < i :: WindowAt(s, k) != SYNC_MARK
    ensures i == 4 * job.GapLongs() + 4
  {
    hide WindowAt;
    var first := 4 * job.GapLongs() + 4;
    assert first == 4 * job.SectorStart(0) + 4;
    assert IsMark(job, first);
    MarksOnlyAtSectors(job, s, first);
    MarksOnlyAtSectors(job, s, i);
  }

  /** The last byte before the first mark and the mark's first byte. */
  const EARLY_SYNC := Window(0xAA44)

  lemma GapWindows()
    ensures Inside(GAP, 0) == Inside(GAP, 1) == Inside(GAP, 2) == Across(GAP, GAP) == Window(0xAAAA)
    ensures Across(GAP, SYNC) == EARLY_SYNC != Window(0xAAAA) && !EndsInOne(GAP)
  {
  }

  /** Up to the first sector's own gap longword the track is all gap. */
  lemma {:induction false} LeadIsGap(job: TrackJob, l: nat)
    requires job.Valid() && job.perTrack > 0 && l <= job.GapLongs()
    ensures l + 1 < job.Longs() && TrackLong(job, l) == GAP
    ensures l == job.GapLongs() ==> TrackLong(job, l + 1) == SYNC
  {
    hide EndsInOne, TrackLong;
    GapWindows();
    if l == job.GapLongs() {
      TrackLongInSector(job, 0, 0);
      TrackLongInSector(job, 0, 1);
      if l > 0 { LeadIsGap(job, l - 1); }
    } else {
      TrackLongOutside(job, l);
    }
  }

  /** Searched for 0xAA44 instead, a track is found to start at an odd byte, the one
      before the first mark. */
  lemma EarlySyncIsOdd(job: TrackJob, s: seq<Octet>, i: nat)
    requires job.Valid() && Encoded(job, s) && job.perTrack > 0 && i <= 4 * job.GapLongs() + 3
    ensures i + 1 < |s|
    ensures WindowAt(s, i) == EARLY_SYNC <==> i == 4 * job.GapLongs() + 3
  {
    hide WindowAt, LongAt, TrackLong, Inside, Across;
    var l, r := i / 4, i % 4;
    GapWindows();
    LeadIsGap(job, l);
    assert LongAt(s, 4 * l) == TrackLong(job, l);
    if r < 3 {
      WindowInside(s, l, r);
    } else {
      WindowAcross(s, l);
      assert LongAt(s, 4 * (l + 1)) == TrackLong(job, l + 1);
      if l < job.GapLongs() { LeadIsGap(job, l + 1); }
    }
  }

  // --------------------------------------------------------------- decoding

  /** What a reader learns from a sector. */
  datatype Sector = Sector(track: Octet, number: Octet, toGap: Octet, data: seq<Octet>)

  /** From its sync marks to its end a sector takes all but one longword. */
  const DECODED_BYTES := MFM_SECTOR_BYTES - 4

  /** Longword `j` of the sector whose sync marks are at `at`. */
  function At(s: seq<Octet>, at: nat, j: nat): Long
    requires at + DECODED_BYTES <= |s| && 1 <= j < SECTOR_LONGS
  {
    LongAt(s, at + 4 * (j - 1))
  }

  /** A longword from its odd and even halves. */
  function Join(odd: Long, even: Long): Long {
    Long(((odd.bits & MASK) << 1) | (even.bits & MASK))
  }

  function Octets(v: Long): seq<Octet> {
    [ByteOf(v, 0), ByteOf(v, 1), ByteOf(v, 2), ByteOf(v, 3)]
  }

  function DataLong(s: seq<Octet>, at: nat, i: nat): Long
    requires at + DECODED_BYTES <= |s| && i < 128
  {
    Join(At(s, at, 16 + i), At(s, at, 144 + i))
  }

  function DecodedData(s: seq<Octet>, at: nat, n: nat): (data: seq<Octet>)
    requires at + DECODED_BYTES <= |s| && n <= 128
    ensures |data| == 4 * n
  {
    if n == 0 then [] else DecodedData(s, at, n - 1) + Octets(DataLong(s, at, n - 1))
  }

  /** The reader's checksum: all the data bits, taken where they lie. */
  function DecodedSum(s: seq<Octet>, at: nat, n: nat): Long
    requires at + DECODED_BYTES <= |s| && n <= 128
  {
    if n == 0 then Long(0)
    else Xor(Xor(DecodedSum(s, at, n - 1), EvenBits(At(s, at, 16 + (n - 1)))),
             EvenBits(At(s, at, 144 + (n - 1))))
  }

  function LabelSum(s: seq<Octet>, at: nat, n: nat): Long
    requires at + DECODED_BYTES <= |s| && n <= 10
  {
    if n == 0 then Long(0) else Xor(LabelSum(s, at, n - 1), EvenBits(At(s, at, 2 + (n - 1))))
  }

  /** The sector whose sync marks are at `at`, if both marks are there,
      the format byte is 0xFF, and both checksums hold. */
  function Decode(s: seq<Octet>, at: nat): Option<Sector>
    requires at + DECODED_BYTES <= |s|
  {
    var id := Join(At(s, at, 2), At(s, at, 3));
    var headerSum := Join(At(s, at, 12), At(s, at, 13));
    var dataSum := Join(At(s, at, 14), At(s, at, 15));
    if At(s, at, 1) != SYNC || ByteOf(id, 0) != Octet(0xFF) then None
    else if LabelSum(s, at, 10) != headerSum || DecodedSum(s, at, 128) != dataSum then None
    else Some(Sector(ByteOf(id, 1), ByteOf(id, 2), ByteOf(id, 3), DecodedData(s, at, 128)))
  }

  lemma JoinUndoesSplit(p: Long, q: Long, v: Long)
    ensures Join(Clocked(p, OddBits(v)), Clocked(q, EvenBits(v))) == v
  {
  }

  /** A checksum longword survives although its upper half is clocked away. */
  lemma JoinUndoesHalf(p: Long, q: Long, v: Long)
    requires EvenBits(v) == v
    ensures Join(Clocked(p, Half(v)), Clocked(q, v)) == v
  {
  }

  lemma SplitIsMasked(v: Long)
    ensures EvenBits(OddBits(v)) == OddBits(v) && EvenBits(EvenBits(v)) == EvenBits(v)
  {
  }

  lemma XorIsMasked(v: Long, w: Long)
    requires EvenBits(v) == v && EvenBits(w) == w
    ensures EvenBits(Xor(v, w)) == Xor(v, w)
  {
    assert (v.bits ^ w.bits) & MASK == (v.bits & MASK) ^ (w.bits & MASK);
  }

  lemma ZeroIsMasked()
    ensures EvenBits(Long(0)) == Long(0)
  {
  }

  lemma ZeroOnRight(v: Long)
    ensures Xor(v, Long(0)) == v
  {
  }

  lemma ZeroOnLeft(v: Long)
    ensures Xor(Long(0), v) == v
  {
  }

  lemma {:induction false} ChecksumIsMasked(data: seq<Octet>, n: nat)
    requires 4 * n <= |data|
    ensures EvenBits(DataChecksum(data, n)) == DataChecksum(data, n)
  {
    hide EvenBits, OddBits, Xor, LongAt;
    if n == 0 {
      ZeroIsMasked();
    } else {
      ChecksumIsMasked(data, n - 1);
      var v, sum := LongAt(data, 4 * (n - 1)), DataChecksum(data, n - 1);
      SplitIsMasked(v);
      XorIsMasked(sum, OddBits(v));
      XorIsMasked(Xor(sum, OddBits(v)), EvenBits(v));
    }
  }

  /** The longwords of sector `k` as the reader finds them at `at`. */
  ghost predicate SectorAt(s: seq<Octet>, at: nat, data: seq<Octet>, info: Long) {
    && |data| == SECTOR_BYTES && at + DECODED_BYTES <= |s|
    && forall j: nat | 1 <= j < SECTOR_LONGS :: At(s, at, j) == SectorLong(data, info, j)
  }

  lemma DataDecodes(s: seq<Octet>, at: nat, data: seq<Octet>, info: Long, i: nat)
    requires SectorAt(s, at, data, info) && i < 128
    ensures DataLong(s, at, i) == LongAt(data, 4 * i)
    ensures EvenBits(At(s, at, 16 + i)) == OddBits(LongAt(data, 4 * i))
    ensures EvenBits(At(s, at, 144 + i)) == EvenBits(LongAt(data, 4 * i))
  {
    hide EvenBits, OddBits, Xor, FromBytes, Join, Clocked, DataChecksum, HeaderChecksum, Half;
    var v := LongAt(data, 4 * i);
    var p, q := RawLong(data, info, 15 + i), RawLong(data, info, 143 + i);
    assert SectorLong(data, info, 16 + i) == Clocked(p, OddBits(v));
    assert SectorLong(data, info, 144 + i) == Clocked(q, EvenBits(v));
    JoinUndoesSplit(p, q, v);
    ClockedKeepsData(p, OddBits(v));
    ClockedKeepsData(q, EvenBits(v));
    SplitIsMasked(v);
  }

  lemma OctetsOfLongAt(data: seq<Octet>, i: nat)
    requires 4 * i + 4 <= |data|
    ensures data[..4 * i] + Octets(LongAt(data, 4 * i)) == data[..4 * i + 4]
  {
    hide FromBytes, ByteOf;
    LongRoundTrip(data[4 * i], data[4 * i + 1], data[4 * i + 2], data[4 * i + 3]);
  }

  lemma {:induction false} AllDataDecodes(s: seq<Octet>, at: nat, data: seq<Octet>, info: Long, n: nat)
    requires SectorAt(s, at, data, info) && n <= 128
    ensures DecodedData(s, at, n) == data[..4 * n]
    ensures DecodedSum(s, at, n) == DataChecksum(data, n)
  {
    hide EvenBits, OddBits, Xor, LongAt, DataLong, Octets;
    if n == 0 {
    } else {
      AllDataDecodes(s, at, data, info, n - 1);
      DataDecodes(s, at, data, info, n - 1);
      OctetsOfLongAt(data, n - 1);
    }
  }

  lemma HeaderDecodes(s: seq<Octet>, at: nat, data: seq<Octet>, info: Long)
    requires SectorAt(s, at, data, info)
    ensures At(s, at, 1) == SYNC
    ensures Join(At(s, at, 2), At(s, at, 3)) == info
    ensures Join(At(s, at, 12), At(s, at, 13)) == HeaderChecksum(info)
    ensures Join(At(s, at, 14), At(s, at, 15)) == DataChecksum(data, |data| / 4)
  {
    hide EvenBits, OddBits, Xor, LongAt, Join, Clocked, DataChecksum, Half;
    var sum := DataChecksum(data, |data| / 4);
    assert SectorLong(data, info, 1) == SYNC;
    assert SectorLong(data, info, 2) == Clocked(SYNC, OddBits(info));
    assert SectorLong(data, info, 3) == Clocked(OddBits(info), EvenBits(info));
    JoinUndoesSplit(SYNC, OddBits(info), info);
    SplitIsMasked(info);
    XorIsMasked(OddBits(info), EvenBits(info));
    var header := HeaderChecksum(info);
    assert SectorLong(data, info, 12) == Clocked(Long(0), Half(header));
    assert SectorLong(data, info, 13) == Clocked(Half(header), header);
    JoinUndoesHalf(Long(0), Half(header), header);
    ChecksumIsMasked(data, |data| / 4);
    assert SectorLong(data, info, 14) == Clocked(header, Half(sum));
    assert SectorLong(data, info, 15) == Clocked(Half(sum), sum);
    JoinUndoesHalf(header, Half(sum), sum);
  }

  lemma {:induction false} LabelDecodes(s: seq<Octet>, at: nat, data: seq<Octet>, info: Long, n: nat)
    requires SectorAt(s, at, data, info) && 2 <= n <= 10
    ensures LabelSum(s, at, n) == HeaderChecksum(info)
  {
    hide EvenBits, OddBits, Xor, LongAt, Join, Clocked, DataChecksum, Half;
    if n == 2 {
      SplitIsMasked(info);
      ZeroOnLeft(OddBits(info));
      assert SectorLong(data, info, 2) == Clocked(SYNC, OddBits(info));
      assert SectorLong(data, info, 3) == Clocked(OddBits(info), EvenBits(info));
      ClockedKeepsData(SYNC, OddBits(info));
      ClockedKeepsData(OddBits(info), EvenBits(info));
      assert LabelSum(s, at, 1) == OddBits(info);
    } else {
      LabelDecodes(s, at, data, info, n - 1);
      var j := 2 + (n - 1);
      assert SectorLong(data, info, j) == Clocked(RawLong(data, info, j - 1), Long(0));
      ClockedKeepsData(RawLong(data, info, j - 1), Long(0));
      ZeroIsMasked();
      ZeroOnRight(HeaderChecksum(info));
    }
  }

  /** A sector was read, with this data and these numbers in its header. */
  predicate ReadsAs(read: Option<Sector>, track: int, number: int, toGap: int, data: seq<Octet>) {
    && read.Some?
    && read.value.track.bits as int == track % 256
    && read.value.number.bits as int == number % 256
    && read.value.toGap.bits as int == toGap % 256
    && read.value.data == data
  }

  /** Reading back any sector of an encoded track, or of any stretch of it that
      holds the sector, gives its header fields and every one of its bytes, with
      both checksums in order. */
  lemma SectorRoundTrip(job: TrackJob, s: seq<Octet>, from: nat, to: nat, k: nat)
    requires job.Valid() && Encoded(job, s) && k < job.perTrack
    requires from <= 4 * job.SectorStart(k) + 4 && 4 * job.SectorStart(k) + MFM_SECTOR_BYTES <= to <= |s|
    ensures ReadsAs(Decode(s[from..to], 4 * job.SectorStart(k) + 4 - from),
                    job.track, k, job.perTrack - k, job.SectorData(k))
  {
    hide EvenBits, OddBits, Xor, Join, Clocked, DataChecksum, Half, TrackLong, SectorLong, FromBytes,
      ByteOf, LabelSum, DecodedSum, DecodedData, LowByte;
    var at, data, info := 4 * job.SectorStart(k) + 4 - from, job.SectorData(k), Info(job.track, k, job.perTrack);
    var t := s[from..to];
    forall j: nat | 1 <= j < SECTOR_LONGS
      ensures At(t, at, j) == SectorLong(data, info, j)
    {
      TrackLongInSector(job, k, j);
      var l := job.SectorStart(k) + j;
      assert LongAt(s, 4 * l) == TrackLong(job, l);
      assert from + (at + 4 * (j - 1)) == 4 * l;
    }
    HeaderDecodes(t, at, data, info);
    LabelDecodes(t, at, data, info, 10);
    AllDataDecodes(t, at, data, info, 128);
    LongRoundTrip(Octet(0xFF), LowByte(job.track), LowByte(k), LowByte(job.perTrack - k));
    assert data[..512] == data;
    LowByteValue(job.track);
    LowByteValue(k);
    LowByteValue(job.perTrack - k);
  }
}
