/** Disk DMA: a track is encoded when the second DSKLEN write starts a transfer,
    then streamed cyclically into chip RAM, one word a granted slot. */
module Disk {
  import opened Arithmetic
  import opened Integers
  import opened Mfm
  import opened MfmTheorems
  import opened Wrappers

  const TRACK_BUFFER := 13630
  const TRACK_BYTES := 5632
  const SECTORS := 11
  const CYLINDERS := 80
  const FAKE_DMA_CYCLES := 46000

  /** The three fields of the DSKLEN register. */
  datatype DskLen = DskLen(dmaen: bool, write: bool, length: Length)
  type Length = x: int | 0 <= x < 0x4000

  datatype Interrupt = DskSyn | DskBlk

  /** A place on the turning track. */
  function Turned(x: nat): (o: nat)
    ensures o < TRACK_BUFFER
  {
    x % TRACK_BUFFER
  }

  lemma TurnedIs(turns: nat, rest: nat)
    requires rest < TRACK_BUFFER
    ensures Turned(turns * TRACK_BUFFER + rest) == rest
  {
    Division(turns, TRACK_BUFFER, rest);
  }

  lemma TurnedParts(x: nat) returns (turns: nat)
    ensures x == turns * TRACK_BUFFER + Turned(x)
  {
    turns := x / TRACK_BUFFER;
  }

  lemma TurnedNext(x: nat, d: nat)
    requires d <= TRACK_BUFFER
    ensures Turned(x + d) == if Turned(x) + d < TRACK_BUFFER then Turned(x) + d else Turned(x) + d - TRACK_BUFFER
  {
    hide Turned;
    var turns := TurnedParts(x);
    if Turned(x) + d < TRACK_BUFFER {
      TurnedIs(turns, Turned(x) + d);
    } else {
      TurnedIs(turns + 1, Turned(x) + d - TRACK_BUFFER);
    }
  }

  lemma TurnedIsEven(x: nat)
    requires x % 2 == 0
    ensures Turned(x) % 2 == 0 && Turned(x) + 1 < TRACK_BUFFER
  {
    hide Turned;
    var turns := TurnedParts(x);
    assert Turned(x) == 2 * (x / 2 - turns * (TRACK_BUFFER / 2));
  }

  /** Where word `k` of a transfer that starts at byte `start` comes from. */
  function SourceOffset(start: nat, k: nat): (o: nat)
    requires start + 1 < TRACK_BUFFER
    ensures o + 1 < TRACK_BUFFER
  {
    if start + 2 * k < TRACK_BUFFER - 1 then start + 2 * k
    else
      var x := if start % 2 == 0 then start + 2 * k else start + 2 * k - (TRACK_BUFFER - 1);
      TurnedIsEven(x);
      Turned(x)
  }

  /** The stream is the track read round and round, except that an odd start
      loses its parity at the end of the buffer: from there on every word is one
      byte off. */
  lemma StreamIsCyclic(start: nat, k: nat)
    requires start + 1 < TRACK_BUFFER
    ensures SourceOffset(start, k) == Turned(start + 2 * k)
       <==> start % 2 == 0 || start + 2 * k < TRACK_BUFFER - 1
  {
    hide Turned;
    var x := start + 2 * k;
    if x < TRACK_BUFFER - 1 {
      TurnedIs(0, x);
    } else if start % 2 == 1 {
      TurnedNext(x - (TRACK_BUFFER - 1), TRACK_BUFFER - 1);
    }
  }

  lemma StreamBegins(start: nat)
    requires start + 1 < TRACK_BUFFER
    ensures SourceOffset(start, 0) == start
  {
  }

  lemma StreamAdvances(start: nat, k: nat)
    requires start + 1 < TRACK_BUFFER
    ensures var next := Turned(SourceOffset(start, k) + 2);
      (if next + 1 >= TRACK_BUFFER then 0 else next) == SourceOffset(start, k + 1)
  {
    hide Turned;
    var x := start + 2 * k;
    var o := SourceOffset(start, k);
    if x < TRACK_BUFFER - 1 {
      if x + 2 < TRACK_BUFFER {
        TurnedIs(0, x + 2);
        if x + 2 == TRACK_BUFFER - 1 { TurnedIs(0, 0); }
      } else {
        TurnedIs(1, 0);
      }
    } else {
      var y := if start % 2 == 0 then x else x - (TRACK_BUFFER - 1);
      TurnedIsEven(y);
      TurnedNext(y, 2);
      TurnedIs(0, if o + 2 < TRACK_BUFFER then o + 2 else 0);
      if o + 2 >= TRACK_BUFFER { TurnedIs(1, 0); }
    }
  }

  class DiskUnit {
    const trackBuf: array<Octet>
    const adf: array<Octet>
    var hasMedia: bool
    var cylinder: nat
    var side: bool
    var dskptr: U32
    var dsklen: DskLen
    var dskdatr: Window
    var byteReady: bool
    var dsksync: Window
    var wordSync: bool
    var dmaActive: bool
    var dmaArmed: bool
    var dmaOn: bool
    var writeMode: bool
    var syncSeen: bool
    var syncFired: bool
    var countdown: U32
    var base: U32
    var bytesTotal: U32
    var bytesDone: U32
    var source: nat
    var trackLen: nat
    var ram: map<U32, Window>
    var raised: seq<Interrupt>

    ghost predicate Valid() {
      trackBuf.Length == TRACK_BUFFER && trackBuf != adf && adf.Length < TWO_32
    }

    /** The two bytes behind the last longword of a track, which nothing writes. */
    predicate EndsBlank()
      requires Valid()
      reads trackBuf
    {
      trackBuf[TRACK_BUFFER - 2] == trackBuf[TRACK_BUFFER - 1] == Octet(0)
    }

    constructor (adf: array<Octet>)
      requires adf.Length < TWO_32
      ensures Valid() && !dmaActive && !dmaArmed && dsksync == SYNC_MARK && this.adf == adf && fresh(trackBuf)
      ensures EndsBlank()
    {
      trackBuf := new Octet[TRACK_BUFFER](_ => Octet(0));
      this.adf, hasMedia, cylinder, side := adf, false, 0, false;
      dskptr, dsklen, dskdatr, byteReady := 0, DskLen(false, false, 0), Window(0), false;
      dsksync, wordSync, dmaActive, dmaArmed, dmaOn := SYNC_MARK, false, false, false, false;
      writeMode, syncSeen, syncFired, countdown := false, false, false, 0;
      base, bytesTotal, bytesDone, source, trackLen := 0, 0, 0, 0, 0;
      ram, raised := map[], [];
    }

    method MaybeEmitSync()
      modifies `syncFired, `raised
      ensures raised == old(raised) + if syncSeen && wordSync && !old(syncFired) then [DskSyn] else []
      ensures syncFired == (old(syncFired) || (syncSeen && wordSync))
    {
      if !syncSeen || !wordSync || syncFired { return; }
      syncFired := true;
      raised := raised + [DskSyn];
    }

    method LoadDskbytr(word: Window)
      modifies `byteReady, `dskdatr
      ensures byteReady && dskdatr == word
    {
      byteReady, dskdatr := true, word;
    }

    function TrackOffset(): nat
      reads `cylinder, `side
    {
      (2 * cylinder + if side then 1 else 0) * TRACK_BYTES % TWO_32
    }

    /** On a disk's eighty cylinders the offset is that of the track's first sector. */
    lemma TrackPlace()
      requires cylinder < CYLINDERS
      ensures var track := 2 * cylinder + if side then 1 else 0;
        && TrackOffset() == SECTOR_BYTES * SECTORS * track && TrackOffset() / TRACK_BYTES == track
        && (Readable() <==> hasMedia && SECTOR_BYTES * SECTORS * (track + 1) <= adf.Length)
    {
      var track := 2 * cylinder + if side then 1 else 0;
      Division(0, TWO_32, track * TRACK_BYTES);
      Division(track, TRACK_BYTES, 0);
    }

    /** A read that finds a whole track on the disk. */
    predicate Readable()
      reads `hasMedia, `cylinder, `side
    {
      hasMedia && TrackOffset() < adf.Length && TRACK_BYTES <= adf.Length - TrackOffset()
    }

    ghost function Job(): TrackJob
      requires Readable()
      reads `hasMedia, `cylinder, `side, adf
    {
      TrackJob(adf[TrackOffset()..TrackOffset() + SECTORS * SECTOR_BYTES],
               TrackOffset() / TRACK_BYTES, SECTORS, TRACK_BUFFER)
    }

    /** The track buffer holds track `track` of the image: eleven sectors, under that number. */
    ghost predicate HoldsTrack(track: nat)
      reads adf, trackBuf
    {
      && 5632 * (track + 1) <= adf.Length
      && var job := TrackJob(adf[5632 * track..5632 * (track + 1)], track, 11, 13630);
         job.Valid() && Encoded(job, trackBuf[..])
    }

    lemma JobIsTrack()
      requires cylinder < CYLINDERS && Readable() && Job().Valid() && Encoded(Job(), trackBuf[..])
      ensures HoldsTrack(2 * cylinder + if side then 1 else 0)
    {
      hide Encoded, TrackOffset;
      TrackPlace();
    }

    /** Whether the sync word stands anywhere in the encoded track. */
    ghost predicate SyncOnTrack()
      requires Valid()
      reads `dsksync, trackBuf
    {
      exists i: nat :: i + 1 < TRACK_BUFFER && WindowAt(trackBuf[..], i) == dsksync
    }

    ghost predicate IsFirstSync(i: nat)
      requires Valid()
      reads `dsksync, trackBuf
    {
      && i + 1 < TRACK_BUFFER && WindowAt(trackBuf[..], i) == dsksync
      && forall j: nat | j < i :: WindowAt(trackBuf[..], j) != dsksync
    }

    /** `k` words into a read of `words` words that began at track byte `start`. */
    ghost predicate Reading(start: nat, words: nat, k: nat)
      requires Valid()
      reads this, trackBuf
    {
      && dmaActive && !dmaArmed && dmaOn && !writeMode && start + 1 < TRACK_BUFFER && k < words < 0x4000
      && bytesTotal == 2 * words && bytesDone == 2 * k && trackLen == TRACK_BUFFER && source < TRACK_BUFFER
      && (if source + 1 >= TRACK_BUFFER then 0 else source) == SourceOffset(start, k)
      && syncSeen == SyncOnTrack() && syncFired == (wordSync && syncSeen)
    }

    /** The second DSKLEN write: a read of a readable track is set up to stream
        from the first sync word when word sync is on, and from byte 0 otherwise.
        Anything else transfers nothing. */
    method StartDma(value: DskLen)
      requires Valid()
      modifies `dsklen, `writeMode, `dmaActive, `dmaArmed, `syncSeen, `syncFired, `byteReady, `countdown, `dmaOn,
        `dskdatr, `base, `bytesTotal, `bytesDone, `source, `trackLen, `raised, trackBuf
      ensures dmaActive && !dmaArmed && dsklen == value && base == dskptr
      ensures old(EndsBlank()) ==> EndsBlank()
      ensures !value.write && value.length > 0 && Readable() ==>
        && Job().Valid() && Encoded(Job(), trackBuf[..]) && Reading(source, value.length, 0)
        && (if wordSync && SyncOnTrack() then IsFirstSync(source) else source == 0)
        && raised == old(raised) + if syncFired then [DskSyn] else []
      ensures var track := 2 * cylinder + if side then 1 else 0;
        !value.write && value.length > 0 && cylinder < CYLINDERS && hasMedia && 5632 * (track + 1) <= adf.Length ==>
          Readable() && HoldsTrack(track)
      ensures value.write || value.length == 0 || !Readable() ==>
        && !WantsService() && bytesTotal == 0 && raised == old(raised)
        && countdown == if value.write || value.length == 0 then 0 else FAKE_DMA_CYCLES
    {
      hide WindowAt, Encoded, SourceOffset, SyncOnTrack, IsFirstSync, Readable, HoldsTrack, Job;
      if cylinder < CYLINDERS { TrackPlace(); }
      ResetControl(value);
      ResetCounters();
      if writeMode || value.length == 0 { return; }
      if !Readable() {
        countdown := FAKE_DMA_CYCLES;
        return;
      }
      StartStream(value.length);
      if cylinder < CYLINDERS { JobIsTrack(); }
    }

    method StartStream(words: nat)
      requires Valid() && Readable() && !syncFired && dmaActive && !dmaArmed && dmaOn && !writeMode
      requires 0 < words < 0x4000 && bytesDone == 0
      modifies `bytesTotal, `trackLen, `byteReady, `dskdatr, `source, `syncSeen, `syncFired, `raised, trackBuf
      ensures old(EndsBlank()) ==> EndsBlank()
      ensures Job().Valid() && Encoded(Job(), trackBuf[..]) && Reading(source, words, 0)
      ensures if wordSync && SyncOnTrack() then IsFirstSync(source) else source == 0
      ensures raised == old(raised) + if syncFired then [DskSyn] else []
    {
      hide WindowAt, Encoded, SourceOffset, SyncOnTrack, IsFirstSync, Readable, Job;
      PrepareStream();
      bytesTotal := 2 * words;
      StreamBegins(source);
    }

    method ResetControl(value: DskLen)
      modifies `dsklen, `writeMode, `dmaActive, `dmaArmed, `syncSeen, `syncFired, `dmaOn
      ensures dmaActive && !dmaArmed && dmaOn && dsklen == value && writeMode == value.write && !syncFired
    {
      dsklen, writeMode := value, value.write;
      dmaActive, dmaArmed, dmaOn := true, false, true;
      syncSeen, syncFired := false, false;
    }

    method ResetCounters()
      modifies `byteReady, `countdown, `dskdatr, `base, `bytesTotal, `bytesDone, `source, `trackLen
      ensures base == dskptr && countdown == 0 && bytesTotal == bytesDone == 0
    {
      byteReady, dskdatr, countdown, base := false, Window(0), 0, dskptr;
      bytesTotal, bytesDone, source, trackLen := 0, 0, 0, 0;
    }

    /** The track is encoded afresh and searched for the sync word. */
    method PrepareStream()
      requires Valid() && Readable() && !syncFired
      modifies `trackLen, `byteReady, `dskdatr, `source, `syncSeen, `syncFired, `raised, trackBuf
      ensures old(EndsBlank()) ==> EndsBlank()
      ensures trackLen == TRACK_BUFFER && Job().Valid() && Encoded(Job(), trackBuf[..])
      ensures source + 1 < TRACK_BUFFER && syncSeen == SyncOnTrack() && syncFired == (wordSync && syncSeen)
      ensures if wordSync && SyncOnTrack() then IsFirstSync(source) else source == 0
      ensures raised == old(raised) + if syncFired then [DskSyn] else []
    {
      hide Encoded, SyncOnTrack, IsFirstSync;
      var ok := EncodeTrack(trackBuf, adf, TrackOffset(), TrackOffset() / TRACK_BYTES, SECTORS);
      trackLen := TRACK_BUFFER;
      LocateSync();
    }

    /** Where the stream begins, and the first sync interrupt. */
    method LocateSync()
      requires Valid() && trackLen == TRACK_BUFFER && !syncFired
      modifies `byteReady, `dskdatr, `source, `syncSeen, `syncFired, `raised
      ensures source + 1 < TRACK_BUFFER && syncSeen == SyncOnTrack() && syncFired == (wordSync && syncSeen)
      ensures if wordSync && SyncOnTrack() then IsFirstSync(source) else source == 0
      ensures SyncOnTrack() ==> byteReady && dskdatr == dsksync
      ensures raised == old(raised) + if syncFired then [DskSyn] else []
    {
      hide WindowAt;
      var sync := FindSync(trackBuf, trackLen, dsksync);
      if sync + 1 < trackLen {
        WordRead(sync);
        LoadDskbytr(Pair(trackBuf[sync], trackBuf[sync + 1]));
        assert IsFirstSync(sync);
      }
      source := if wordSync && sync + 1 < trackLen then sync else 0;
      syncSeen := sync + 1 < trackLen;
      MaybeEmitSync();
    }

    /** A write to DSKLEN: clearing DMAEN disarms and stops; the first write with
        DMAEN only arms; the next one starts. */
    method WriteDskLen(value: DskLen)
      requires Valid()
      modifies `dsklen, `writeMode, `dmaActive, `dmaArmed, `syncSeen, `syncFired, `byteReady, `countdown, `dmaOn,
        `dskdatr, `base, `bytesTotal, `bytesDone, `source, `trackLen, `raised, trackBuf
      ensures dsklen == value
      ensures old(EndsBlank()) ==> EndsBlank()
      ensures !value.dmaen ==> !dmaActive && !dmaArmed && !dmaOn && raised == old(raised)
      ensures value.dmaen && !old(dmaArmed) ==>
        dmaArmed && dmaActive == old(dmaActive) && bytesDone == old(bytesDone) && raised == old(raised)
      ensures value.dmaen && old(dmaArmed) ==> dmaActive && !dmaArmed
      ensures dmaActive && !old(dmaActive) ==> old(dmaArmed) && value.dmaen
      ensures value.dmaen && old(dmaArmed) && !value.write && value.length > 0 && Readable() ==>
        && Job().Valid() && Encoded(Job(), trackBuf[..]) && Reading(source, value.length, 0) && base == dskptr
        && (if wordSync && SyncOnTrack() then IsFirstSync(source) else source == 0)
        && raised == old(raised) + if syncFired then [DskSyn] else []
    {
      if !value.dmaen {
        dsklen, dmaActive, dmaArmed, countdown := value, false, false, 0;
        syncSeen, syncFired, byteReady, dmaOn := false, false, false, false;
        return;
      }
      if !dmaArmed {
        dsklen, dmaArmed := value, true;
        return;
      }
      StartDma(value);
    }

    predicate WantsService()
      reads this
    {
      dmaActive && !writeMode && bytesDone < bytesTotal
    }

    /** One granted disk slot: one word of the stream into chip RAM. */
    method ServiceGrant(ghost start: nat, ghost words: nat, ghost k: nat)
      requires Valid() && (WantsService() ==> Reading(start, words, k))
      modifies `source, `ram, `byteReady, `dskdatr, `syncSeen, `syncFired, `bytesDone, `raised,
        `dmaActive, `dmaArmed, `dmaOn, `dsklen, `dskptr
      ensures !old(WantsService()) ==> unchanged(this)
      ensures old(WantsService()) ==>
        && ram == old(ram)[Slot(base, k) := WindowAt(trackBuf[..], SourceOffset(start, k))]
        && dskdatr == WindowAt(trackBuf[..], SourceOffset(start, k)) && byteReady
        && (k + 1 < words ==> Reading(start, words, k + 1) && raised == old(raised))
        && (k + 1 == words ==> Complete(words) && raised == old(raised) + Closing(old(wordSync && SyncOnTrack())))
    {
      hide WindowAt, SourceOffset, SyncOnTrack;
      if !WantsService() { return; }
      if trackLen < 2 { return; }
      MoveWord();
      StreamAdvances(start, k);
      if bytesDone < bytesTotal { return; }
      FinishRead();
    }

    /** The word under the head goes to memory, and the head moves on. */
    method MoveWord()
      requires Valid() && trackLen == TRACK_BUFFER && source < TRACK_BUFFER && bytesDone + 2 < TWO_32
      requires syncSeen == SyncOnTrack() && syncFired == (wordSync && syncSeen)
      modifies `source, `ram, `byteReady, `dskdatr, `syncSeen, `syncFired, `bytesDone, `raised
      ensures var from := if old(source) + 1 >= TRACK_BUFFER then 0 else old(source);
        && ram == old(ram)[(base + old(bytesDone)) % TWO_32 := WindowAt(trackBuf[..], from)]
        && source == Turned(from + 2) && dskdatr == WindowAt(trackBuf[..], from) && byteReady
      ensures bytesDone == old(bytesDone) + 2 && raised == old(raised)
      ensures syncSeen == SyncOnTrack() && syncFired == (wordSync && syncSeen)
    {
      hide WindowAt, SyncOnTrack;
      var dst := (base + bytesDone) % TWO_32;
      if source + 1 >= trackLen { source := 0; }
      var word := Pair(trackBuf[source], trackBuf[source + 1]);
      WordRead(source);
      ram := ram[dst := word];
      LoadDskbytr(word);
      NoticeSync(word);
      bytesDone := bytesDone + 2;
      source := (source + 2) % trackLen;
    }

    /** A sync word of the track under the head was seen when the read began. */
    method NoticeSync(word: Window)
      requires Valid() && (word == dsksync ==> SyncOnTrack())
      requires syncSeen == SyncOnTrack() && syncFired == (wordSync && syncSeen)
      modifies `syncSeen, `syncFired, `raised
      ensures syncSeen == SyncOnTrack() && syncFired == (wordSync && syncSeen) && raised == old(raised)
    {
      hide SyncOnTrack;
      if word == dsksync {
        syncSeen := true;
        MaybeEmitSync();
      }
    }

    method FinishRead()
      modifies `dmaActive, `dmaArmed, `syncSeen, `syncFired, `dmaOn, `dsklen, `dskptr, `raised
      ensures !dmaActive && !dmaArmed && !dmaOn && !dsklen.dmaen && dskptr == (base + old(bytesTotal)) % TWO_32
      ensures raised == old(raised) + Closing(old(syncSeen && wordSync))
    {
      if syncSeen {
        syncFired := false;
        MaybeEmitSync();
      }
      dmaActive, dmaArmed, syncSeen, syncFired, dmaOn := false, false, false, false, false;
      dsklen := dsklen.(dmaen := false);
      dskptr := (base + bytesTotal) % TWO_32;
      raised := raised + [DskBlk];
    }

    lemma WordRead(i: nat)
      requires Valid() && i + 1 < TRACK_BUFFER
      ensures Pair(trackBuf[i], trackBuf[i + 1]) == WindowAt(trackBuf[..], i)
      ensures WindowAt(trackBuf[..], i) == dsksync ==> SyncOnTrack()
    {
    }

    /** A finished transfer: the pointer is past the data, DMA is off and must be
        armed again. */
    ghost predicate Complete(words: nat)
      reads this
    {
      !dmaActive && !dmaArmed && !dmaOn && !dsklen.dmaen && dskptr == (base + 2 * words) % TWO_32
    }

    /** A run of granted slots. The read ends on exactly the last of its words;
        slots beyond that do nothing. */
    method Serve(grants: nat, ghost start: nat, ghost words: nat)
      requires Valid() && Reading(start, words, 0)
      modifies `source, `ram, `byteReady, `dskdatr, `syncSeen, `syncFired, `bytesDone, `raised,
        `dmaActive, `dmaArmed, `dmaOn, `dsklen, `dskptr
      ensures ram == Filled(old(ram), base, trackBuf[..], start, if grants < words then grants else words)
      ensures grants < words ==> Reading(start, words, grants) && raised == old(raised)
      ensures grants >= words ==> Complete(words) && raised == old(raised) + Closing(wordSync && SyncOnTrack())
    {
      hide WindowAt, SourceOffset, SyncOnTrack;
      for i := 0 to grants
        invariant ram == Filled(old(ram), base, trackBuf[..], start, if i < words then i else words)
        invariant i < words ==> Reading(start, words, i) && raised == old(raised)
        invariant i >= words ==>
          !WantsService() && Complete(words) && raised == old(raised) + Closing(wordSync && SyncOnTrack())
      {
        ServiceGrant(start, words, i);
      }
    }

    /** From the disk image to chip memory: with word sync on the standard mark
        and a read long enough for the track, once the slots have been granted
        every sector can be decoded from the words in memory. */
    method ReadWholeTrack(value: DskLen, grants: nat)
      requires Valid() && dmaArmed && Readable() && wordSync && dsksync == SYNC_MARK
      requires value.dmaen && !value.write && WHOLE_TRACK_WORDS <= value.length <= grants
      modifies this, trackBuf
      ensures Readable() && base == old(dskptr) && Complete(value.length)
      ensures old(EndsBlank()) ==> EndsBlank()
      ensures raised == old(raised) + [DskSyn, DskSyn, DskBlk]
      ensures InMemory(ram, base, WHOLE_TRACK_WORDS)
      ensures var offset := (2 * cylinder + if side then 1 else 0) * TRACK_BYTES % TWO_32;
        forall k: nat | k < SECTORS :: SectorRead(Image(ram, base, WHOLE_TRACK_WORDS), offset, k)
      ensures cylinder < CYLINDERS ==>
        var track := 2 * cylinder + if side then 1 else 0;
        forall k: nat | k < SECTORS :: SectorOfTrack(Image(ram, base, WHOLE_TRACK_WORDS), track, k)
    {
      hide WindowAt, SourceOffset, Decode, Encoded, Filled, SyncOnTrack, IsFirstSync, Image, InMemory, SectorRead,
        SectorOfTrack;
      WriteDskLen(value);
      ghost var start := source;
      SyncStart();
      Serve(grants, start, value.length);
      ImageIsStretch(old(ram), base, trackBuf[..], start, value.length, WHOLE_TRACK_WORDS);
      forall k: nat | k < SECTORS ensures SectorRead(Image(ram, base, WHOLE_TRACK_WORDS), TrackOffset(), k) {
        StretchHoldsSector(k);
      }
      if cylinder < CYLINDERS { InDiskPlaces(Image(ram, base, WHOLE_TRACK_WORDS)); }
    }

    /** Sector `k` of a track that begins at byte `offset` of the disk image decodes from
        where it lies in the words read. */
    ghost predicate SectorRead(image: seq<Octet>, offset: nat, k: nat)
      requires k < SECTORS && |image| == 2 * WHOLE_TRACK_WORDS
      reads adf
    {
      && offset + SECTOR_BYTES * (k + 1) <= adf.Length
      && ReadsAs(Decode(image, MFM_SECTOR_BYTES * k), offset / TRACK_BYTES, k, SECTORS - k,
                 adf[offset + SECTOR_BYTES * k..offset + SECTOR_BYTES * (k + 1)])
    }

    /** Sector `k` of track `track` decodes from the words read: its header says so, and
        its data are the image's 512 bytes of sector `11 * track + k`. */
    ghost predicate SectorOfTrack(image: seq<Octet>, track: nat, k: nat)
      requires k < SECTORS && |image| == 2 * WHOLE_TRACK_WORDS
      reads adf
    {
      var sector := 11 * track + k;
      && 512 * (sector + 1) <= adf.Length
      && ReadsAs(Decode(image, MFM_SECTOR_BYTES * k), track, k, 11 - k, adf[512 * sector..512 * (sector + 1)])
    }

    lemma InDiskPlaces(image: seq<Octet>)
      requires cylinder < CYLINDERS && |image| == 2 * WHOLE_TRACK_WORDS
      requires forall k: nat | k < SECTORS :: SectorRead(image, TrackOffset(), k)
      ensures var track := 2 * cylinder + if side then 1 else 0;
        forall k: nat | k < SECTORS :: SectorOfTrack(image, track, k)
    {
      hide Decode, ReadsAs, TrackOffset;
      var track := 2 * cylinder + if side then 1 else 0;
      TrackPlace();
      forall k: nat | k < SECTORS ensures SectorOfTrack(image, track, k) {
        assert SectorRead(image, TrackOffset(), k);
      }
    }

    /** Where the words of a track, streamed round and round from an even byte, are not
        legal MFM. */
    lemma WrapIsIllegal(i: nat)
      requires Valid() && Readable() && EndsBlank() && Job().Valid() && Encoded(Job(), trackBuf[..]) && i < TRACK_BUFFER
      ensures Legal(CyclicWindow(trackBuf[..], i)) <==> i + 1 < TRACK_BUFFER - 2
    {
      hide Legal, CyclicWindow, Encoded;
      LegalButAtWrap(Job(), trackBuf[..], i);
    }

    lemma SyncStart()
      requires Valid() && Readable() && dsksync == SYNC_MARK && Job().Valid() && Encoded(Job(), trackBuf[..])
      ensures SyncOnTrack()
      ensures forall i: nat | IsFirstSync(i) :: i == FIRST_MARK
    {
      hide WindowAt, Encoded;
      TrackHasMark(Job(), trackBuf[..]);
      forall i: nat | IsFirstSync(i) ensures i == FIRST_MARK {
        FirstMark(Job(), trackBuf[..], i);
      }
    }

    /** A track read with DSKSYNC 0xAA44 streams from an odd byte, and its words past
        the end of the buffer are not the track's. */
    lemma OddStart(k: nat)
      requires Valid() && Readable() && dsksync == EARLY_SYNC && Job().Valid() && Encoded(Job(), trackBuf[..])
      ensures SyncOnTrack()
      ensures forall i: nat :: IsFirstSync(i) <==> i == FIRST_MARK - 1
      ensures SourceOffset(FIRST_MARK - 1, k) == Turned(FIRST_MARK - 1 + 2 * k)
         <==> FIRST_MARK - 1 + 2 * k < TRACK_BUFFER - 1
    {
      hide WindowAt, Encoded, SourceOffset, Turned;
      var job, track, first := Job(), trackBuf[..], FIRST_MARK - 1;
      forall i: nat | i <= first
        ensures WindowAt(track, i) == EARLY_SYNC <==> i == first
      {
        EarlySyncIsOdd(job, track, i);
      }
      assert WindowAt(track, first) == dsksync;
      forall i: nat
        ensures IsFirstSync(i) <==> i == first
      {
      }
      StreamIsCyclic(first, k);
    }

    /** The data of sector `k` of the track lies in the image from its own offset on. */
    lemma SectorOfImage(k: nat)
      requires Readable() && k < SECTORS
      ensures Job().data[k * SECTOR_BYTES..(k + 1) * SECTOR_BYTES]
           == adf[TrackOffset() + SECTOR_BYTES * k..TrackOffset() + SECTOR_BYTES * (k + 1)]
    {
      hide TrackOffset;
      var from := TrackOffset();
      assert adf[from..from + SECTORS * SECTOR_BYTES] == adf[..][from..from + SECTORS * SECTOR_BYTES];
      SliceOfSlice(adf[..], from, SECTORS * SECTOR_BYTES, SECTOR_BYTES * k, SECTOR_BYTES * (k + 1));
    }

    lemma StretchHoldsSector(k: nat)
      requires Valid() && Readable() && Job().Valid() && Encoded(Job(), trackBuf[..]) && k < SECTORS
      ensures SectorRead(trackBuf[FIRST_MARK..FIRST_MARK + 2 * WHOLE_TRACK_WORDS], TrackOffset(), k)
    {
      hide Decode, Encoded, ReadsAs, TrackOffset;
      var track := trackBuf[..];
      SectorRoundTrip(Job(), track, FIRST_MARK, FIRST_MARK + 2 * WHOLE_TRACK_WORDS, k);
      SectorOfImage(k);
      assert track[FIRST_MARK..FIRST_MARK + 2 * WHOLE_TRACK_WORDS]
        == trackBuf[FIRST_MARK..FIRST_MARK + 2 * WHOLE_TRACK_WORDS];
    }
  }

  /** Byte of the first sync mark in a standard track buffer. */
  const FIRST_MARK := 1660

  /** Words from the first sync mark to the end of the last sector. */
  const WHOLE_TRACK_WORDS := 5982

  lemma SliceOfSlice<T>(s: seq<T>, from: nat, n: nat, i: nat, j: nat)
    requires i <= j <= n && from + n <= |s|
    ensures s[from..from + n][i..j] == s[from + i..from + j]
  {
    var outer, inner := s[from..from + n], s[from + i..from + j];
    var nested := outer[i..j];
    forall k: nat | k < j - i
      ensures nested[k] == inner[k]
    {
      assert nested[k] == outer[i + k] == s[from + i + k];
    }
  }

  /** Where word `k` of a transfer goes. */
  function Slot(base: U32, k: nat): U32 {
    (base + 2 * k) % TWO_32
  }

  lemma SlotsDiffer(base: U32, j: nat, k: nat)
    requires j < k < 0x8000
    ensures Slot(base, j) != Slot(base, k)
  {
  }

  /** Memory after the first `n` words of a stream. */
  ghost function Filled(ram: map<U32, Window>, base: U32, track: seq<Octet>, start: nat, n: nat): map<U32, Window>
    requires |track| == TRACK_BUFFER && start + 1 < TRACK_BUFFER
  {
    if n == 0 then ram
    else Filled(ram, base, track, start, n - 1)[Slot(base, n - 1) := WindowAt(track, SourceOffset(start, n - 1))]
  }

  /** Word `k` of the stream is at `base + 2k`, and nothing else has changed. */
  lemma {:induction false} FilledWords(ram: map<U32, Window>, base: U32, track: seq<Octet>, start: nat, n: nat)
    requires |track| == TRACK_BUFFER && start + 1 < TRACK_BUFFER && n <= 0x4000
    ensures var after := Filled(ram, base, track, start, n);
      && (forall k: nat | k < n ::
            Slot(base, k) in after && after[Slot(base, k)] == WindowAt(track, SourceOffset(start, k)))
      && (forall a: U32 | (forall k: nat | k < n :: Slot(base, k) != a) ::
            (a in after <==> a in ram) && (a in ram ==> after[a] == ram[a]))
  {
    hide WindowAt, SourceOffset, Slot;
    if n == 0 {
    } else {
      FilledWords(ram, base, track, start, n - 1);
      forall k: nat | k < n - 1 ensures Slot(base, k) != Slot(base, n - 1) {
        SlotsDiffer(base, k, n - 1);
      }
    }
  }

  ghost predicate InMemory(ram: map<U32, Window>, base: U32, n: nat) {
    forall k: nat | k < n :: Slot(base, k) in ram
  }

  function HighByte(w: Window): Octet { Octet((w.bits >> 8) as bv8) }
  function LowByteOf(w: Window): Octet { Octet((w.bits & 0xFF) as bv8) }

  /** The bytes of `n` words of memory from `base` on. */
  ghost function Image(ram: map<U32, Window>, base: U32, n: nat): (s: seq<Octet>)
    requires InMemory(ram, base, n)
    ensures |s| == 2 * n
  {
    if n == 0 then []
    else
      var w := ram[Slot(base, n - 1)];
      Image(ram, base, n - 1) + [HighByte(w), LowByteOf(w)]
  }

  lemma PairBytes(a: Octet, b: Octet)
    ensures HighByte(Pair(a, b)) == a && LowByteOf(Pair(a, b)) == b
  {
  }

  /** Until the buffer ends, a stream is a stretch of the track. */
  lemma ImageIsStretch(ram: map<U32, Window>, base: U32, track: seq<Octet>, start: nat, words: nat, n: nat)
    requires |track| == TRACK_BUFFER && start + 2 * n <= TRACK_BUFFER && n <= words < 0x4000 && start + 1 < TRACK_BUFFER
    ensures InMemory(Filled(ram, base, track, start, words), base, n)
    ensures Image(Filled(ram, base, track, start, words), base, n) == track[start..start + 2 * n]
  {
    hide WindowAt, Image, Filled, Slot, SourceOffset;
    FilledWords(ram, base, track, start, words);
    StretchByWords(Filled(ram, base, track, start, words), base, track, start, n);
  }

  lemma OffsetInBuffer(start: nat, k: nat)
    requires start + 2 * k + 1 < TRACK_BUFFER
    ensures SourceOffset(start, k) == start + 2 * k
  {
  }

  lemma TwoMore<T>(s: seq<T>, from: nat, to: nat)
    requires from <= to && to + 2 <= |s|
    ensures s[from..to + 2] == s[from..to] + [s[to], s[to + 1]]
  {
  }

  lemma ImageGrows(ram: map<U32, Window>, base: U32, n: nat, a: Octet, b: Octet)
    requires InMemory(ram, base, n) && Slot(base, n) in ram && ram[Slot(base, n)] == Pair(a, b)
    ensures InMemory(ram, base, n + 1) && Image(ram, base, n + 1) == Image(ram, base, n) + [a, b]
  {
    hide HighByte, LowByteOf, Pair, Slot;
    PairBytes(a, b);
  }

  lemma {:induction false} StretchByWords(after: map<U32, Window>, base: U32, track: seq<Octet>, start: nat, n: nat)
    requires |track| == TRACK_BUFFER && start + 2 * n <= TRACK_BUFFER && start + 1 < TRACK_BUFFER
    requires forall k: nat | k < n ::
      Slot(base, k) in after && after[Slot(base, k)] == WindowAt(track, SourceOffset(start, k))
    ensures InMemory(after, base, n) && Image(after, base, n) == track[start..start + 2 * n]
  {
    hide Slot, SourceOffset;
    if n == 0 {
    } else {
      hide Image, InMemory;
      var before, to := n - 1, start + 2 * (n - 1);
      StretchByWords(after, base, track, start, before);
      OffsetInBuffer(start, before);
      ImageGrows(after, base, before, track[to], track[to + 1]);
      TwoMore(track, start, to);
    }
  }

  lemma TrackHasMark(job: TrackJob, s: seq<Octet>)
    requires job.Valid() && Encoded(job, s) && job.perTrack > 0
    ensures exists i: nat :: i + 1 < |s| && WindowAt(s, i) == SYNC_MARK
  {
    hide WindowAt;
    var first := 4 * job.SectorStart(0) + 4;
    assert IsMark(job, first);
    MarksOnlyAtSectors(job, s, first);
    assert WindowAt(s, first) == SYNC_MARK;
  }

  /** What a finishing read raises: the sync interrupt again, then the block one. */
  function Closing(synced: bool): seq<Interrupt> {
    if synced then [DskSyn, DskBlk] else [DskBlk]
  }
}
