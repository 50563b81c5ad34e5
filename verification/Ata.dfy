/** The ATA channel: the register file, the programmed-I/O data phases over one
    transfer buffer, and the disk behind it. */
module Ata {
  import opened Integers

  const BUFFER_SIZE := 256 * 2048
  const SECTOR_SIZE := 512
  const PACKET_SIZE := 12

  const READY := 0x40
  const READY_DRQ := 0x48
  const READY_ERR := 0x41
  const ABORTED := 0x04

  const IDENTIFY_DEVICE := 0xEC
  const IDENTIFY_PACKET := 0xA1
  const PACKET := 0xA0
  const DEVICE_RESET := 0x08
  const READ_SECTORS := 0x20
  const WRITE_SECTORS := 0x30
  const SET_FEATURES := 0xEF

  datatype State = Idle | Identify | AtapiCommand | AtapiDataIn | DataIn | DataOut

  /** One call of the disk's write function, and whether it failed. */
  datatype DiskWrite = DiskWrite(lba: nat, count: nat, data: seq<U8>, failed: bool)

  /** The CD layer's answer to a packet. */
  datatype Reply = Reply(failed: bool, data: seq<U8>)

  /** How the devices behind the channel answer for a while: whether disk calls
      fail, and what the CD layer says to each packet. */
  datatype World = World(diskReadFails: bool, diskWriteFails: bool, cd: seq<U8> -> Reply) {
    /** The CD layer keeps within the buffer it is offered. */
    ghost predicate Valid() {
      forall packet: seq<U8> :: |cd(packet).data| <= BUFFER_SIZE
    }
  }

  /** The registers the host sets up a command in. */
  datatype Registers = Registers(features: U8, sectorCount: U8, lbaLow: U8, lbaMid: U8, lbaHigh: U8,
                                 devHead: U8)
  {
    function Lba(): (lba: nat)
      ensures lba < 0x1000_0000
    {
      devHead % 16 * 0x100_0000 + lbaHigh * 0x1_0000 + lbaMid * 0x100 + lbaLow
    }

    /** A sector count of zero means 256. */
    function Count(): (count: nat)
      ensures 0 < count <= 256
    {
      if sectorCount > 0 then sectorCount else 256
    }

    predicate Slave() {
      devHead / 16 % 2 == 1
    }
  }

  lemma AddressSplits(regs: Registers, lba: nat)
    requires lba < 0x1000_0000
    requires regs.lbaLow == lba % 0x100 && regs.lbaMid == lba / 0x100 % 0x100
      && regs.lbaHigh == lba / 0x100 / 0x100 % 0x100
    requires regs.devHead == 0xE0 + lba / 0x100 / 0x100 / 0x100
    ensures regs.Lba() == lba && !regs.Slave()
  {
    var mid := lba / 0x100;
    var high := mid / 0x100;
    var top := high / 0x100;
    assert lba == 0x100 * mid + regs.lbaLow && mid == 0x100 * high + regs.lbaMid && high == 0x100 * top + regs.lbaHigh;
    assert top < 16 && regs.devHead == 14 * 16 + top;
    assert regs.devHead % 16 == top && regs.devHead / 16 == 14;
  }

  lemma CountWraps(regs: Registers, count: nat)
    requires 0 < count <= 256 && regs.sectorCount == count % 256
    ensures regs.Count() == count
  {
  }

  const AFTER_RESET := Registers(0, 0, 0, 0x14, 0xEB, 0)

  /** The device-select bit, which survives a device reset. */
  function DevBit(regs: Registers): U8 {
    if regs.Slave() then 0x10 else 0
  }

  /** The set-up registers after a command. A CD signs itself as a packet device
      when asked to identify as a disk, and puts the byte count of its
      identification, and the interrupt reason, where the host looks for them. */
  function AfterCommand(regs: Registers, command: U8, diskPresent: bool): Registers {
    if !regs.Slave() then
      if !diskPresent then regs.(lbaMid := 0, lbaHigh := 0)
      else if command == DEVICE_RESET then AFTER_RESET.(devHead := 0, lbaMid := 0, lbaHigh := 0)
      else regs
    else if command == DEVICE_RESET then AFTER_RESET.(devHead := 0x10)
    else if command == IDENTIFY_DEVICE then regs.(lbaMid := 0x14, lbaHigh := 0xEB)
    else if command == IDENTIFY_PACKET then regs.(lbaMid := SECTOR_SIZE % 256, lbaHigh := SECTOR_SIZE / 256)
    else if command == PACKET then regs.(sectorCount := 1)
    else regs
  }

  /** What the device register reads as. */
  function HeadRead(devHead: U8): U8 {
    (if devHead / 64 % 2 == 1 then 0xE0 else 0xA0) + devHead % 32
  }

  /** The device register reads as it was written with bits 5 and 7 set, and its bit 4
      selects the device. */
  lemma HeadBits(regs: Registers)
    ensures var h, read := regs.devHead, HeadRead(regs.devHead);
      read % 32 == h % 32 && read / 32 % 2 == 1 && read / 64 % 2 == h / 64 % 2 && read / 128 == 1
    ensures regs.Slave() <==> regs.devHead % 32 >= 16
  {
  }

  /** A write to one of registers 1 to 6; the others hold nothing. */
  function Poked(regs: Registers, reg: U8, value: U8): Registers {
    if reg == 1 then regs.(features := value)
    else if reg == 2 then regs.(sectorCount := value)
    else if reg == 3 then regs.(lbaLow := value)
    else if reg == 4 then regs.(lbaMid := value)
    else if reg == 5 then regs.(lbaHigh := value)
    else if reg == 6 then regs.(devHead := value)
    else regs
  }

  /** The bytes of a run of sectors. */
  function Sectors(disk: seq<U8>, lba: nat, count: nat): (data: seq<U8>)
    requires SECTOR_SIZE * (lba + count) <= |disk|
    ensures |data| == SECTOR_SIZE * count
  {
    disk[SECTOR_SIZE * lba..SECTOR_SIZE * (lba + count)]
  }

  /** A disk with a run of sectors replaced. */
  function Replaced(disk: seq<U8>, lba: nat, data: seq<U8>): (after: seq<U8>)
    requires SECTOR_SIZE * lba + |data| <= |disk|
    ensures |after| == |disk|
  {
    disk[..SECTOR_SIZE * lba] + data + disk[SECTOR_SIZE * lba + |data|..]
  }

  /** What replacing sectors means: they read back as written, and every other
      byte of the disk stays. */
  lemma ReplacedReadsBack(disk: seq<U8>, lba: nat, count: nat, data: seq<U8>)
    requires |data| == SECTOR_SIZE * count && SECTOR_SIZE * (lba + count) <= |disk|
    ensures Sectors(Replaced(disk, lba, data), lba, count) == data
    ensures forall i: nat | i < |disk| && !(SECTOR_SIZE * lba <= i < SECTOR_SIZE * (lba + count)) ::
      Replaced(disk, lba, data)[i] == disk[i]
  {
  }

  /** A disk write of whole sectors that exist. */
  predicate Fits(w: DiskWrite, size: nat) {
    |w.data| == SECTOR_SIZE * w.count && SECTOR_SIZE * (w.lba + w.count) <= size
  }

  predicate AllFit(writes: seq<DiskWrite>, size: nat) {
    forall i: nat | i < |writes| :: Fits(writes[i], size)
  }

  /** The disk after some writes: those that did not fail, in order. */
  function Applied(disk: seq<U8>, writes: seq<DiskWrite>): (after: seq<U8>)
    requires AllFit(writes, |disk|)
    ensures |after| == |disk|
  {
    if writes == [] then disk
    else
      var last := writes[|writes| - 1];
      var before := Applied(disk, writes[..|writes| - 1]);
      if last.failed then before else Replaced(before, last.lba, last.data)
  }

  lemma NoWrites(disk: seq<U8>)
    ensures AllFit([], |disk|) && Applied(disk, []) == disk
  {
  }

  lemma AppliedAppend(disk: seq<U8>, writes: seq<DiskWrite>, last: DiskWrite)
    requires Fits(last, |disk|) && AllFit(writes, |disk|)
    ensures AllFit(writes + [last], |disk|)
    ensures var before := Applied(disk, writes);
      Applied(disk, writes + [last]) == if last.failed then before else Replaced(before, last.lba, last.data)
  {
    hide Replaced;
    var all := writes + [last];
    assert all[..|writes|] == writes && all[|writes|] == last;
  }

  /** The bytes of a run of data words: the high byte of a word comes first. */
  function Bytes(words: seq<U16>): (bytes: seq<U8>)
    ensures |bytes| == 2 * |words|
    ensures forall i: nat | i < |words| :: bytes[2 * i] == words[i] / 256 && bytes[2 * i + 1] == words[i] % 256
  {
    seq(2 * |words|, i requires 0 <= i < 2 * |words| => if i % 2 == 0 then words[i / 2] / 256 else words[i / 2] % 256)
  }

  lemma BytesAppend(words: seq<U16>, word: U16)
    ensures Bytes(words + [word]) == Bytes(words) + Bytes([word])
  {
    hide Bytes;
    var all := words + [word];
    forall i: nat | i < 2 * |all|
      ensures Bytes(all)[i] == (Bytes(words) + Bytes([word]))[i]
    {
      var k := i / 2;
      assert i == 2 * k || i == 2 * k + 1;
      assert all[k] == if k < |words| then words[k] else word;
    }
  }

  function Join(high: U8, low: U8): U16 {
    var word: U16 := high;
    word * 256 + low
  }

  function WordAt(bytes: seq<U8>, i: nat): U16
    requires 2 * i + 1 < |bytes|
  {
    Join(bytes[2 * i], bytes[2 * i + 1])
  }

  lemma WordsReadBack(words: seq<U16>, i: nat)
    requires i < |words|
    ensures WordAt(Bytes(words), i) == words[i]
  {
  }

  datatype Access = DataRead(reg: U8) | RegisterWrite(reg: U8, value: U8) | DataWrite(reg: U8, word: U16)

  class Channel {
    var regs: Registers
    var error: U8
    var status: U8
    var state: State
    const buffer: array<U8>
    var length: nat
    var position: nat
    const packet: array<U8>
    var packetPosition: nat
    var writeLba: nat
    var writeCount: nat

    // The devices behind the channel.
    const diskPresent: bool
    const diskWritable: bool
    const sectors: nat
    var disk: seq<U8>
    var world: World
    var diskWrites: seq<DiskWrite>
    const cdPresent: bool
    const identifyDisk: seq<U8>
    const identifyCd: seq<U8>

    /** Whether a data phase towards the host is on. */
    predicate Sending()
      reads `state
    {
      state == Identify || state == AtapiDataIn || state == DataIn
    }

    /** What holds of the channel in every reachable state: the transfer stays in
        the buffer, and a pending disk write is of whole sectors of the disk. */
    ghost predicate Valid()
      reads this
    {
      && buffer.Length == BUFFER_SIZE && packet.Length == PACKET_SIZE && buffer != packet
      && |disk| == SECTOR_SIZE * sectors && |identifyDisk| == |identifyCd| == SECTOR_SIZE
      && position <= length <= BUFFER_SIZE && packetPosition <= PACKET_SIZE && packetPosition % 2 == 0
      && (Sending() || state == DataOut ==> position < length && position % 2 == 0)
      && (state == Identify || state == DataIn || state == DataOut ==> length % 2 == 0)
      && (state == DataOut ==>
            diskWritable && 0 < writeCount <= 256 && writeLba + writeCount <= sectors
              && length == SECTOR_SIZE * writeCount)
    }

    predicate InRange()
      reads `regs
    {
      regs.Lba() + regs.Count() <= sectors && regs.Count() * SECTOR_SIZE <= BUFFER_SIZE
    }

    constructor (diskPresent: bool, diskWritable: bool, sectors: nat, disk: seq<U8>, cdPresent: bool, world: World,
                 identifyDisk: seq<U8>, identifyCd: seq<U8>)
      requires |disk| == SECTOR_SIZE * sectors && |identifyDisk| == |identifyCd| == SECTOR_SIZE
      ensures Valid() && state == Idle && this.disk == disk && diskWrites == []
      ensures fresh(buffer) && fresh(packet)
    {
      buffer, packet := new U8[BUFFER_SIZE](_ => 0), new U8[PACKET_SIZE](_ => 0);
      this.diskPresent, this.diskWritable, this.sectors, this.disk := diskPresent, diskWritable, sectors, disk;
      this.cdPresent, this.world, this.identifyDisk, this.identifyCd := cdPresent, world, identifyDisk, identifyCd;
      diskWrites := [];
      error, status, regs := 1, READY, AFTER_RESET;
      state, length, position, packetPosition, writeLba, writeCount := Idle, 0, 0, 0, 0, 0;
    }

    method Reset()
      requires Valid()
      modifies `regs, `error, `status
      modifies `state, `length, `position, `packetPosition
      ensures Valid() && state == Idle && length == position == packetPosition == 0
      ensures error == 1 && status == READY && regs == AFTER_RESET
    {
      error, status, regs := 1, READY, AFTER_RESET;
      state, length, position, packetPosition := Idle, 0, 0, 0;
    }

    method Abort()
      modifies `error, `status
      ensures error == ABORTED && status == READY_ERR
    {
      error, status := ABORTED, READY_ERR;
    }

    /** Fills the start of the transfer buffer. */
    method Load(data: seq<U8>)
      requires Valid() && |data| <= BUFFER_SIZE
      modifies buffer
      ensures buffer[..|data|] == data
    {
      for i := 0 to |data|
        invariant buffer[..i] == data[..i]
      {
        buffer[i] := data[i];
        assert buffer[..i + 1] == buffer[..i] + [data[i]];
      }
    }

    /** A command for the disk. A command that fails reports the error and leaves
        any data phase that was on as it was. */
    method ExecuteDiskCommand(command: U8)
      requires Valid()
      modifies `regs, `error, `status
      modifies `state, `length, `position, `packetPosition, `writeLba, `writeCount, buffer
      ensures Valid()
      ensures regs ==
        if command == DEVICE_RESET then AFTER_RESET.(devHead := DevBit(old(regs)), lbaMid := 0, lbaHigh := 0)
        else old(regs)
      ensures command == DEVICE_RESET ==> state == Idle && status == READY && error == 1
      ensures command == SET_FEATURES ==>
        && status == READY && error == 0
        && SameTransfer(old(state), old(length), old(position), old(writeLba), old(writeCount))
        && buffer[..] == old(buffer[..])
      ensures command == IDENTIFY_DEVICE ==>
        && state == DataIn && status == READY_DRQ && error == 0 && length == SECTOR_SIZE && position == 0
        && buffer[..length] == identifyDisk
      ensures command == READ_SECTORS && old(InRange()) && !world.diskReadFails ==>
        && state == DataIn && status == READY_DRQ && error == 0 && length == SECTOR_SIZE * old(regs.Count())
        && position == 0
        && buffer[..length] == Sectors(disk, old(regs.Lba()), old(regs.Count()))
      ensures command == WRITE_SECTORS && old(InRange()) && diskWritable ==>
        && state == DataOut && status == READY_DRQ && error == 0 && length == SECTOR_SIZE * old(regs.Count())
        && position == 0
        && writeLba == old(regs.Lba()) && writeCount == old(regs.Count())
      ensures (if command == READ_SECTORS then !old(InRange()) || world.diskReadFails
               else if command == WRITE_SECTORS then !old(InRange()) || !diskWritable
               else command !in {DEVICE_RESET, IDENTIFY_DEVICE, SET_FEATURES}) ==>
        && status == READY_ERR && error == ABORTED
        && SameTransfer(old(state), old(length), old(position), old(writeLba), old(writeCount))
        && buffer[..] == old(buffer[..])
    {
      hide Sectors;
      if command == DEVICE_RESET {
        var dev := DevBit(regs);
        Reset();
        regs := regs.(devHead := dev, lbaMid := 0, lbaHigh := 0);
      } else if command == IDENTIFY_DEVICE {
        Load(identifyDisk);
        length, position, state, status, error := SECTOR_SIZE, 0, DataIn, READY_DRQ, 0;
      } else if command == SET_FEATURES {
        status, error := READY, 0;
      } else if command == READ_SECTORS || command == WRITE_SECTORS {
        StartSectors(command);
      } else {
        Abort();
      }
    }

    method StartSectors(command: U8)
      requires Valid() && (command == READ_SECTORS || command == WRITE_SECTORS)
      modifies `error, `status, `state, `length, `position, `writeLba, `writeCount, buffer
      ensures Valid()
      ensures command == READ_SECTORS && InRange() && !world.diskReadFails ==>
        && state == DataIn && status == READY_DRQ && error == 0 && length == SECTOR_SIZE * regs.Count() && position == 0
        && buffer[..length] == Sectors(disk, regs.Lba(), regs.Count())
      ensures command == WRITE_SECTORS && InRange() && diskWritable ==>
        && state == DataOut && status == READY_DRQ && error == 0 && length == SECTOR_SIZE * regs.Count()
        && position == 0
        && writeLba == regs.Lba() && writeCount == regs.Count()
      ensures !InRange() || (if command == READ_SECTORS then world.diskReadFails else !diskWritable) ==>
        && status == READY_ERR && error == ABORTED
        && SameTransfer(old(state), old(length), old(position), old(writeLba), old(writeCount))
        && buffer[..] == old(buffer[..])
    {
      hide Sectors, Registers.Lba, Registers.Count;
      var lba, count := regs.Lba(), regs.Count();
      if lba + count > sectors || count * SECTOR_SIZE > BUFFER_SIZE {
        Abort();
      } else if command == READ_SECTORS {
        if world.diskReadFails {
          Abort();
        } else {
          Load(Sectors(disk, lba, count));
          length, position, state, status, error := count * SECTOR_SIZE, 0, DataIn, READY_DRQ, 0;
        }
      } else if !diskWritable {
        Abort();
      } else {
        writeLba, writeCount := lba, count;
        length, position, state, status, error := count * SECTOR_SIZE, 0, DataOut, READY_DRQ, 0;
      }
    }

    predicate SameTransfer(state: State, length: nat, position: nat, writeLba: nat, writeCount: nat)
      reads this
    {
      this.state == state && this.length == length && this.position == position
      && this.writeLba == writeLba && this.writeCount == writeCount
    }

    /** A command for the selected device; without a disk, device 0 aborts every
        command and keeps its data phase. */
    method ExecuteCommand(command: U8)
      requires Valid()
      modifies `regs, `error, `status
      modifies `state, `length, `position, `packetPosition, `writeLba, `writeCount, buffer
      ensures Valid()
      ensures !old(regs.Slave()) && diskPresent && command == READ_SECTORS && old(InRange()) && !world.diskReadFails ==>
        && state == DataIn && status == READY_DRQ && error == 0 && length == SECTOR_SIZE * old(regs.Count())
        && position == 0
        && buffer[..length] == Sectors(disk, old(regs.Lba()), old(regs.Count()))
      ensures !old(regs.Slave()) && diskPresent && command == WRITE_SECTORS && old(InRange()) && diskWritable ==>
        && state == DataOut && status == READY_DRQ && error == 0 && length == SECTOR_SIZE * old(regs.Count())
        && position == 0
        && writeLba == old(regs.Lba()) && writeCount == old(regs.Count())
      ensures old(regs.Slave()) && command == IDENTIFY_PACKET ==>
        state == Identify && status == READY_DRQ && length == SECTOR_SIZE && position == 0
          && buffer[..length] == identifyCd
      ensures old(regs.Slave()) && command == PACKET ==>
        state == AtapiCommand && status == READY_DRQ && packetPosition == 0
      ensures old(regs.Slave()) && command == DEVICE_RESET ==> state == Idle && status == READY && error == 1
      ensures old(regs.Slave()) && command in {IDENTIFY_PACKET, PACKET} ==> error == 0
      ensures regs == AfterCommand(old(regs), command, diskPresent)
      ensures (if old(regs.Slave()) then command !in {DEVICE_RESET, IDENTIFY_PACKET, PACKET} else !diskPresent) ==>
        status == READY_ERR && SameTransfer(old(state), old(length), old(position), old(writeLba), old(writeCount))
        && buffer[..] == old(buffer[..])
    {
      if !regs.Slave() {
        if diskPresent {
          ExecuteDiskCommand(command);
        } else {
          regs := regs.(lbaMid := 0, lbaHigh := 0);
          Abort();
        }
      } else if command == DEVICE_RESET {
        var dev := DevBit(regs);
        Reset();
        regs := regs.(devHead := dev);
      } else if command == IDENTIFY_DEVICE {
        regs := regs.(lbaMid := 0x14, lbaHigh := 0xEB);
        Abort();
      } else if command == IDENTIFY_PACKET {
        Load(identifyCd);
        length, position, state, status, error := SECTOR_SIZE, 0, Identify, READY_DRQ, 0;
        regs := regs.(lbaMid := 0, lbaHigh := 2);
      } else if command == PACKET {
        state, packetPosition, status, error := AtapiCommand, 0, READY_DRQ, 0;
        regs := regs.(sectorCount := 1);
      } else {
        Abort();
      }
    }

    /** How the channel stands once the CD layer has answered a packet. */
    ghost predicate Answered(reply: Reply)
      requires Valid()
      reads this, buffer
    {
      if !cdPresent then state == AtapiCommand && status == READY_ERR && error == ABORTED
      else if reply.failed || reply.data == [] then
        && state == Idle && status == (if reply.failed then READY_ERR else READY) && regs.sectorCount == 3
        && (reply.failed ==> error == ABORTED)
      else
        && state == AtapiDataIn && status == READY_DRQ && error == 0 && position == 0 && buffer[..length] == reply.data
        && regs.sectorCount == 2 && regs.lbaHigh * 256 + regs.lbaMid
          == (if |reply.data| > 0xFFFE then 0xFFFE else |reply.data|)
    }

    /** An answer with data opens a data phase that announces its length. */
    method SendReply(data: seq<U8>)
      requires Valid() && 0 < |data| <= BUFFER_SIZE
      modifies `regs, `error, `status, `state, `length, `position, buffer
      ensures Valid() && state == AtapiDataIn && status == READY_DRQ && error == 0 && position == 0
        && buffer[..length] == data
      ensures regs.sectorCount == 2
        && regs.lbaHigh * 256 + regs.lbaMid == if |data| > 0xFFFE then 0xFFFE else |data|
    {
      Load(data);
      length, position, state, status, error := |data|, 0, AtapiDataIn, READY_DRQ, 0;
      var bytes := if length > 0xFFFE then 0xFFFE else length;
      regs := regs.(lbaMid := bytes % 256, lbaHigh := bytes / 256, sectorCount := 2);
    }

    /** A whole packet has arrived: the CD layer answers, with no more data than
        the buffer holds. */
    method ExecutePacket()
      requires Valid() && state == AtapiCommand && |world.cd(packet[..]).data| <= BUFFER_SIZE
      modifies `regs, `error, `status, `state, `length, `position, buffer
      ensures Valid() && Answered(world.cd(old(packet[..])))
    {
      if !cdPresent {
        Abort();
        return;
      }
      var reply := world.cd(packet[..]);
      if reply.failed || |reply.data| == 0 {
        state := Idle;
        status := if reply.failed then READY_ERR else READY;
        if reply.failed { error := ABORTED; }
        regs := regs.(sectorCount := 3);
      } else {
        SendReply(reply.data);
      }
    }

    // ---------------------------------------------------- the register accesses

    function Read8(reg: U8): U8
      reads this
    {
      if reg == 1 then error
      else if reg == 2 then regs.sectorCount
      else if reg == 3 then regs.lbaLow
      else if reg == 4 then regs.lbaMid
      else if reg == 5 then regs.lbaHigh
      else if reg == 6 then HeadRead(regs.devHead)
      else if reg == 7 then status
      else 0xFF
    }

    /** Reading the data register takes the next word of a data phase towards the
        host, and its last word ends the phase. */
    method Read16(reg: U8) returns (word: U16)
      requires Valid()
      modifies `regs, `status, `state, `length, `position
      ensures Valid()
      ensures reg != 0 ==> word == old(Read8(reg))
      ensures (reg == 1 ==> word == error) && (reg == 7 ==> word == old(status)) && (reg > 7 ==> word == 0xFF)
      ensures reg != 0 || !old(Sending()) || old(position + 1 >= length) ==>
        && (reg == 0 ==> word == 0xFFFF) && status == old(status)
        && state == old(state) && length == old(length) && position == old(position)
      ensures reg == 0 && old(Sending()) && old(position + 1 < length) ==>
        && word == Join(buffer[old(position)], buffer[old(position) + 1])
        && (if old(position) + 2 < old(length)
              then position == old(position) + 2 && state == old(state) && length == old(length)
                && status == old(status)
              else state == Idle && status == READY && length == position == 0)
      ensures regs ==
        if reg == 0 && old(state) == AtapiDataIn && state == Idle then old(regs).(sectorCount := 3) else old(regs)
    {
      if reg != 0 { return Read8(reg); }
      if Sending() {
        if position + 1 < length {
          word := Join(buffer[position], buffer[position + 1]);
          position := position + 2;
          if position >= length {
            if state == AtapiDataIn { regs := regs.(sectorCount := 3); }
            state, status, length, position := Idle, READY, 0, 0;
          }
          return;
        }
      }
      return 0xFFFF;
    }

    /** Writing a register: only the command register starts or ends a transfer. */
    method Write8(reg: U8, value: U8)
      requires Valid()
      modifies `regs, `error, `status
      modifies `state, `length, `position, `packetPosition, `writeLba, `writeCount, buffer
      ensures Valid()
      ensures reg != 7 ==> SameTransfer(old(state), old(length), old(position), old(writeLba), old(writeCount))
      ensures reg != 7 ==> buffer[..] == old(buffer[..]) && status == old(status) && error == old(error)
      ensures reg != 7 ==> regs == Poked(old(regs), reg, value)
      ensures (2 <= reg <= 5 ==> Read8(reg) == value) && (reg == 6 ==> Read8(reg) == HeadRead(value))
      ensures
        (reg == 7 && !old(regs.Slave()) && diskPresent && value == READ_SECTORS && old(InRange())
         && !world.diskReadFails) ==>
        && state == DataIn && length == SECTOR_SIZE * old(regs.Count()) && position == 0
        && buffer[..length] == Sectors(disk, old(regs.Lba()), old(regs.Count()))
      ensures
        (reg == 7 && !old(regs.Slave()) && diskPresent && value == WRITE_SECTORS && old(InRange())
         && diskWritable) ==>
        && state == DataOut && length == SECTOR_SIZE * old(regs.Count()) && position == 0
        && writeLba == old(regs.Lba()) && writeCount == old(regs.Count())
    {
      match reg {
        case 1 => regs := regs.(features := value);
        case 2 => regs := regs.(sectorCount := value);
        case 3 => regs := regs.(lbaLow := value);
        case 4 => regs := regs.(lbaMid := value);
        case 5 => regs := regs.(lbaHigh := value);
        case 6 => regs := regs.(devHead := value);
        case 7 => ExecuteCommand(value);
        case _ =>
      }
    }

    /** Writing the data register. During a disk write the word joins the buffer,
        and the last word writes the disk, once, where the command said. */
    method Write16(reg: U8, value: U16)
      requires Valid() && world.Valid()
      modifies `disk, `diskWrites, `regs, `error, `status
      modifies `state, `length, `position, `packetPosition, `writeLba, `writeCount, buffer, packet
      ensures Valid()
      ensures !(reg == 0 && old(state) == DataOut && old(position) + 2 == old(length)) ==>
        disk == old(disk) && diskWrites == old(diskWrites)
      ensures reg == 0 && old(state) == DataOut ==> var data := old(buffer[..position]) + Bytes([value]);
        if old(position) + 2 < old(length) then
          && SameTransfer(DataOut, old(length), old(position) + 2, old(writeLba), old(writeCount))
          && buffer[..position] == data
          && status == old(status)
        else
          && state == Idle && length == position == 0
          && diskWrites == old(diskWrites) + [DiskWrite(old(writeLba), old(writeCount), data, world.diskWriteFails)]
          && disk == (if world.diskWriteFails then old(disk) else Replaced(old(disk), old(writeLba), data))
          && status == (if world.diskWriteFails then READY_ERR else READY)
      ensures reg == 0 && old(state) == AtapiCommand && old(packetPosition) < PACKET_SIZE ==>
        && packetPosition == old(packetPosition) + 2
        && packet[..packetPosition] == old(packet[..packetPosition]) + Bytes([value])
        && (if packetPosition < PACKET_SIZE then state == AtapiCommand else Answered(world.cd(packet[..])))
    {
      hide Bytes, Answered, Replaced;
      if reg != 0 {
        Write8(reg, value % 256);
        return;
      }
      if state == DataOut {
        PutDiskWord(value);
      } else if state == AtapiCommand && packetPosition < PACKET_SIZE {
        PutPacketWord(value);
      }
    }

    method PutDiskWord(value: U16)
      requires Valid() && state == DataOut
      modifies `disk, `diskWrites, `state, `length, `position, `status, `error, buffer
      ensures Valid()
      ensures var data := old(buffer[..position]) + Bytes([value]);
        if old(position) + 2 < old(length) then
          && SameTransfer(DataOut, old(length), old(position) + 2, old(writeLba), old(writeCount))
          && buffer[..position] == data
          && status == old(status) && disk == old(disk) && diskWrites == old(diskWrites)
        else
          && state == Idle && length == position == 0
          && diskWrites == old(diskWrites) + [DiskWrite(old(writeLba), old(writeCount), data, world.diskWriteFails)]
          && disk == (if world.diskWriteFails then old(disk) else Replaced(old(disk), old(writeLba), data))
          && status == (if world.diskWriteFails then READY_ERR else READY)
    {
      hide Replaced;
      buffer[position], buffer[position + 1] := value / 256, value % 256;
      assert buffer[..position + 2] == old(buffer[..position]) + Bytes([value]);
      position := position + 2;
      if position >= length {
        FlushWrite();
      }
    }

    /** A word of a packet; the sixth completes it. */
    method PutPacketWord(value: U16)
      requires Valid() && state == AtapiCommand && packetPosition < PACKET_SIZE
      requires world.Valid()
      modifies `regs, `error, `status, `state, `length, `position, `packetPosition, buffer, packet
      ensures Valid() && packetPosition == old(packetPosition) + 2
      ensures packet[..packetPosition] == old(packet[..packetPosition]) + Bytes([value])
      ensures packetPosition < PACKET_SIZE ==> state == AtapiCommand && status == old(status)
      ensures packetPosition == PACKET_SIZE ==> Answered(world.cd(packet[..]))
    {
      packet[packetPosition] := value / 256;
      packetPosition := packetPosition + 1;
      if packetPosition < PACKET_SIZE {
        packet[packetPosition] := value % 256;
        packetPosition := packetPosition + 1;
      }
      assert packet[..packetPosition] == old(packet[..packetPosition]) + Bytes([value]);
      if packetPosition >= PACKET_SIZE {
        assert packet[..] == packet[..packetPosition];
        ExecutePacket();
      }
    }

    /** The disk's write function, called with the latched sectors. */
    method FlushWrite()
      requires state == DataOut && position == length == SECTOR_SIZE * writeCount && writeLba + writeCount <= sectors
      requires buffer.Length == BUFFER_SIZE && length <= BUFFER_SIZE && |disk| == SECTOR_SIZE * sectors
      modifies `disk, `diskWrites, `state, `length, `position, `status, `error
      ensures state == Idle && length == position == 0 && |disk| == SECTOR_SIZE * sectors
      ensures var data := old(buffer[..length]);
        && diskWrites == old(diskWrites) + [DiskWrite(writeLba, writeCount, data, world.diskWriteFails)]
        && disk == (if world.diskWriteFails then old(disk) else Replaced(old(disk), writeLba, data))
      ensures if world.diskWriteFails then status == READY_ERR && error == ABORTED else status == READY && error == 0
    {
      var data := buffer[..length];
      diskWrites := diskWrites + [DiskWrite(writeLba, writeCount, data, world.diskWriteFails)];
      if !world.diskWriteFails { disk := Replaced(disk, writeLba, data); }
      state, length, position := Idle, 0, 0;
      status := if world.diskWriteFails then READY_ERR else READY;
      error := if world.diskWriteFails then ABORTED else 0;
    }

    // ------------------------------------------------------- whole transfers

    ghost predicate HostCan(lba: nat, count: nat)
      reads this
    {
      Valid() && diskPresent && 0 < count <= 256 && lba + count <= sectors && lba < 0x1000_0000
      && world.Valid()
    }

    /** The host selects the disk, a first sector and a count. */
    method SetUp(lba: nat, count: nat)
      requires HostCan(lba, count)
      modifies `regs, `error, `status, `state, `length, `position, `packetPosition, `writeLba, `writeCount, buffer
      ensures HostCan(lba, count) && regs.Lba() == lba && regs.Count() == count && !regs.Slave()
    {
      hide Valid, SameTransfer;
      var mid := lba / 0x100;
      var high := mid / 0x100;
      Write8(2, count % 256);
      Write8(3, lba % 0x100);
      Write8(4, mid % 0x100);
      Write8(5, high % 0x100);
      Write8(6, 0xE0 + high / 0x100);
      AddressSplits(regs, lba);
      CountWraps(regs, count);
    }

    /** Writes sectors. Between data words the host may write any register but the
        command register: the disk is written once, where the command said. */
    method HostWrite(lba: nat, count: nat, words: seq<U16>, pokes: seq<(U8, U8)>)
      requires HostCan(lba, count) && diskWritable && |words| == |pokes| == 256 * count
      requires forall i: nat | i < |pokes| :: pokes[i].0 != 7
      modifies `disk, `diskWrites, `regs, `error, `status
      modifies `state, `length, `position, `packetPosition, `writeLba, `writeCount, buffer, packet
      ensures HostCan(lba, count) && state == Idle
      ensures diskWrites == old(diskWrites) + [DiskWrite(lba, count, Bytes(words), world.diskWriteFails)]
      ensures disk == if world.diskWriteFails then old(disk) else Replaced(old(disk), lba, Bytes(words))
      ensures status == if world.diskWriteFails then READY_ERR else READY
    {
      hide Bytes, Replaced, Sectors;
      SetUp(lba, count);
      Write8(7, WRITE_SECTORS);
      assert words[..0] == [] && buffer[..0] == [];
      for i := 0 to |words|
        invariant HostCan(lba, count)
        invariant i < |words| ==>
          && SameTransfer(DataOut, SECTOR_SIZE * count, 2 * i, lba, count) && buffer[..position] == Bytes(words[..i])
          && disk == old(disk) && diskWrites == old(diskWrites)
        invariant i == |words| ==>
          && state == Idle && status == (if world.diskWriteFails then READY_ERR else READY)
          && diskWrites == old(diskWrites) + [DiskWrite(lba, count, Bytes(words), world.diskWriteFails)]
          && disk == (if world.diskWriteFails then old(disk) else Replaced(old(disk), lba, Bytes(words)))
      {
        BytesAppend(words[..i], words[i]);
        assert words[..i + 1] == words[..i] + [words[i]];
        Write8(pokes[i].0, pokes[i].1);
        Write16(0, words[i]);
        assert i + 1 == |words| ==> words[..i + 1] == words;
      }
    }

    lemma WordInBuffer(n: nat, i: nat)
      requires n <= buffer.Length && 2 * i + 1 < n
      ensures WordAt(buffer[..n], i) == Join(buffer[2 * i], buffer[2 * i + 1])
    {
    }

    /** Reads sectors, whatever registers the host writes between the words. */
    method HostRead(lba: nat, count: nat, pokes: seq<(U8, U8)>) returns (words: seq<U16>)
      requires HostCan(lba, count) && !world.diskReadFails && |pokes| == 256 * count
      requires forall i: nat | i < |pokes| :: pokes[i].0 != 7
      modifies `regs, `error, `status, `state, `length, `position, `packetPosition, `writeLba, `writeCount, buffer
      ensures HostCan(lba, count) && state == Idle && status == READY
      ensures |words| == 256 * count
      ensures forall i: nat | i < |words| :: words[i] == WordAt(Sectors(disk, lba, count), i)
    {
      hide Sectors, WordAt, Join;
      SetUp(lba, count);
      Write8(7, READ_SECTORS);
      words := [];
      for i := 0 to 256 * count
        invariant HostCan(lba, count) && |words| == i
        invariant i < 256 * count ==>
          state == DataIn && length == SECTOR_SIZE * count && position == 2 * i
            && buffer[..length] == Sectors(disk, lba, count)
        invariant i == 256 * count ==> state == Idle && status == READY
        invariant forall k: nat | k < i :: words[k] == WordAt(Sectors(disk, lba, count), k)
      {
        Write8(pokes[i].0, pokes[i].1);
        WordInBuffer(length, i);
        var word := Read16(0);
        words := words + [word];
      }
    }

    /** Sectors written are the sectors read. */
    method RoundTrip(lba: nat, count: nat, words: seq<U16>, writePokes: seq<(U8, U8)>, readPokes: seq<(U8, U8)>)
        returns (back: seq<U16>)
      requires HostCan(lba, count) && diskWritable && !world.diskWriteFails && !world.diskReadFails
      requires |words| == |writePokes| == |readPokes| == 256 * count
      requires forall i: nat | i < |words| :: writePokes[i].0 != 7 && readPokes[i].0 != 7
      modifies `disk, `diskWrites, `regs, `error, `status
      modifies `state, `length, `position, `packetPosition, `writeLba, `writeCount, buffer, packet
      ensures back == words
      ensures |diskWrites| == |old(diskWrites)| + 1
      ensures forall i: nat | i < |old(disk)| && !(SECTOR_SIZE * lba <= i < SECTOR_SIZE * (lba + count)) ::
        i < |disk| && disk[i] == old(disk[i])
    {
      HostWrite(lba, count, words, writePokes);
      ReplacedReadsBack(old(disk), lba, count, Bytes(words));
      back := HostRead(lba, count, readPokes);
      forall i: nat | i < |words|
        ensures back[i] == words[i]
      {
        WordsReadBack(words, i);
      }
    }

    /** Reads of the data register through a data phase, as many as the host likes:
        they give the phase's words in order, and end it if and only if it has an even
        number of bytes and they are enough. A phase of odd length, which only a CD
        answer can have, waits for ever at its last byte. */
    method ReadPhase(times: nat) returns (words: seq<U16>)
      requires Valid() && Sending() && position == 0
      modifies `regs, `status, `state, `length, `position
      ensures Valid() && |words| == times
      ensures forall i: nat | i < times ::
        words[i] == if 2 * i + 1 < old(length) then WordAt(buffer[..old(length)], i) else 0xFFFF
      ensures state == Idle <==> old(length) % 2 == 0 && 2 * times >= old(length)
      ensures state != Idle ==>
        state == old(state) && length == old(length) && position == if 2 * times < length then 2 * times else length - 1
    {
      hide WordAt;
      words := [];
      for i := 0 to times
        invariant Valid() && |words| == i
        invariant forall k: nat | k < i ::
          words[k] == if 2 * k + 1 < old(length) then WordAt(buffer[..old(length)], k) else 0xFFFF
        invariant state == Idle <==> old(length) % 2 == 0 && 2 * i >= old(length)
        invariant state != Idle ==>
          state == old(state) && length == old(length) && position == if 2 * i < length then 2 * i else length - 1
      {
        if 2 * i + 1 < old(length) { WordInBuffer(old(length), i); }
        var word := Read16(0);
        words := words + [word];
      }
    }

    /** Any accesses at all, in any order, while the devices answer as they like from
        one access to the next: the channel stays within its buffer, and the disk is
        what the disk writes that did not fail made of it, each of them whole sectors
        of the disk. */
    method Run(accesses: seq<Access>, worlds: seq<World>)
      requires Valid() && |worlds| == |accesses| && forall i: nat | i < |worlds| :: worlds[i].Valid()
      modifies this, buffer, packet
      ensures Valid() && old(diskWrites) <= diskWrites
      ensures AllFit(diskWrites[|old(diskWrites)|..], |old(disk)|)
      ensures disk == Applied(old(disk), diskWrites[|old(diskWrites)|..])
    {
      hide Replaced, Bytes, Fits, AllFit, SameTransfer;
      assert AllFit([], |disk|) by { NoWrites(disk); }
      assert diskWrites[|diskWrites|..] == [];
      assert Applied(disk, []) == disk by { NoWrites(disk); }
      ghost var before := |diskWrites|;
      for i := 0 to |accesses|
        invariant Valid() && old(diskWrites) <= diskWrites && before == |old(diskWrites)|
        invariant AllFit(diskWrites[before..], |old(disk)|)
        invariant disk == Applied(old(disk), diskWrites[before..])
      {
        world := worlds[i];
        match accesses[i]
        case DataRead(reg) => var word := Read16(reg);
        case RegisterWrite(reg, value) => Write8(reg, value);
        case DataWrite(reg, value) => RunWrite(reg, value, old(disk), before);
      }
    }

    method RunWrite(reg: U8, value: U16, ghost start: seq<U8>, ghost before: nat)
      requires Valid() && world.Valid() && before <= |diskWrites| && |start| == |disk|
      requires AllFit(diskWrites[before..], |start|)
      requires disk == Applied(start, diskWrites[before..])
      modifies `disk, `diskWrites, `regs, `error, `status
      modifies `state, `length, `position, `packetPosition, `writeLba, `writeCount, buffer, packet
      ensures Valid() && old(diskWrites) <= diskWrites
      ensures AllFit(diskWrites[before..], |start|)
      ensures disk == Applied(start, diskWrites[before..])
    {
      hide Replaced, Bytes, SameTransfer, Applied, AllFit, Answered;
      ghost var writes := diskWrites;
      Write16(reg, value);
      if diskWrites != writes {
        ghost var last := diskWrites[|writes|];
        assert diskWrites[before..] == writes[before..] + [last];
        AppliedAppend(start, writes[before..], last);
      }
    }
  }
}
