/** The storage objects and the process-wide counters they update. */
module BodyStorageObjects {
  import opened MachineTypes
  import opened BodyStorage

  class Stats {
    var activeDisk: int
    var diskBytes: int
    var activeMemory: int
    var memoryBytes: int
    var diskHits: int
    var memoryHits: int

    ghost function Value(): Counters
      reads this
    {
      Counters(activeDisk, diskBytes, activeMemory, memoryBytes, diskHits, memoryHits)
    }

    constructor ()
      ensures Value() == Counters(0, 0, 0, 0, 0, 0)
    {
      activeDisk, diskBytes, activeMemory, memoryBytes, diskHits, memoryHits := 0, 0, 0, 0, 0, 0;
    }

    method IncrementDiskFiles(size: nat)
      modifies this
      ensures Value() == Opened(old(Value()), Disk, size)
    {
      activeDisk := activeDisk + 1;
      diskBytes := diskBytes + size;
    }

    method DecrementDiskFiles(size: nat)
      modifies this
      ensures Value() == Released(old(Value()), Disk, size)
    {
      activeDisk := activeDisk - 1;
      if activeDisk < 0 {
        activeDisk := 0;
      }
      diskBytes := diskBytes - size;
      if diskBytes < 0 {
        diskBytes := 0;
      }
    }

    method IncrementMemoryBuffers(size: nat)
      modifies this
      ensures Value() == Opened(old(Value()), Memory, size)
    {
      activeMemory := activeMemory + 1;
      memoryBytes := memoryBytes + size;
    }

    method DecrementMemoryBuffers(size: nat)
      modifies this
      ensures Value() == Released(old(Value()), Memory, size)
    {
      activeMemory := activeMemory - 1;
      memoryBytes := memoryBytes - size;
    }

    method CountHit(kind: Kind)
      modifies this
      ensures Value() == Hit(old(Value()), kind)
    {
      if kind == Disk {
        diskHits := diskHits + 1;
      } else {
        memoryHits := memoryHits + 1;
      }
    }
  }

  class MemoryStorage {
    const data: seq<Byte>
    const stats: Stats
    var pos: nat
    var closed: bool

    ghost function Value(): Body
      reads this
    {
      Body(data, pos, closed)
    }

    constructor (stats: Stats, data: seq<Byte>)
      modifies stats
      ensures this.stats == stats && Value() == Body(data, 0, false)
      ensures stats.Value() == Opened(old(stats.Value()), Memory, |data|)
    {
      this.data, this.stats, pos, closed := data, stats, 0, false;
      new;
      stats.IncrementMemoryBuffers(|data|);
    }

    method Read(n: nat) returns (a: Answer)
      modifies this
      ensures (a, Value()) == Do(Memory, old(Value()), Op.Read(n))
    {
      if closed {
        return Answer([], 0, Closed);
      }
      if pos >= |data| {
        return Answer([], 0, EndOfFile);
      }
      var k := Min(n, |data| - pos);
      a := Answer(if k == 0 then [] else data[pos..pos + k], k, None);
      pos := pos + k;
    }

    method Seek(offset: int, whence: Whence) returns (a: Answer)
      requires pos <= MAX_INT && |data| <= MAX_INT && -MAX_INT - 1 <= offset <= MAX_INT
      modifies this
      ensures (a, Value()) == Do(Memory, old(Value()), Op.Seek(offset, whence))
    {
      if closed {
        return Answer([], 0, Closed);
      }
      var target;
      match whence {
        case Start => target := offset;
        case Current => target := Wrap(pos + offset);
        case End => target := Wrap(|data| + offset);
        case Invalid => return Answer([], 0, BadSeek);
      }
      if target < 0 {
        return Answer([], 0, BadSeek);
      }
      pos := target;
      a := Answer([], target, None);
    }

    method Bytes() returns (a: Answer)
      ensures (a, Value()) == Do(Memory, Value(), Op.Bytes)
    {
      a := if closed then Answer([], 0, Closed) else Answer(data, |data|, None);
    }

    method Close()
      modifies this, stats
      ensures Value() == Do(Memory, old(Value()), Op.Close).1
      ensures stats.Value() == if old(closed) then old(stats.Value()) else Released(old(stats.Value()), Memory, |data|)
    {
      if !closed {
        closed := true;
        stats.DecrementMemoryBuffers(|data|);
      }
    }
  }

  class DiskStorage {
    const file: seq<Byte>
    const size: nat
    const stats: Stats
    var pos: nat
    var closed: bool

    ghost predicate Valid() {
      size == |file|
    }

    ghost function Value(): Body
      reads this
    {
      Body(file, pos, closed)
    }

    constructor (stats: Stats, data: seq<Byte>)
      modifies stats
      ensures Valid() && this.stats == stats && Value() == Body(data, 0, false)
      ensures stats.Value() == Opened(old(stats.Value()), Disk, |data|)
    {
      file, size, this.stats, pos, closed := data, |data|, stats, 0, false;
      new;
      stats.IncrementDiskFiles(|data|);
    }

    /** One read of the file. */
    method FileRead(n: nat) returns (a: Answer)
      modifies this`pos
      ensures (a, Value()) == ReadDisk(old(Value()), n)
    {
      if n == 0 {
        return Answer([], 0, None);
      }
      if pos >= |file| {
        return Answer([], 0, EndOfFile);
      }
      var k := Min(Min(n, MAX_READ), |file| - pos);
      a := Answer(file[pos..pos + k], k, None);
      pos := pos + k;
    }

    method Read(n: nat) returns (a: Answer)
      modifies this
      ensures (a, Value()) == Do(Disk, old(Value()), Op.Read(n))
    {
      if closed {
        return Answer([], 0, Closed);
      }
      a := FileRead(n);
    }

    method Seek(offset: int, whence: Whence) returns (a: Answer)
      modifies this
      ensures (a, Value()) == Do(Disk, old(Value()), Op.Seek(offset, whence))
    {
      if closed {
        return Answer([], 0, Closed);
      }
      var target := SeekBase(Body(file, pos, closed), whence) + offset;
      if whence == Invalid || target < 0 || target > MAX_INT {
        return Answer([], 0, BadSeek);
      }
      pos := target;
      a := Answer([], target, None);
    }

    /** io.ReadFull of the file from its start. */
    method ReadAll() returns (data: seq<Byte>)
      requires Valid() && pos == 0
      modifies this`pos
      ensures data == file
    {
      data := [];
      while |data| < size
        invariant pos == |data| <= size
        invariant data == file[..pos]
      {
        var a := FileRead(size - |data|);
        data := data + a.bytes;
      }
    }

    /** Bytes remembers the cursor, reads from the start and puts the cursor back. */
    method Bytes() returns (a: Answer)
      requires Valid()
      modifies this`pos
      ensures Value() == old(Value()) && a == Do(Disk, Value(), Op.Bytes).0
    {
      if closed {
        return Answer([], 0, Closed);
      }
      var saved := pos;
      pos := 0;
      var data := ReadAll();
      pos := saved;
      a := Answer(data, |data|, None);
    }

    method Close()
      requires Valid()
      modifies this, stats
      ensures Value() == Do(Disk, old(Value()), Op.Close).1
      ensures stats.Value() == if old(closed) then old(stats.Value()) else Released(old(stats.Value()), Disk, |file|)
    {
      if !closed {
        closed := true;
        stats.DecrementDiskFiles(size);
      }
    }
  }

  datatype Handle = InMemory(memory: MemoryStorage) | OnDisk(disk: DiskStorage) | Refused(why: Created)

  /** What creating a storage returned, as the model sees it. */
  ghost predicate Matches(h: Handle, r: Created)
    reads if h.InMemory? then {h.memory} else if h.OnDisk? then {h.disk} else {}
  {
    match h
    case InMemory(m) => r == Created(Memory, m.data) && m.Value() == Body(m.data, 0, false)
    case OnDisk(d) => r == Created(Disk, d.file) && d.Valid() && d.Value() == Body(d.file, 0, false)
    case Refused(why) => r == why && !why.Created?
  }

  method CreateBodyStorage(stats: Stats, cfg: Config, data: seq<Byte>, diskOk: bool) returns (h: Handle)
    modifies stats
    ensures Matches(h, Created(KindFor(cfg, old(stats.Value()), |data|, diskOk), data))
    ensures stats.Value() == Opened(old(stats.Value()), KindFor(cfg, old(stats.Value()), |data|, diskOk), |data|)
  {
    if cfg.enabled && |data| >= cfg.threshold && Wrap(stats.diskBytes + |data|) <= cfg.maxBytes && diskOk {
      var d := new DiskStorage(stats, data);
      h := OnDisk(d);
    } else {
      var m := new MemoryStorage(stats, data);
      h := InMemory(m);
    }
  }

  method CreateBodyStorageFromReader(stats: Stats, cfg: Config, x: Input) returns (h: Handle)
    modifies stats
    ensures Matches(h, Create(cfg, old(stats.Value()), x))
    ensures stats.Value() == CountersAfter(old(stats.Value()), Create(cfg, old(stats.Value()), x))
  {
    var data := Limited(x.stream, Wrap(x.maxBytes + 1));
    if cfg.enabled && x.contentLength > 0 && x.contentLength >= cfg.threshold &&
       Wrap(stats.diskBytes + x.contentLength) <= cfg.maxBytes
    {
      if !x.diskOk || !x.readOk {
        return Refused(Failed);
      }
      if |data| > x.maxBytes {
        return Refused(TooLarge);
      }
      var d := new DiskStorage(stats, data);
      stats.CountHit(Disk);
      return OnDisk(d);
    }
    if !x.readOk {
      return Refused(Failed);
    }
    if |data| > x.maxBytes {
      return Refused(TooLarge);
    }
    h := CreateBodyStorage(stats, cfg, data, x.diskOk);
    stats.CountHit(if h.OnDisk? then Disk else Memory);
  }
}
