/** The storage objects themselves: a reader or a file, a closed flag and the shared counters, changed in place. */
module BodyObjects {
  import opened Seqs
  import opened BodyStorage
  import opened BodyCache

  class Counters {
    var stats: Stats

    constructor ()
      ensures stats == Stats(0, 0, 0, 0, 0, 0)
    {
      stats := Stats(0, 0, 0, 0, 0, 0);
    }

    method DecrementDiskFiles(size: nat)
      modifies this
      ensures stats == DropDisk(old(stats), size)
    {
      stats := stats.(diskFiles := stats.diskFiles - 1);
      if stats.diskFiles < 0 {
        stats := stats.(diskFiles := 0);
      }
      stats := stats.(diskBytes := stats.diskBytes - size);
      if stats.diskBytes < 0 {
        stats := stats.(diskBytes := 0);
      }
    }
  }

  class MemoryStorage {
    const data: Bytes
    var pos: nat
    var closed: bool
    const counters: Counters

    function State(): Memory
      reads this
    {
      Memory(data, pos, closed)
    }

    constructor (data: Bytes, counters: Counters)
      modifies counters
      ensures State() == Memory(data, 0, false) && this.counters == counters
      ensures counters.stats == AddMemory(old(counters.stats), |data|)
    {
      this.data, pos, closed, this.counters := data, 0, false, counters;
      new;
      counters.stats := AddMemory(counters.stats, |data|);
    }

    method ReadBytes(len: nat) returns (out: Outcome)
      modifies this`pos
      ensures (State(), out) == MemoryStep(old(State()), Read(len))
    {
      if closed {
        return Got([], Some(StorageClosed));
      }
      if pos >= |data| {
        return Got([], Some(EndOfFile));
      }
      var n := Min(len, |data| - pos);
      out := Got(data[pos..pos + n], None);
      pos := pos + n;
    }

    method SeekTo(offset: int, whence: int) returns (out: Outcome)
      modifies this`pos
      ensures (State(), out) == MemoryStep(old(State()), Seek(offset, whence))
    {
      if closed {
        return At(0, Some(StorageClosed));
      }
      var abs;
      if whence == 0 {
        abs := offset;
      } else if whence == 1 {
        abs := pos + offset;
      } else if whence == 2 {
        abs := |data| + offset;
      } else {
        return At(0, Some(InvalidSeek));
      }
      if abs < 0 {
        return At(0, Some(InvalidSeek));
      }
      pos := abs;
      out := At(abs, None);
    }

    method CloseStorage()
      modifies this`closed, counters
      ensures State() == MemoryStep(old(State()), Close).0
      ensures counters.stats == if old(closed) then old(counters.stats) else DropMemory(old(counters.stats), |data|)
    {
      if !closed {
        closed := true;
        counters.stats := DropMemory(counters.stats, |data|);
      }
    }

    method AllBytes() returns (out: Outcome)
      ensures (State(), out) == MemoryStep(State(), GetBytes)
    {
      if closed {
        return Got([], Some(StorageClosed));
      }
      out := Got(data, None);
    }
  }

  /** An open file of the operating system. */
  class OsFile {
    var content: Bytes
    var offset: nat
    var present: bool

    function State(): File
      reads this
    {
      File(content, offset, present)
    }

    constructor (data: Bytes)
      ensures State() == File(data, 0, true)
    {
      content, offset, present := data, 0, true;
    }

    method ReadInto(len: nat) returns (out: Outcome)
      modifies this`offset
      ensures (State(), out) == FileRead(old(State()), len)
    {
      if len == 0 {
        return Got([], None);
      }
      if offset >= |content| {
        return Got([], Some(EndOfFile));
      }
      var n := Min(len, |content| - offset);
      out := Got(content[offset..offset + n], None);
      offset := offset + n;
    }

    method SeekTo(target: int, whence: int) returns (out: Outcome)
      modifies this`offset
      ensures (State(), out) == FileSeek(old(State()), target, whence)
    {
      if !(0 <= whence <= 2) {
        return At(0, Some(InvalidSeek));
      }
      var abs := if whence == 0 then target else if whence == 1 then offset + target else |content| + target;
      if abs < 0 {
        return At(0, Some(InvalidSeek));
      }
      offset := abs;
      out := At(abs, None);
    }
  }

  class DiskStorage {
    const file: OsFile
    const size: nat
    var closed: bool
    const counters: Counters

    function State(): Disk
      reads this, file
    {
      Disk(file.State(), size, closed)
    }

    constructor (data: Bytes, counters: Counters)
      modifies counters
      ensures State() == Disk(File(data, 0, true), |data|, false) && this.counters == counters
      ensures fresh(file)
      ensures counters.stats == AddDisk(old(counters.stats), |data|)
    {
      var written := new OsFile(data);
      file, size, closed, this.counters := written, |data|, false, counters;
      new;
      counters.stats := AddDisk(counters.stats, |data|);
    }

    method ReadBytes(len: nat) returns (out: Outcome)
      modifies file
      ensures (State(), out) == DiskStep(old(State()), Read(len))
    {
      hide FileRead;
      if closed {
        return Got([], Some(StorageClosed));
      }
      out := file.ReadInto(len);
    }

    method SeekTo(offset: int, whence: int) returns (out: Outcome)
      modifies file
      ensures (State(), out) == DiskStep(old(State()), Seek(offset, whence))
    {
      hide FileSeek;
      if closed {
        return At(0, Some(StorageClosed));
      }
      out := file.SeekTo(offset, whence);
    }

    method CloseStorage()
      modifies this`closed, file, counters
      ensures State() == DiskStep(old(State()), Close).0
      ensures counters.stats == if old(closed) then old(counters.stats) else DropDisk(old(counters.stats), size)
    {
      if !closed {
        closed := true;
        file.present := false;
        counters.DecrementDiskFiles(size);
      }
    }

    /** Remembers the position, reads the file from its start and goes back. */
    method AllBytes() returns (out: Outcome)
      modifies file
      ensures (State(), out) == DiskStep(old(State()), GetBytes)
    {
      hide FileRead, FileSeek;
      if closed {
        return Got([], Some(StorageClosed));
      }
      var current := file.SeekTo(0, 1);
      CurrentIsPosition(old(file.State()));
      var _ := file.SeekTo(0, 0);
      var data := Got([], None);
      if size > 0 {
        data := file.ReadInto(size);
        if data.failure.Some? {
          return Got([], data.failure);
        }
        if |data.data| < size {
          return Got([], Some(ShortFile));
        }
      }
      var _ := file.SeekTo(current.position, 0);
      out := Got(data.data, None);
    }
  }

  lemma CurrentIsPosition(f: File)
    ensures FileSeek(f, 0, 1).1 == At(f.offset, None)
  {
  }

  datatype Handle = MemoryHandle(memory: MemoryStorage) | DiskHandle(disk: DiskStorage)

  /** The storage a body of these bytes gets, and what it does to the counters. */
  method CreateBodyStorage(config: Config, counters: Counters, data: Bytes, diskWorks: bool) returns (h: Handle)
    modifies counters
    ensures counters.stats == Create(Cache(config, old(counters.stats), []), data, diskWorks).stats
    ensures match h
            case MemoryHandle(m) => fresh(m) && m.State() == Memory(data, 0, false)
            case DiskHandle(d) => fresh(d) && fresh(d.file) && d.State() == Disk(File(data, 0, true), |data|, false)
    ensures h.DiskHandle? <==> diskWorks && GoesToDisk(Cache(config, old(counters.stats), []), |data|)
  {
    hide Wrap;
    var size, threshold := |data|, config.thresholdMB * MEGABYTE;
    if config.enabled && size >= threshold && Available(Cache(config, counters.stats, []), size) && diskWorks {
      var d := new DiskStorage(data, counters);
      return DiskHandle(d);
    }
    var m := new MemoryStorage(data, counters);
    return MemoryHandle(m);
  }
}
