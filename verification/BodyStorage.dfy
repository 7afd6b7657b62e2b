/** Request bodies in memory or on disk behind one interface: what the two implementations answer, call by call. */
module BodyStorage {
  import opened Seqs

  type Bytes = seq<bv8>

  datatype Failure = StorageClosed | EndOfFile | InvalidSeek | ShortFile

  /** Calls of the interface; reads give the length of their buffer. */
  datatype Call = Read(len: nat) | Seek(offset: int, whence: int) | GetBytes | GetSize | Close

  /** A read returns bytes and perhaps a failure; a seek returns the new position. */
  datatype Outcome =
    | Got(data: Bytes, failure: Option<Failure>)
    | At(position: int, failure: Option<Failure>)
    | Size(bytes: int)
    | Done

  function Min(a: int, b: int): int {
    if a < b then a else b
  }

  // ---------------------------------------------------------------- memory: a bytes.Reader

  datatype Memory = Memory(data: Bytes, pos: nat, closed: bool)

  /** `bytes.Reader.Read` reports the end before it looks at the buffer. */
  function ReaderRead(data: Bytes, pos: nat, len: nat): (nat, Outcome) {
    if pos >= |data| then (pos, Got([], Some(EndOfFile)))
    else var n := Min(len, |data| - pos); (pos + n, Got(data[pos..pos + n], None))
  }

  function ReaderSeek(data: Bytes, pos: nat, offset: int, whence: int): (nat, Outcome) {
    if whence !in {0, 1, 2} then (pos, At(0, Some(InvalidSeek))) else
      var abs := if whence == 0 then offset else if whence == 1 then pos + offset else |data| + offset;
      if abs < 0 then (pos, At(0, Some(InvalidSeek))) else (abs, At(abs, None))
  }

  function MemoryStep(m: Memory, c: Call): (Memory, Outcome) {
    match c
    case Read(len) =>
      if m.closed then (m, Got([], Some(StorageClosed)))
      else var (pos, out) := ReaderRead(m.data, m.pos, len); (m.(pos := pos), out)
    case Seek(offset, whence) =>
      if m.closed then (m, At(0, Some(StorageClosed)))
      else var (pos, out) := ReaderSeek(m.data, m.pos, offset, whence); (m.(pos := pos), out)
    case GetBytes =>
      if m.closed then (m, Got([], Some(StorageClosed))) else (m, Got(m.data, None))
    case GetSize => (m, Size(|m.data|))
    case Close => (m.(closed := true), Done)
  }

  // ---------------------------------------------------------------- disk: an os.File

  datatype File = File(content: Bytes, offset: nat, present: bool)

  datatype Disk = Disk(file: File, size: nat, closed: bool)

  /** `os.File.Read`: an empty buffer reads nothing; no byte for a nonempty buffer is the end of the file. */
  function FileRead(f: File, len: nat): (r: (File, Outcome))
    ensures r.1.Got?
  {
    var n := if f.offset >= |f.content| then 0 else Min(len, |f.content| - f.offset);
    if len == 0 then (f, Got([], None))
    else if n == 0 then (f, Got([], Some(EndOfFile)))
    else (f.(offset := f.offset + n), Got(f.content[f.offset..f.offset + n], None))
  }

  /** `lseek` with the three portable origins. */
  function FileSeek(f: File, offset: int, whence: int): (File, Outcome) {
    var target := match whence case 0 => offset case 1 => f.offset + offset case _ => |f.content| + offset;
    if !(0 <= whence <= 2) || target < 0 then (f, At(0, Some(InvalidSeek)))
    else (f.(offset := target), At(target, None))
  }

  /** `io.ReadFull`: the whole buffer, or a failure. */
  function FileReadFull(f: File, len: nat): (File, Outcome) {
    if len == 0 then (f, Got([], None)) else
      var (f', out) := FileRead(f, len);
      if out.failure.Some? then (f', out)
      else if |out.data| < len then (f', Got([], Some(ShortFile)))
      else (f', out)
  }

  /** Remember the position, read from the start, and go back. The three seeks are to positions that exist, so
      without input or output errors only the read can fail; it then leaves the file where it stopped. */
  function DiskBytes(f: File, size: nat): (File, Outcome) {
    var (f1, current) := FileSeek(f, 0, 1);
    var (f2, _) := FileSeek(f1, 0, 0);
    var (f3, all) := FileReadFull(f2, size);
    if all.failure.Some? then (f3, Got([], all.failure)) else
      var (f4, _) := FileSeek(f3, current.position, 0);
      (f4, Got(all.data, None))
  }

  function DiskStep(d: Disk, c: Call): (Disk, Outcome) {
    match c
    case Read(len) =>
      if d.closed then (d, Got([], Some(StorageClosed)))
      else var (f, out) := FileRead(d.file, len); (d.(file := f), out)
    case Seek(offset, whence) =>
      if d.closed then (d, At(0, Some(StorageClosed)))
      else var (f, out) := FileSeek(d.file, offset, whence); (d.(file := f), out)
    case GetBytes =>
      if d.closed then (d, Got([], Some(StorageClosed)))
      else var (f, out) := DiskBytes(d.file, d.size); (d.(file := f), out)
    case GetSize => (d, Size(d.size))
    case Close =>
      if d.closed then (d, Done) else (d.(closed := true, file := d.file.(present := false)), Done)
  }

  // ---------------------------------------------------------------- observational equality

  /** The same body, position and state, and a file written in full. */
  ghost predicate Alike(m: Memory, d: Disk) {
    m.data == d.file.content && m.pos == d.file.offset && m.closed == d.closed && d.size == |d.file.content|
  }

  /** Reading everything from disk returns the body and leaves the read position where it was. */
  lemma DiskBytesWhole(f: File)
    ensures DiskBytes(f, |f.content|) == (f, Got(f.content, None))
  {
    var (f2, _) := FileSeek(f, 0, 0);
    assert f.content[0..|f.content|] == f.content;
  }

  /** The two reads differ only for an empty buffer at or past the end. */
  lemma ReadAlikeIff(m: Memory, d: Disk, len: nat)
    requires Alike(m, d) && !m.closed
    ensures MemoryStep(m, Read(len)).1 == DiskStep(d, Read(len)).1 <==> len > 0 || m.pos < |m.data|
  {
  }

  predicate Observable(c: Call) {
    c.Read? ==> c.len > 0
  }

  lemma StepAlike(m: Memory, d: Disk, c: Call)
    requires Alike(m, d) && Observable(c)
    ensures var (m', a) := MemoryStep(m, c); var (d', b) := DiskStep(d, c); a == b && Alike(m', d')
  {
    DiskBytesWhole(d.file);
    if !c.GetBytes? {
      hide DiskBytes;
    }
  }

  function MemoryRun(m: Memory, calls: seq<Call>): (Memory, seq<Outcome>)
    decreases |calls|
  {
    if calls == [] then (m, []) else
      var (m1, out) := MemoryStep(m, calls[0]);
      var (m2, outs) := MemoryRun(m1, calls[1..]);
      (m2, [out] + outs)
  }

  function DiskRun(d: Disk, calls: seq<Call>): (Disk, seq<Outcome>)
    decreases |calls|
  {
    if calls == [] then (d, []) else
      var (d1, out) := DiskStep(d, calls[0]);
      var (d2, outs) := DiskRun(d1, calls[1..]);
      (d2, [out] + outs)
  }

  /** Every run of calls gets the same answers from memory and from disk, and leaves the same position. */
  lemma {:induction false} RunsAlike(m: Memory, d: Disk, calls: seq<Call>)
    requires Alike(m, d) && forall k :: 0 <= k < |calls| ==> Observable(calls[k])
    ensures MemoryRun(m, calls).1 == DiskRun(d, calls).1
    ensures Alike(MemoryRun(m, calls).0, DiskRun(d, calls).0)
    decreases |calls|
  {
    hide MemoryStep, DiskStep, Alike;
    if calls != [] {
      StepAlike(m, d, calls[0]);
      RunsAlike(MemoryStep(m, calls[0]).0, DiskStep(d, calls[0]).0, calls[1..]);
    }
  }

  // ---------------------------------------------------------------- after the first close

  predicate FailsClosed(c: Call, out: Outcome) {
    match c
    case Read(_) => out == Got([], Some(StorageClosed))
    case Seek(_, _) => out == At(0, Some(StorageClosed))
    case GetBytes => out == Got([], Some(StorageClosed))
    case GetSize => out.Size?
    case Close => out == Done
  }

  /** From the first close on, nothing changes any more and every read, seek and fetch fails, on disk and in memory. */
  lemma {:induction false} DiskClosedForGood(d: Disk, calls: seq<Call>)
    requires d.closed
    ensures DiskRun(d, calls).0 == d
    ensures |DiskRun(d, calls).1| == |calls|
    ensures forall k :: 0 <= k < |calls| ==> FailsClosed(calls[k], DiskRun(d, calls).1[k])
    decreases |calls|
  {
    hide DiskBytes, FileRead, FileSeek;
    if calls != [] {
      DiskClosedForGood(d, calls[1..]);
    }
  }

  lemma {:induction false} MemoryClosedForGood(m: Memory, calls: seq<Call>)
    requires m.closed
    ensures MemoryRun(m, calls).0 == m
    ensures |MemoryRun(m, calls).1| == |calls|
    ensures forall k :: 0 <= k < |calls| ==> FailsClosed(calls[k], MemoryRun(m, calls).1[k])
    decreases |calls|
  {
    hide ReaderRead, ReaderSeek;
    if calls != [] {
      MemoryClosedForGood(m, calls[1..]);
    }
  }

  // ---------------------------------------------------------------- what the calls deliver

  function Unread(m: Memory): Bytes {
    if m.pos >= |m.data| then [] else m.data[m.pos..]
  }

  function Wanted(calls: seq<Call>): nat {
    if calls == [] then 0 else (if calls[0].Read? then calls[0].len else 0) + Wanted(calls[1..])
  }

  function Collected(outs: seq<Outcome>): Bytes {
    if outs == [] then [] else (if outs[0].Got? then outs[0].data else []) + Collected(outs[1..])
  }

  ghost predicate OnlyReads(calls: seq<Call>) {
    forall k :: 0 <= k < |calls| ==> calls[k].Read? && calls[k].len > 0
  }

  lemma ReadOnce(m: Memory, len: nat)
    requires !m.closed
    ensures var (m', out) := MemoryStep(m, Read(len));
            var k := Min(len, |Unread(m)|);
            && out.Got? && out.data == Unread(m)[..k] && m' == m.(pos := m.pos + k) && Unread(m') == Unread(m)[k..]
  {
  }

  lemma TakeMore(s: Bytes, k: nat, rest: nat)
    requires k + rest <= |s|
    ensures s[..k] + s[k..][..rest] == s[..k + rest]
  {
  }

  /** Reads of any sizes deliver the bytes from the position on, each once and in order, as far as they were
      asked for. */
  lemma {:induction false} ReadsDeliver(m: Memory, calls: seq<Call>)
    requires !m.closed && OnlyReads(calls)
    ensures var (m', outs) := MemoryRun(m, calls);
            var n := Min(Wanted(calls), |Unread(m)|);
            Collected(outs) == Unread(m)[..n] && m' == m.(pos := m.pos + n)
    decreases |calls|
  {
    hide MemoryStep, Unread;
    if calls != [] {
      ReadOnce(m, calls[0].len);
      var (m1, out) := MemoryStep(m, calls[0]);
      var k := Min(calls[0].len, |Unread(m)|);
      ReadsDeliver(m1, calls[1..]);
      TakeMore(Unread(m), k, Min(Wanted(calls[1..]), |Unread(m1)|));
      assert MemoryRun(m, calls).1[1..] == MemoryRun(m1, calls[1..]).1;
    }
  }

  /** A read says that the end is reached exactly when nothing is left to deliver. */
  lemma EndIff(m: Memory, len: nat)
    requires !m.closed && len > 0
    ensures MemoryStep(m, Read(len)).1.failure == (if Unread(m) == [] then Some(EndOfFile) else None)
  {
  }

  /** A seek counts from the start, from the position or from the end, and leaves the position when there
      is no such place. */
  lemma SeekLands(m: Memory, offset: int, whence: int)
    requires !m.closed
    ensures var (m', out) := MemoryStep(m, Seek(offset, whence));
            var origin := if whence == 0 then 0 else if whence == 1 then m.pos else |m.data|;
            if 0 <= whence <= 2 && origin + offset >= 0
            then m' == m.(pos := origin + offset) && out == At(origin + offset, None)
            else m' == m && out == At(0, Some(InvalidSeek))
  {
  }

  /** Fetching everything and asking for the size change nothing. */
  lemma FetchIsWhole(m: Memory)
    requires !m.closed
    ensures MemoryStep(m, GetBytes) == (m, Got(m.data, None)) && MemoryStep(m, GetSize) == (m, Size(|m.data|))
  {
  }

  /** On disk it is the same. */
  lemma DiskReadsDeliver(m: Memory, d: Disk, calls: seq<Call>)
    requires Alike(m, d) && !d.closed && OnlyReads(calls)
    ensures var (d', outs) := DiskRun(d, calls);
            var n := Min(Wanted(calls), |Unread(m)|);
            Collected(outs) == Unread(m)[..n] && d'.file.offset == m.pos + n && d'.file.content == m.data
  {
    hide MemoryRun, DiskRun, Collected, Wanted;
    ReadsDeliver(m, calls);
    RunsAlike(m, d, calls);
  }
}
