/** Choosing between memory and disk for a request body, and the global usage counters. */
module BodyCache {
  import opened Seqs
  import opened BodyStorage

  const MEGABYTE := 0x10_0000
  const MAX_INT64 := 0x7FFF_FFFF_FFFF_FFFF

  /** Two's complement 64-bit addition and conversion. */
  function Wrap(v: int): int {
    var r := v % 0x1_0000_0000_0000_0000;
    if r > MAX_INT64 then r - 0x1_0000_0000_0000_0000 else r
  }

  datatype Config = Config(enabled: bool, thresholdMB: int, maxSizeMB: int)

  datatype Stats = Stats(
    diskFiles: int, diskBytes: int, memoryBuffers: int, memoryBytes: int, diskHits: int, memoryHits: int)

  function AddDisk(s: Stats, size: nat): Stats {
    s.(diskFiles := s.diskFiles + 1, diskBytes := s.diskBytes + size)
  }

  /** The disk counters never go below zero. */
  function DropDisk(s: Stats, size: nat): Stats {
    s.(diskFiles := if s.diskFiles - 1 < 0 then 0 else s.diskFiles - 1,
       diskBytes := if s.diskBytes - size < 0 then 0 else s.diskBytes - size)
  }

  function AddMemory(s: Stats, size: nat): Stats {
    s.(memoryBuffers := s.memoryBuffers + 1, memoryBytes := s.memoryBytes + size)
  }

  function DropMemory(s: Stats, size: nat): Stats {
    s.(memoryBuffers := s.memoryBuffers - 1, memoryBytes := s.memoryBytes - size)
  }

  datatype Storage = InMemory(memory: Memory) | OnDisk(disk: Disk)

  datatype Cache = Cache(config: Config, stats: Stats, storages: seq<Storage>)

  predicate Available(c: Cache, size: int) {
    c.config.enabled && Wrap(c.stats.diskBytes + size) <= c.config.maxSizeMB * MEGABYTE
  }

  // ---------------------------------------------------------------- creating storages

  function AddInMemory(c: Cache, data: Bytes): Cache {
    c.(stats := AddMemory(c.stats, |data|), storages := c.storages + [InMemory(Memory(data, 0, false))])
  }

  function AddOnDisk(c: Cache, data: Bytes): Cache {
    c.(stats := AddDisk(c.stats, |data|), storages := c.storages + [OnDisk(Disk(File(data, 0, true), |data|, false))])
  }

  predicate GoesToDisk(c: Cache, size: int) {
    c.config.enabled && size >= c.config.thresholdMB * MEGABYTE && Available(c, size)
  }

  /** `diskWorks` says whether the cache file can be written; if not, the body stays in memory. */
  function Create(c: Cache, data: Bytes, diskWorks: bool): Cache {
    if GoesToDisk(c, |data|) && diskWorks then AddOnDisk(c, data) else AddInMemory(c, data)
  }

  /** What a reader limited to `maxBytes + 1` bytes, in 64-bit arithmetic, yields of a body. */
  function Limited(body: Bytes, maxBytes: int): Bytes {
    var limit := Wrap(maxBytes + 1);
    if limit <= 0 then [] else body[..Min(limit, |body|)]
  }

  /** The body that is stored, if it is not too large. */
  function Intake(body: Bytes, maxBytes: int): Option<Bytes> {
    var taken := Limited(body, maxBytes);
    if |taken| > maxBytes then None else Some(taken)
  }

  datatype Reception = Stored | TooLarge | DiskFailed

  function CountHit(s: Stats, onDisk: bool): Stats {
    if onDisk then s.(diskHits := s.diskHits + 1) else s.(memoryHits := s.memoryHits + 1)
  }

  predicate StreamsToDisk(c: Cache, contentLength: int) {
    contentLength > 0 && GoesToDisk(c, contentLength)
  }

  function Receive(c: Cache, body: Bytes, contentLength: int, maxBytes: int, diskWorks: bool): (Cache, Reception) {
    var taken := Intake(body, maxBytes);
    if StreamsToDisk(c, contentLength) && !diskWorks then (c, DiskFailed)
    else if taken.None? then (c, TooLarge)
    else
      var c' := if StreamsToDisk(c, contentLength) then AddOnDisk(c, taken.value)
                else Create(c, taken.value, diskWorks);
      (c'.(stats := CountHit(c'.stats, c'.storages[|c.storages|].OnDisk?)), Stored)
  }

  // ---------------------------------------------------------------- using storages

  function StorageStep(s: Storage, call: Call): (Storage, Outcome) {
    match s
    case InMemory(m) => var (m', out) := MemoryStep(m, call); (InMemory(m'), out)
    case OnDisk(d) => var (d', out) := DiskStep(d, call); (OnDisk(d'), out)
  }

  predicate IsOpen(s: Storage) {
    match s case InMemory(m) => !m.closed case OnDisk(d) => !d.closed
  }

  function SizeOf(s: Storage): nat {
    match s case InMemory(m) => |m.data| case OnDisk(d) => d.size
  }

  function Use(c: Cache, i: nat, call: Call): (Cache, Outcome)
    requires i < |c.storages|
  {
    var s := c.storages[i];
    var (s', out) := StorageStep(s, call);
    var stats := if IsOpen(s) && call.Close? then
                   if s.OnDisk? then DropDisk(c.stats, SizeOf(s)) else DropMemory(c.stats, SizeOf(s))
                 else c.stats;
    (c.(stats := stats, storages := c.storages[i := s']), out)
  }

  // ---------------------------------------------------------------- exact accounting

  predicate Counts(s: Storage, onDisk: bool) {
    IsOpen(s) && s.OnDisk? == onDisk
  }

  function OpenCount(ss: seq<Storage>, onDisk: bool): nat {
    if ss == [] then 0 else OpenCount(ss[..|ss| - 1], onDisk) + if Counts(ss[|ss| - 1], onDisk) then 1 else 0
  }

  function OpenBytes(ss: seq<Storage>, onDisk: bool): nat {
    if ss == [] then 0 else
      OpenBytes(ss[..|ss| - 1], onDisk) + if Counts(ss[|ss| - 1], onDisk) then SizeOf(ss[|ss| - 1]) else 0
  }

  /** The counters are the number and the total size of the open storages of each kind. */
  ghost predicate Exact(c: Cache) {
    && c.stats.memoryBuffers == OpenCount(c.storages, false) && c.stats.memoryBytes == OpenBytes(c.storages, false)
    && c.stats.diskFiles == OpenCount(c.storages, true) && c.stats.diskBytes == OpenBytes(c.storages, true)
  }

  lemma AppendCounts(ss: seq<Storage>, s: Storage, onDisk: bool)
    ensures OpenCount(ss + [s], onDisk) == OpenCount(ss, onDisk) + if Counts(s, onDisk) then 1 else 0
    ensures OpenBytes(ss + [s], onDisk) == OpenBytes(ss, onDisk) + if Counts(s, onDisk) then SizeOf(s) else 0
  {
    assert (ss + [s])[..|ss|] == ss;
  }

  lemma {:induction false} UpdateCounts(ss: seq<Storage>, i: nat, s: Storage, onDisk: bool)
    requires i < |ss|
    ensures OpenCount(ss[i := s], onDisk) + (if Counts(ss[i], onDisk) then 1 else 0) ==
            OpenCount(ss, onDisk) + if Counts(s, onDisk) then 1 else 0
    ensures OpenBytes(ss[i := s], onDisk) + (if Counts(ss[i], onDisk) then SizeOf(ss[i]) else 0) ==
            OpenBytes(ss, onDisk) + if Counts(s, onDisk) then SizeOf(s) else 0
  {
    hide Counts, SizeOf;
    var last := |ss| - 1;
    if i == last {
      assert ss[i := s][..last] == ss[..last];
    } else {
      UpdateCounts(ss[..last], i, s, onDisk);
      assert ss[i := s][..last] == ss[..last][i := s];
    }
  }

  lemma AddKeepsExact(c: Cache, data: Bytes)
    requires Exact(c)
    ensures Exact(AddInMemory(c, data)) && Exact(AddOnDisk(c, data))
  {
    hide OpenCount, OpenBytes;
    var inMemory, onDisk := InMemory(Memory(data, 0, false)), OnDisk(Disk(File(data, 0, true), |data|, false));
    AppendCounts(c.storages, inMemory, false);
    AppendCounts(c.storages, inMemory, true);
    AppendCounts(c.storages, onDisk, false);
    AppendCounts(c.storages, onDisk, true);
  }

  lemma StepKeepsKind(s: Storage, call: Call)
    ensures var s' := StorageStep(s, call).0;
            s'.OnDisk? == s.OnDisk? && SizeOf(s') == SizeOf(s) && (IsOpen(s') <==> IsOpen(s) && !call.Close?)
  {
    hide ReaderRead, ReaderSeek, FileRead, FileSeek, DiskBytes;
  }

  lemma UseKeepsExact(c: Cache, i: nat, call: Call)
    requires Exact(c) && i < |c.storages|
    ensures Exact(Use(c, i, call).0)
  {
    hide OpenCount, OpenBytes, StorageStep, IsOpen, SizeOf;
    var s' := StorageStep(c.storages[i], call).0;
    StepKeepsKind(c.storages[i], call);
    UpdateCounts(c.storages, i, s', false);
    UpdateCounts(c.storages, i, s', true);
  }

  // ---------------------------------------------------------------- runs

  datatype Event =
    | Created(data: Bytes, diskWorks: bool)
    | Received(body: Bytes, contentLength: int, maxBytes: int, diskWorks: bool)
    | Called(i: nat, call: Call)

  function Apply(c: Cache, e: Event): Cache {
    match e
    case Created(data, diskWorks) => Create(c, data, diskWorks)
    case Received(body, contentLength, maxBytes, diskWorks) => Receive(c, body, contentLength, maxBytes, diskWorks).0
    case Called(i, call) => if i < |c.storages| then Use(c, i, call).0 else c
  }

  function Run(c: Cache, events: seq<Event>): Cache {
    if events == [] then c else Apply(Run(c, events[..|events| - 1]), events[|events| - 1])
  }

  lemma ApplyKeepsExact(c: Cache, e: Event)
    requires Exact(c)
    ensures Exact(Apply(c, e))
  {
    hide Intake, Use, GoesToDisk, OpenCount, OpenBytes;
    match e
    case Created(data, _) => AddKeepsExact(c, data);
    case Received(body, _, maxBytes, _) =>
      if Intake(body, maxBytes).Some? {
        AddKeepsExact(c, Intake(body, maxBytes).value);
      }
    case Called(i, call) =>
      if i < |c.storages| {
        UseKeepsExact(c, i, call);
      }
  }

  /** After every run of creations, receptions and calls the counters are exact. */
  lemma {:induction false} RunKeepsExact(c: Cache, events: seq<Event>)
    requires Exact(c)
    ensures Exact(Run(c, events))
  {
    hide Exact, Apply;
    if events != [] {
      RunKeepsExact(c, events[..|events| - 1]);
      ApplyKeepsExact(Run(c, events[..|events| - 1]), events[|events| - 1]);
    }
  }

  // ---------------------------------------------------------------- intake

  lemma WrapSmall(v: int)
    requires -MAX_INT64 - 1 <= v <= MAX_INT64
    ensures Wrap(v) == v
  {
  }

  /** A body is stored whole exactly when it is at most `maxBytes` long, and refused otherwise, unless the limit is the
      largest 64-bit number: then the reader's own limit wraps around and every body is stored empty. */
  lemma IntakeExactIff(body: Bytes, maxBytes: int)
    requires -MAX_INT64 - 1 <= maxBytes <= MAX_INT64 && |body| <= MAX_INT64
    ensures Intake(body, maxBytes) == (if |body| <= maxBytes then Some(body) else None)
            <==> maxBytes < MAX_INT64 || body == []
  {
    if maxBytes < MAX_INT64 {
      WrapSmall(maxBytes + 1);
      assert body[..|body|] == body;
    } else {
      assert Wrap(maxBytes + 1) < 0;
    }
  }

  /** Memory route or disk route, the last storage then holds that body, unread and open. */
  lemma ReceiveStores(c: Cache, body: Bytes, contentLength: int, maxBytes: int, diskWorks: bool)
    requires -MAX_INT64 - 1 <= maxBytes < MAX_INT64 && |body| <= MAX_INT64
    requires StreamsToDisk(c, contentLength) ==> diskWorks
    ensures var (c', r) := Receive(c, body, contentLength, maxBytes, diskWorks);
            && (r == Stored <==> |body| <= maxBytes)
            && (r != Stored ==> c' == c)
            && (r == Stored ==>
                  && |c'.storages| == |c.storages| + 1
                  && c'.storages[|c.storages|] in {InMemory(Memory(body, 0, false)),
                                                     OnDisk(Disk(File(body, 0, true), |body|, false))})
  {
    hide Intake, GoesToDisk;
    IntakeExactIff(body, maxBytes);
  }

  // ---------------------------------------------------------------- the disk quota

  function Quota(c: Cache): int {
    c.config.maxSizeMB * MEGABYTE
  }

  lemma CreateKeepsQuota(c: Cache, data: Bytes, diskWorks: bool)
    requires 0 <= c.stats.diskBytes <= Quota(c) && c.stats.diskBytes + |data| <= MAX_INT64
    ensures var c' := Create(c, data, diskWorks); 0 <= c'.stats.diskBytes <= Quota(c')
  {
    WrapSmall(c.stats.diskBytes + |data|);
  }

  /** Bodies that are created from byte slices of a real machine, or used. */
  ghost predicate SliceEvent(c: Cache, e: Event) {
    match e
    case Created(data, _) => Quota(c) + |data| <= MAX_INT64
    case Received(_, _, _, _) => false
    case Called(_, _) => true
  }

  lemma ApplyKeepsQuota(c: Cache, e: Event)
    requires 0 <= c.stats.diskBytes <= Quota(c) && SliceEvent(c, e)
    ensures var c' := Apply(c, e); c'.config == c.config && 0 <= c'.stats.diskBytes <= Quota(c')
  {
    hide StorageStep;
    if e.Created? {
      CreateKeepsQuota(c, e.data, e.diskWorks);
    }
  }

  /** Bodies created from byte slices never push the disk usage past the quota. */
  lemma {:induction false} RunKeepsQuota(c: Cache, events: seq<Event>)
    requires 0 <= c.stats.diskBytes <= Quota(c)
    requires forall k :: 0 <= k < |events| ==> SliceEvent(c, events[k])
    ensures var c' := Run(c, events); c'.config == c.config && 0 <= c'.stats.diskBytes <= Quota(c')
  {
    hide Apply;
    if events != [] {
      RunKeepsQuota(c, events[..|events| - 1]);
      ApplyKeepsQuota(Run(c, events[..|events| - 1]), events[|events| - 1]);
    }
  }

  /** The admission test wraps around: a body that the counter has no room for as a 64-bit number is let in. */
  predicate Overflows(c: Cache, data: Bytes, diskWorks: bool) {
    && diskWorks && c.config.enabled && |data| >= c.config.thresholdMB * MEGABYTE
    && c.stats.diskBytes + |data| > MAX_INT64
  }

  lemma WrapLarge(v: int)
    requires MAX_INT64 < v <= 2 * MAX_INT64
    ensures Wrap(v) < 0
  {
  }

  lemma CreateKeepsQuotaIff(c: Cache, data: Bytes, diskWorks: bool)
    requires 0 <= c.stats.diskBytes <= Quota(c) <= MAX_INT64 && |data| <= MAX_INT64
    ensures var c' := Create(c, data, diskWorks);
            c'.config == c.config && 0 <= c'.stats.diskBytes
            && (c'.stats.diskBytes <= Quota(c) <==> !Overflows(c, data, diskWorks))
  {
    hide Wrap;
    var v := c.stats.diskBytes + |data|;
    if v <= MAX_INT64 { WrapSmall(v); } else { WrapLarge(v); }
  }

  /** A body created from a byte slice of any length Go can represent, or a call. */
  predicate SliceOrCall(e: Event) {
    match e
    case Created(data, _) => |data| <= MAX_INT64
    case Received(_, _, _, _) => false
    case Called(_, _) => true
  }

  predicate Admitted(c: Cache, e: Event) {
    e.Created? ==> !Overflows(c, e.data, e.diskWorks)
  }

  lemma ApplyKeepsQuotaIff(c: Cache, e: Event)
    requires 0 <= c.stats.diskBytes <= Quota(c) <= MAX_INT64 && SliceOrCall(e)
    ensures var c' := Apply(c, e);
            c'.config == c.config && 0 <= c'.stats.diskBytes && (c'.stats.diskBytes <= Quota(c) <==> Admitted(c, e))
  {
    hide StorageStep, Create, Overflows;
    if e.Created? {
      CreateKeepsQuotaIff(c, e.data, e.diskWorks);
    }
  }

  /** The bytes of the open disk storages stay within the quota throughout a run exactly when the run meets no body
      that overflows the admission test. */
  lemma {:induction false} RunKeepsQuotaIff(c: Cache, events: seq<Event>)
    requires Exact(c) && c.stats.diskBytes <= Quota(c) <= MAX_INT64
    requires forall k :: 0 <= k < |events| ==> SliceOrCall(events[k])
    ensures (forall k :: 0 <= k <= |events| ==> OpenBytes(Run(c, events[..k]).storages, true) <= Quota(c)) <==>
            (forall k :: 0 <= k < |events| ==> Admitted(Run(c, events[..k]), events[k]))
  {
    hide Run, Exact, OpenBytes, Admitted, SliceOrCall;
    var k := 0;
    EmptyRun(c, events);
    while k < |events| && Admitted(Run(c, events[..k]), events[k])
      invariant k <= |events| && Run(c, events[..k]).config == c.config
      invariant forall j :: 0 <= j <= k ==> OpenBytes(Run(c, events[..j]).storages, true) <= Quota(c)
      invariant forall j :: 0 <= j < k ==> Admitted(Run(c, events[..j]), events[j])
    {
      StepKeepsQuotaIff(c, events, k);
      k := k + 1;
    }
    if k < |events| {
      StepKeepsQuotaIff(c, events, k);
    }
  }

  lemma EmptyRun(c: Cache, events: seq<Event>)
    requires Exact(c)
    ensures Run(c, events[..0]) == c && OpenBytes(c.storages, true) == c.stats.diskBytes
  {
    hide OpenBytes, OpenCount;
  }

  lemma StepKeepsQuotaIff(c: Cache, events: seq<Event>, k: nat)
    requires Exact(c) && Quota(c) <= MAX_INT64 && k < |events| && SliceOrCall(events[k])
    requires Run(c, events[..k]).config == c.config && OpenBytes(Run(c, events[..k]).storages, true) <= Quota(c)
    ensures Run(c, events[..k + 1]).config == c.config
    ensures OpenBytes(Run(c, events[..k + 1]).storages, true) <= Quota(c) <==> Admitted(Run(c, events[..k]), events[k])
  {
    hide Apply, Run, OpenBytes, OpenCount, Admitted, SliceOrCall;
    RunKeepsExact(c, events[..k]);
    RunKeepsExact(c, events[..k + 1]);
    RunOneMore(c, events, k);
    ApplyKeepsQuotaIff(Run(c, events[..k]), events[k]);
  }

  lemma RunOneMore(c: Cache, events: seq<Event>, k: nat)
    requires k < |events|
    ensures Run(c, events[..k + 1]) == Apply(Run(c, events[..k]), events[k])
  {
    hide Apply;
    assert events[..k + 1][..k] == events[..k];
  }

  /** A body streamed to disk is admitted by its declared length but stored by its real one: every body stays within
      the quota exactly when the quota has room for the largest body the caller accepts. */
  lemma StreamKeepsQuotaIff(c: Cache, contentLength: int, maxBytes: nat)
    requires maxBytes < MAX_INT64 && StreamsToDisk(c, contentLength) && c.stats.diskBytes <= Quota(c)
    ensures (forall body: Bytes :: |body| <= MAX_INT64 ==>
               Receive(c, body, contentLength, maxBytes, true).0.stats.diskBytes <= Quota(c))
            <==> c.stats.diskBytes + maxBytes <= Quota(c)
  {
    hide Intake, GoesToDisk;
    forall body: Bytes | |body| <= MAX_INT64
      ensures Intake(body, maxBytes) == if |body| <= maxBytes then Some(body) else None
    {
      IntakeExactIff(body, maxBytes);
    }
    var largest: Bytes := seq(maxBytes, _ => 0);
    assert Intake(largest, maxBytes) == Some(largest);
    assert Receive(c, largest, contentLength, maxBytes, true).0.stats.diskBytes == c.stats.diskBytes + maxBytes;
  }

  // ---------------------------------------------------------------- which way a body goes

  /** Large enough for the disk, and with room left there. */
  predicate FitsDisk(c: Cache, size: int) {
    && c.config.enabled && size >= c.config.thresholdMB * 1_048_576
    && c.stats.diskBytes + size <= c.config.maxSizeMB * 1_048_576
  }

  lemma FitsDiskIff(c: Cache, size: int)
    requires -MAX_INT64 - 1 <= c.stats.diskBytes + size <= MAX_INT64
    ensures GoesToDisk(c, size) <==> FitsDisk(c, size)
  {
    WrapSmall(c.stats.diskBytes + size);
  }

  /** A body from a slice goes to disk exactly when it fits there and the file can be written. */
  lemma CreateRouteIff(c: Cache, data: Bytes, diskWorks: bool)
    requires 0 <= c.stats.diskBytes && c.stats.diskBytes + |data| <= MAX_INT64
    ensures var c' := Create(c, data, diskWorks);
            && c'.storages == c.storages + [if diskWorks && FitsDisk(c, |data|)
                                            then OnDisk(Disk(File(data, 0, true), |data|, false))
                                            else InMemory(Memory(data, 0, false))]
            && c'.stats.diskHits == c.stats.diskHits && c'.stats.memoryHits == c.stats.memoryHits
  {
    hide GoesToDisk;
    FitsDiskIff(c, |data|);
  }

  /** A body from a reader is streamed to disk when its announced length fits there, and then fails if the file cannot
      be written; otherwise its real length decides. Each stored body counts one hit of the kind it was stored as. */
  lemma ReceiveRouteIff(c: Cache, body: Bytes, contentLength: int, maxBytes: int, diskWorks: bool)
    requires 0 <= c.stats.diskBytes && c.stats.diskBytes + |body| <= MAX_INT64
    requires -MAX_INT64 - 1 <= contentLength && c.stats.diskBytes + contentLength <= MAX_INT64
    requires -MAX_INT64 - 1 <= maxBytes < MAX_INT64
    ensures var (c', r) := Receive(c, body, contentLength, maxBytes, diskWorks);
            var streams := contentLength > 0 && FitsDisk(c, contentLength);
            && (r == DiskFailed <==> streams && !diskWorks)
            && (r != Stored ==> c' == c)
            && (r == Stored ==>
                  var onDisk := streams || (diskWorks && FitsDisk(c, |body|));
                  && |c'.storages| == |c.storages| + 1 && (c'.storages[|c.storages|].OnDisk? <==> onDisk)
                  && c'.stats.diskHits == c.stats.diskHits + (if onDisk then 1 else 0)
                  && c'.stats.memoryHits == c.stats.memoryHits + (if onDisk then 0 else 1))
  {
    hide GoesToDisk, Intake, FitsDisk;
    if contentLength > 0 {
      FitsDiskIff(c, contentLength);
    }
    FitsDiskIff(c, |body|);
    IntakeExactIff(body, maxBytes);
  }
}
