/** Archived accounts: credentials move between live key lists, the invalid pool and the discarded pool.
    Archiving and discarding are database transactions; restoring saves the channel first and deletes the
    pool row afterwards, and may be cut short in between. */
module AccountArchive {
  import opened Text
  import opened Seqs
  import opened AccountPool
  import opened PoolInvariant
  import opened PoolAccounts
  import opened PoolOutcome
  import opened ChannelRecord

  datatype Row<T> = Row(id: int, value: T)

  datatype World = World(
    channels: seq<Row<Channel>>,
    invalid: seq<Row<ArchiveRecord>>,
    discarded: seq<Row<ArchiveRecord>>,
    nextInvalid: int,
    nextDiscarded: int)

  datatype Pool = InvalidPool | DiscardedPool

  /** The row with a primary key, if there is one. */
  function Find<T>(rows: seq<Row<T>>, id: int): (r: Option<nat>)
    ensures r.Some? ==> r.value < |rows| && rows[r.value].id == id
    ensures r.None? ==> forall k :: 0 <= k < |rows| ==> rows[k].id != id
  {
    if rows == [] then None
    else if rows[|rows| - 1].id == id then Some(|rows| - 1)
    else Find(rows[..|rows| - 1], id)
  }

  function Erase<T>(rows: seq<Row<T>>, k: nat): seq<Row<T>>
    requires k < |rows|
  {
    rows[..k] + rows[k + 1..]
  }

  // ---------------------------------------------------------------- archiving

  /** The listed positions, in ascending order. */
  function Chosen(n: nat, at: set<int>): (r: seq<int>)
    ensures Within(r, n)
    ensures forall j :: 0 <= j < |r| ==> r[j] in at
  {
    if n == 0 then [] else
      var r := Chosen(n - 1, at);
      if n - 1 in at then r + [n - 1] else r
  }

  function RecordAt(id: int, c: Channel, i: int, reason: string, note: string, codec: Codec): ArchiveRecord
    requires 0 <= i < |c.keys|
  {
    ArchiveRecord(
      id, i, TrimSpace(c.keys[i]),
      if i in c.maps.kind && TrimSpace(c.maps.kind[i]) != "" then TrimSpace(c.maps.kind[i]) else codec.infer(c.keys[i]),
      if i in c.maps.proxy && c.maps.proxy[i] > 0 then c.maps.proxy[i] else 0,
      if i in c.maps.capability then codec.snapshot(c.maps.capability[i]) else "",
      TrimSpace(reason), TrimSpace(note))
  }

  function RecordsAt(id: int, c: Channel, at: seq<int>, reason: string, note: string, codec: Codec)
    : (r: seq<ArchiveRecord>)
    requires Within(at, |c.keys|)
    ensures |r| == |at| && forall j :: 0 <= j < |at| ==> r[j] == RecordAt(id, c, at[j], reason, note, codec)
  {
    seq(|at|, j requires 0 <= j < |at| => RecordAt(id, c, at[j], reason, note, codec))
  }

  /** The account registry lists no account for a blank credential. */
  predicate AllRegistered(c: Channel, at: set<int>) {
    forall i :: i in at && 0 <= i < |c.keys| ==> TrimSpace(c.keys[i]) != ""
  }

  function NumberRows(records: seq<ArchiveRecord>, next: int): (r: seq<Row<ArchiveRecord>>)
    ensures |r| == |records| && forall j :: 0 <= j < |r| ==> r[j] == Row(next + j, records[j])
  {
    seq(|records|, j requires 0 <= j < |records| => Row(next + j, records[j]))
  }

  function Insert(w: World, pool: Pool, records: seq<ArchiveRecord>): World {
    match pool
    case InvalidPool =>
      w.(invalid := w.invalid + NumberRows(records, w.nextInvalid), nextInvalid := w.nextInvalid + |records|)
    case DiscardedPool =>
      w.(discarded := w.discarded + NumberRows(records, w.nextDiscarded), nextDiscarded := w.nextDiscarded + |records|)
  }

  /** One transaction: the records are created and the accounts are deleted, or neither. */
  function Archive(w: World, pool: Pool, id: int, indexes: seq<int>, reason: string, note: string,
                   codec: Codec, now: int): World {
    var k := Find(w.channels, id);
    if k.None? then w else
      var c := w.channels[k.value].value;
      var at := IndexSet(indexes);
      if !ValidIndexes(indexes, |c.keys|) || !AllRegistered(c, at) then w else
        Insert(w, pool, RecordsAt(id, c, Chosen(|c.keys|, at), reason, note, codec))
          .(channels := w.channels[k.value := Row(id, Remove(c, at, now))])
  }

  // ---------------------------------------------------------------- restoring and discarding

  function RestoreFromPool(w: World, poolId: int, target: int, mode: RestoreMode, crash: bool,
                           codec: Codec, now: int): World {
    var p := Find(w.invalid, poolId);
    if p.None? then w else
      var record := w.invalid[p.value].value;
      var id := if target > 0 then target else record.channelId;
      var k := Find(w.channels, id);
      if id <= 0 || k.None? then w else
        var r := Restore(w.channels[k.value].value, record, mode, codec, now);
        if r.Refused? then w else
          w.(channels := w.channels[k.value := Row(id, r.channel)],
             invalid := if crash then w.invalid else Erase(w.invalid, p.value))
  }

  function Discard(w: World, poolId: int): World {
    var p := Find(w.invalid, poolId);
    if p.None? then w else
      Insert(w, DiscardedPool, [w.invalid[p.value].value]).(invalid := Erase(w.invalid, p.value))
  }

  datatype Move =
    | ArchiveMove(pool: Pool, id: int, indexes: seq<int>, reason: string, note: string, now: int)
    | RestoreMove(poolId: int, target: int, mode: RestoreMode, crash: bool, now: int)
    | DiscardMove(poolId: int)

  function Apply(w: World, m: Move, codec: Codec): World {
    match m
    case ArchiveMove(pool, id, indexes, reason, note, now) => Archive(w, pool, id, indexes, reason, note, codec, now)
    case RestoreMove(poolId, target, mode, crash, now) => RestoreFromPool(w, poolId, target, mode, crash, codec, now)
    case DiscardMove(poolId) => Discard(w, poolId)
  }

  function Run(w: World, moves: seq<Move>, codec: Codec): World {
    if moves == [] then w else Apply(Run(w, moves[..|moves| - 1], codec), moves[|moves| - 1], codec)
  }

  // ---------------------------------------------------------------- counting credentials

  /** How often a key list holds a credential. */
  ghost function Copies(keys: seq<string>, x: string): nat {
    if keys == [] then 0 else
      Copies(keys[..|keys| - 1], x) + if TrimSpace(keys[|keys| - 1]) == x then 1 else 0
  }

  ghost function Live(channels: seq<Row<Channel>>, x: string): nat {
    if channels == [] then 0 else
      Live(channels[..|channels| - 1], x) + Copies(channels[|channels| - 1].value.keys, x)
  }

  /** How often a pool holds a credential. */
  ghost function Stored(rows: seq<Row<ArchiveRecord>>, x: string): nat {
    if rows == [] then 0 else
      Stored(rows[..|rows| - 1], x) + if TrimSpace(rows[|rows| - 1].value.credential) == x then 1 else 0
  }

  /** How many copies of a credential the system holds, in live lists and both pools. */
  ghost function Total(w: World, x: string): nat {
    Live(w.channels, x) + Stored(w.invalid, x) + Stored(w.discarded, x)
  }

  lemma {:induction false} LiveUpdate(channels: seq<Row<Channel>>, k: nat, row: Row<Channel>, x: string)
    requires k < |channels|
    ensures Live(channels[k := row], x) + Copies(channels[k].value.keys, x) ==
            Live(channels, x) + Copies(row.value.keys, x)
  {
    hide Copies;
    var last := |channels| - 1;
    if k == last {
      assert channels[k := row][..last] == channels[..last];
    } else {
      LiveUpdate(channels[..last], k, row, x);
      assert channels[k := row][..last] == channels[..last][k := row];
    }
  }

  lemma {:induction false} StoredAppend(rows: seq<Row<ArchiveRecord>>, more: seq<Row<ArchiveRecord>>, x: string)
    ensures Stored(rows + more, x) == Stored(rows, x) + Stored(more, x)
  {
    hide TrimSpace;
    if more == [] {
      assert rows + more == rows;
    } else {
      StoredAppend(rows, more[..|more| - 1], x);
      assert (rows + more)[..|rows + more| - 1] == rows + more[..|more| - 1];
    }
  }

  lemma StoredErase(rows: seq<Row<ArchiveRecord>>, k: nat, x: string)
    requires k < |rows|
    ensures Stored(rows, x) == Stored(Erase(rows, k), x) + if TrimSpace(rows[k].value.credential) == x then 1 else 0
  {
    hide TrimSpace;
    StoredAppend(rows[..k + 1], rows[k + 1..], x);
    StoredAppend(rows[..k], rows[k + 1..], x);
    assert rows[..k + 1] + rows[k + 1..] == rows;
    assert rows[..k + 1][..k] == rows[..k];
  }

  lemma {:induction false} StoredRows(records: seq<ArchiveRecord>, next: int, creds: seq<string>, x: string)
    requires |creds| == |records|
             && forall j :: 0 <= j < |creds| ==> TrimSpace(records[j].credential) == TrimSpace(creds[j])
    ensures Stored(NumberRows(records, next), x) == Copies(creds, x)
  {
    hide TrimSpace;
    if records != [] {
      var last := |records| - 1;
      StoredRows(records[..last], next, creds[..last], x);
      assert NumberRows(records, next)[..last] == NumberRows(records[..last], next);
    }
  }

  lemma CopiesSnoc(keys: seq<string>, k: string, x: string)
    ensures Copies(keys + [k], x) == Copies(keys, x) + if TrimSpace(k) == x then 1 else 0
  {
    hide TrimSpace;
    assert (keys + [k])[..|keys|] == keys;
  }

  lemma GatherSnoc(s: seq<string>, at: seq<int>, i: int)
    requires Within(at, |s|) && 0 <= i < |s|
    ensures Within(at + [i], |s|) && Gather(s, at + [i]) == Gather(s, at) + [s[i]]
  {
  }

  lemma KeptAndChosenStep(n: nat, at: set<int>)
    ensures n == 0 ==> Kept(n, at) == [] && Chosen(n, at) == []
    ensures n > 0 && n - 1 in at ==> Kept(n, at) == Kept(n - 1, at) && Chosen(n, at) == Chosen(n - 1, at) + [n - 1]
    ensures n > 0 && n - 1 !in at ==> Kept(n, at) == Kept(n - 1, at) + [n - 1] && Chosen(n, at) == Chosen(n - 1, at)
  {
  }

  /** Deleting positions splits the list: what is kept and what is chosen make up the whole. */
  lemma {:induction false} KeptAndChosen(s: seq<string>, n: nat, at: set<int>, x: string)
    requires n <= |s|
    ensures Copies(s[..n], x) == Copies(Gather(s, Kept(n, at)), x) + Copies(Gather(s, Chosen(n, at)), x)
  {
    hide TrimSpace, Copies, Gather, Kept, Chosen;
    KeptAndChosenStep(n, at);
    if n == 0 {
      assert s[..0] == Gather(s, []) == [];
      NoCopies(x);
    } else {
      KeptAndChosen(s, n - 1, at, x);
      assert s[..n] == s[..n - 1] + [s[n - 1]];
      CopiesSnoc(s[..n - 1], s[n - 1], x);
      if n - 1 in at {
        GatherSnoc(s, Chosen(n - 1, at), n - 1);
        CopiesSnoc(Gather(s, Chosen(n - 1, at)), s[n - 1], x);
      } else {
        GatherSnoc(s, Kept(n - 1, at), n - 1);
        CopiesSnoc(Gather(s, Kept(n - 1, at)), s[n - 1], x);
      }
    }
  }

  lemma NoCopies(x: string)
    ensures Copies([], x) == 0
  {
  }

  // ---------------------------------------------------------------- conservation, move by move

  lemma RemovedKeys(c: Channel, at: set<int>, now: int)
    ensures Remove(c, at, now).keys == Gather(c.keys, Kept(|c.keys|, at))
  {
    hide AllDisabledReason, EnabledSet, PullMaps, Kept;
  }

  lemma RecordCredentials(id: int, c: Channel, at: seq<int>, reason: string, note: string, codec: Codec)
    requires Within(at, |c.keys|)
    ensures forall j :: 0 <= j < |at| ==>
              TrimSpace(RecordsAt(id, c, at, reason, note, codec)[j].credential) == TrimSpace(Gather(c.keys, at)[j])
  {
    hide TrimSpace;
  }

  lemma InsertCounts(w: World, pool: Pool, records: seq<ArchiveRecord>, creds: seq<string>, x: string)
    requires |creds| == |records|
             && forall j :: 0 <= j < |creds| ==> TrimSpace(records[j].credential) == TrimSpace(creds[j])
    ensures Total(Insert(w, pool, records), x) == Total(w, x) + Copies(creds, x)
    ensures Insert(w, pool, records).channels == w.channels
  {
    hide TrimSpace, Copies, Stored, Live;
    StoredRows(records, w.nextInvalid, creds, x);
    StoredRows(records, w.nextDiscarded, creds, x);
    StoredAppend(w.invalid, NumberRows(records, w.nextInvalid), x);
    StoredAppend(w.discarded, NumberRows(records, w.nextDiscarded), x);
  }

  lemma ArchiveConserves(w: World, pool: Pool, id: int, indexes: seq<int>, reason: string, note: string, codec: Codec,
                         now: int, x: string)
    ensures Total(Archive(w, pool, id, indexes, reason, note, codec, now), x) == Total(w, x)
  {
    hide TrimSpace, Remove, Kept, Chosen, AllRegistered, ValidIndexes, RecordAt, RecordsAt, Copies, Stored,
         Live, Insert;
    var k := Find(w.channels, id);
    if k.Some? {
      var c := w.channels[k.value].value;
      var at := IndexSet(indexes);
      if ValidIndexes(indexes, |c.keys|) && AllRegistered(c, at) {
        var chosen := Chosen(|c.keys|, at);
        RecordCredentials(id, c, chosen, reason, note, codec);
        InsertCounts(w, pool, RecordsAt(id, c, chosen, reason, note, codec), Gather(c.keys, chosen), x);
        RemovedKeys(c, at, now);
        KeptAndChosen(c.keys, |c.keys|, at, x);
        assert c.keys[..|c.keys|] == c.keys;
        LiveUpdate(w.channels, k.value, Row(id, Remove(c, at, now)), x);
      }
    }
  }

  lemma RestoredKeys(c: Channel, record: ArchiveRecord, mode: RestoreMode, codec: Codec, now: int)
    ensures var r := Restore(c, record, mode, codec, now);
            r.Done? ==> r.channel.keys == c.keys + [TrimSpace(record.credential)]
  {
    hide CleanMaps, AttachRecord, DisableAt, CanRestore;
  }

  predicate RestoreProceeds(w: World, poolId: int, target: int, mode: RestoreMode, codec: Codec, now: int) {
    var p := Find(w.invalid, poolId);
    p.Some? &&
    var record := w.invalid[p.value].value;
    var id := if target > 0 then target else record.channelId;
    var k := Find(w.channels, id);
    id > 0 && k.Some? && Restore(w.channels[k.value].value, record, mode, codec, now).Done?
  }

  /** A restore that is cut short adds one copy of the restored credential; any other conserves. */
  lemma RestoreConserves(w: World, poolId: int, target: int, mode: RestoreMode, crash: bool,
                         codec: Codec, now: int, x: string)
    ensures Total(RestoreFromPool(w, poolId, target, mode, crash, codec, now), x) == Total(w, x) +
            if crash && RestoreProceeds(w, poolId, target, mode, codec, now)
               && TrimSpace(w.invalid[Find(w.invalid, poolId).value].value.credential) == x then 1 else 0
  {
    hide TrimSpace, Restore, Copies, Stored, Live, Erase;
    if RestoreProceeds(w, poolId, target, mode, codec, now) {
      var p := Find(w.invalid, poolId).value;
      var record := w.invalid[p].value;
      var id := if target > 0 then target else record.channelId;
      var k := Find(w.channels, id).value;
      var c := w.channels[k].value;
      var r := Restore(c, record, mode, codec, now);
      RestoredKeys(c, record, mode, codec, now);
      CopiesSnoc(c.keys, TrimSpace(record.credential), x);
      LiveUpdate(w.channels, k, Row(id, r.channel), x);
      StoredErase(w.invalid, p, x);
    }
  }

  lemma DiscardConserves(w: World, poolId: int, x: string)
    ensures Total(Discard(w, poolId), x) == Total(w, x)
  {
    hide TrimSpace, Copies, Stored, Live, Erase;
    var p := Find(w.invalid, poolId);
    if p.Some? {
      var record := w.invalid[p.value].value;
      StoredErase(w.invalid, p.value, x);
      InsertCounts(w, DiscardedPool, [record], [record.credential], x);
      NoCopies(x);
      assert [] + [record.credential] == [record.credential];
      CopiesSnoc([], record.credential, x);
    }
  }

  predicate Crashes(m: Move) {
    m.RestoreMove? && m.crash
  }

  lemma MoveConserves(w: World, m: Move, codec: Codec, x: string)
    ensures Total(w, x) <= Total(Apply(w, m, codec), x)
    ensures !Crashes(m) ==> Total(Apply(w, m, codec), x) == Total(w, x)
  {
    hide Total, Archive, RestoreFromPool, Discard, RestoreProceeds, TrimSpace;
    match m
    case ArchiveMove(pool, id, indexes, reason, note, now) =>
      ArchiveConserves(w, pool, id, indexes, reason, note, codec, now, x);
    case RestoreMove(poolId, target, mode, crash, now) =>
      RestoreConserves(w, poolId, target, mode, crash, codec, now, x);
    case DiscardMove(poolId) => DiscardConserves(w, poolId, x);
  }

  /** No run of archive, restore and discard loses a copy of any credential, and a run in which no restore
      is cut short conserves the number of copies of each. */
  lemma {:induction false} RunConserves(w: World, moves: seq<Move>, codec: Codec, x: string)
    ensures Total(w, x) <= Total(Run(w, moves, codec), x)
    ensures (forall k :: 0 <= k < |moves| ==> !Crashes(moves[k])) ==> Total(Run(w, moves, codec), x) == Total(w, x)
  {
    hide Total, Apply;
    if moves != [] {
      RunConserves(w, moves[..|moves| - 1], codec, x);
      MoveConserves(Run(w, moves[..|moves| - 1], codec), moves[|moves| - 1], codec, x);
    }
  }

  // ---------------------------------------------------------------- live lists stay free of duplicates

  ghost predicate GoodWorld(w: World) {
    forall k :: 0 <= k < |w.channels| ==> Good(w.channels[k].value)
  }

  lemma MoveKeepsGood(w: World, m: Move, codec: Codec)
    requires GoodWorld(w)
    ensures GoodWorld(Apply(w, m, codec))
  {
    hide Good, Remove, Restore, AllRegistered, ValidIndexes, RecordsAt, Chosen;
    match m
    case ArchiveMove(pool, id, indexes, reason, note, now) =>
      var k := Find(w.channels, id);
      if k.Some? {
        RemoveKeepsGood(w.channels[k.value].value, IndexSet(indexes), now);
      }
    case RestoreMove(poolId, target, mode, crash, now) =>
      var p := Find(w.invalid, poolId);
      if p.Some? {
        var record := w.invalid[p.value].value;
        var k := Find(w.channels, if target > 0 then target else record.channelId);
        if k.Some? {
          RestoreKeepsGood(w.channels[k.value].value, record, mode, codec, now);
        }
      }
    case DiscardMove(poolId) =>
  }

  /** Crash or not, every live list keeps pairwise distinct credentials and its invariant. */
  lemma {:induction false} RunKeepsLiveListsGood(w: World, moves: seq<Move>, codec: Codec)
    requires GoodWorld(w)
    ensures GoodWorld(Run(w, moves, codec))
  {
    hide Apply, GoodWorld;
    if moves != [] {
      RunKeepsLiveListsGood(w, moves[..|moves| - 1], codec);
      MoveKeepsGood(Run(w, moves[..|moves| - 1], codec), moves[|moves| - 1], codec);
    }
  }

  // ---------------------------------------------------------------- archive and restore of one account

  ghost predicate SnapshotsParse(c: Channel, p: int, codec: Codec) {
    p in c.maps.capability ==>
      var text := codec.snapshot(c.maps.capability[p]);
      TrimSpace(text) != "" && codec.parse(text) == Some(c.maps.capability[p])
  }

  lemma RemovedNotHeld(c: Channel, p: nat, now: int)
    requires Good(c) && p < |c.keys|
    ensures !HoldsCredential(Remove(c, {p}, now).keys, TrimSpace(c.keys[p]))
  {
    hide TrimSpace, Remove, Kept;
    RemovedKeys(c, {p}, now);
    var kept := Kept(|c.keys|, {p});
    forall j | 0 <= j < |kept| ensures TrimSpace(Gather(c.keys, kept)[j]) != TrimSpace(c.keys[p]) {
      assert kept[j] != p;
    }
  }

  lemma RemovedEmptyIff(c: Channel, p: nat, now: int)
    requires p < |c.keys|
    ensures Remove(c, {p}, now).keys == [] <==> |c.keys| == 1
  {
    hide Remove, Kept;
    RemovedKeys(c, {p}, now);
    var kept := Kept(|c.keys|, {p});
    if |c.keys| >= 2 {
      var q := if p == 0 then 1 else 0;
      assert q in kept;
    } else {
      assert kept == [] by {
        KeptNone(p);
      }
    }
  }

  lemma KeptNone(p: nat)
    requires p == 0
    ensures Kept(1, {p}) == []
  {
    assert Kept(0, {p}) == [];
  }

  lemma RecordKind(id: int, c: Channel, p: nat, reason: string, note: string, codec: Codec)
    requires p < |c.keys| && View(c.maps, p).kind != ""
    ensures var record := RecordAt(id, c, p, reason, note, codec);
            KnownKind(record.kind) && NormalKind(record.kind) == View(c.maps, p).kind
  {
    hide KnownKind, NormalKind, TrimSpace;
    TrimmedKind(c.maps.kind[p]);
  }

  lemma TrimmedKind(kind: string)
    ensures NormalKind(TrimSpace(kind)) == NormalKind(kind)
    ensures KnownKind(TrimSpace(kind)) <==> KnownKind(kind)
    ensures KnownKind(kind) ==> TrimSpace(kind) != ""
  {
    hide TrimSpace;
    assert TrimSpace(kind) == "" ==> ToLower(TrimSpace(kind)) == "";
  }

  /** Archiving an account and restoring it into the same channel brings back its credential, proxy, capability
      and explicit account type at the end of the list, without a concurrency limit. Among other accounts it comes back
      disabled; alone, its channel does. */
  lemma ArchiveThenRestore(c: Channel, id: int, p: nat, reason: string, note: string, mode: RestoreMode, codec: Codec,
                           t1: int, t2: int)
    requires Good(c) && p < |c.keys|
    requires TrimSpace(c.keys[p]) != "" && codec.accepts(TrimSpace(c.keys[p])) && SnapshotsParse(c, p, codec)
    ensures var record := RecordAt(id, c, p, reason, note, codec);
            var c1 := Remove(c, {p}, t1);
            var r := Restore(c1, record, mode, codec, t2);
            var before, after := View(c.maps, p), View(r.channel.maps, |c1.keys|);
            && r.Done?
            && r.channel.keys == c1.keys + [TrimSpace(c.keys[p])]
            && after.proxy == before.proxy && after.capability == before.capability
            && (before.kind != "" ==> after.kind == before.kind)
            && after.limit == 0
            && if |c.keys| >= 2
               then after.status == RestoreStatus(mode) && r.channel.status == c1.status && r.channel.info == c1.info
               else after.status == ENABLED && r.channel.status == RestoreStatus(mode)
                    && ReasonText(r.channel.info) == RestoreReason(mode)
  {
    hide Good, TrimSpace, Remove, KnownKind, NormalKind, Restore, View;
    var record := RecordAt(id, c, p, reason, note, codec);
    var c1 := Remove(c, {p}, t1);
    RemovedNotHeld(c, p, t1);
    RemovedEmptyIff(c, p, t1);
    RemoveKeepsGood(c, {p}, t1);
    assert CanRestore(c1, record, codec);
    if |c.keys| >= 2 {
      RestoreView(c1, record, mode, codec, t2, |c1.keys|);
    } else {
      RestoreFirstView(c1, record, mode, codec, t2);
    }
    RestoreProceedsWhenAllowed(c1, record, mode, codec, t2);
    RecordView(id, c, p, reason, note, codec);
    if View(c.maps, p).kind != "" {
      RecordKind(id, c, p, reason, note, codec);
    }
  }

  lemma RestoreProceedsWhenAllowed(c: Channel, record: ArchiveRecord, mode: RestoreMode, codec: Codec, now: int)
    requires CanRestore(c, record, codec)
    ensures Restore(c, record, mode, codec, now).Done?
  {
  }

  lemma RecordView(id: int, c: Channel, p: nat, reason: string, note: string, codec: Codec)
    requires p < |c.keys| && SnapshotsParse(c, p, codec)
    ensures var record := RecordAt(id, c, p, reason, note, codec);
            var r := RestoredView(record, ByAdministrator, codec, 0);
            r.proxy == View(c.maps, p).proxy && r.capability == View(c.maps, p).capability
  {
    hide KnownKind, NormalKind, TrimSpace;
  }

  // ---------------------------------------------------------------- where things go

  /** What a record tells about the account it was made of. */
  lemma RecordFields(id: int, c: Channel, p: nat, reason: string, note: string, codec: Codec)
    requires p < |c.keys|
    ensures var r := RecordAt(id, c, p, reason, note, codec);
            && r.channelId == id && r.position == p && r.credential == TrimSpace(c.keys[p])
            && r.reason == TrimSpace(reason) && r.note == TrimSpace(note)
            && (r.kind == if p in c.maps.kind && TrimSpace(c.maps.kind[p]) != "" then TrimSpace(c.maps.kind[p])
                          else codec.infer(c.keys[p]))
  {
    hide TrimSpace;
  }

  ghost predicate ArchiveAllowed(w: World, id: int, indexes: seq<int>) {
    exists k :: 0 <= k < |w.channels| && Find(w.channels, id) == Some(k) &&
      var c := w.channels[k].value;
      AllPositions(indexes, |c.keys|) && forall j :: 0 <= j < |indexes| ==> TrimSpace(c.keys[indexes[j]]) != ""
  }

  function RowsOf(w: World, pool: Pool): seq<Row<ArchiveRecord>> {
    if pool.InvalidPool? then w.invalid else w.discarded
  }

  function Other(pool: Pool): Pool {
    if pool.InvalidPool? then DiscardedPool else InvalidPool
  }

  /** Archiving needs positions in an existing channel whose credentials are not blank, and otherwise does nothing. The
      accounts leave the channel as if deleted; a record of each comes to the end of the chosen pool, and the other
      pool and all other channels stay. */
  lemma ArchiveOutcome(w: World, pool: Pool, id: int, indexes: seq<int>, reason: string, note: string, codec: Codec,
                       now: int)
    ensures var w' := Archive(w, pool, id, indexes, reason, note, codec, now);
            if ArchiveAllowed(w, id, indexes) then
              var k := Find(w.channels, id).value;
              var c := w.channels[k].value;
              && w'.channels == w.channels[k := Row(id, Delete(c, indexes, now).channel)]
              && RowsOf(w', Other(pool)) == RowsOf(w, Other(pool))
              && RowsOf(w, pool) <= RowsOf(w', pool)
              && |RowsOf(w', pool)| == |RowsOf(w, pool)| + |set i | i in indexes|
              && forall j :: 0 <= j < |indexes| ==>
                  RecordedIn(w', pool, RecordAt(id, c, indexes[j], reason, note, codec))
            else w' == w
  {
    hide Find, Remove, Chosen, RecordAt, TrimSpace, Kept, AllDisabledReason;
    if ArchiveAllowed(w, id, indexes) {
      var k := Find(w.channels, id).value;
      var c := w.channels[k].value;
      var at := IndexSet(indexes);
      assert AllRegistered(c, at) && ValidIndexes(indexes, |c.keys|);
      var chosen := Chosen(|c.keys|, at);
      var records := RecordsAt(id, c, chosen, reason, note, codec);
      var w' := Archive(w, pool, id, indexes, reason, note, codec, now);
      ChosenCount(|c.keys|, at);
      assert Among(|c.keys|, at) == set i | i in indexes;
      forall j | 0 <= j < |indexes| ensures RecordedIn(w', pool, RecordAt(id, c, indexes[j], reason, note, codec)) {
        var q := ChosenPosition(|c.keys|, at, indexes[j]);
        assert RowsOf(w', pool)[|RowsOf(w, pool)| + q].value == records[q];
      }
    } else {
      ArchiveNeeds(w, pool, id, indexes, reason, note, codec, now);
    }
  }

  ghost predicate RecordedIn(w: World, pool: Pool, record: ArchiveRecord) {
    exists q :: 0 <= q < |RowsOf(w, pool)| && RowsOf(w, pool)[q].value == record
  }

  lemma ArchiveNeeds(w: World, pool: Pool, id: int, indexes: seq<int>, reason: string, note: string, codec: Codec,
                     now: int)
    ensures Archive(w, pool, id, indexes, reason, note, codec, now) == w || ArchiveAllowed(w, id, indexes)
  {
    hide Find, Remove, Chosen, RecordsAt, TrimSpace, Insert;
    var found := Find(w.channels, id);
    if found.Some? {
      var k := found.value;
      var c := w.channels[k].value;
      if ValidIndexes(indexes, |c.keys|) && AllRegistered(c, IndexSet(indexes)) {
        forall j | 0 <= j < |indexes| ensures TrimSpace(c.keys[indexes[j]]) != "" {
          assert indexes[j] in IndexSet(indexes);
        }
        assert ArchiveAllowed(w, id, indexes);
      }
    }
  }

  ghost function Among(n: nat, at: set<int>): set<int> {
    set i | 0 <= i < n && i in at
  }

  lemma {:induction false} ChosenCount(n: nat, at: set<int>)
    ensures |Chosen(n, at)| == |Among(n, at)|
  {
    if n == 0 {
      assert Among(0, at) == {};
    } else {
      ChosenCount(n - 1, at);
      assert Among(n, at) == Among(n - 1, at) + if n - 1 in at then {n - 1} else {};
    }
  }

  lemma {:induction false} ChosenPosition(n: nat, at: set<int>, i: int) returns (q: nat)
    requires 0 <= i < n && i in at
    ensures q < |Chosen(n, at)| && Chosen(n, at)[q] == i
  {
    hide Chosen, Kept;
    KeptAndChosenStep(n, at);
    if i == n - 1 {
      q := |Chosen(n, at)| - 1;
    } else {
      q := ChosenPosition(n - 1, at, i);
    }
  }

  /** The channel a restore goes to: the requested one, or the one the account came from. */
  function Destination(target: int, record: ArchiveRecord): int {
    if target > 0 then target else record.channelId
  }

  ghost predicate RestoreAllowed(w: World, p: nat, k: nat, codec: Codec)
    requires p < |w.invalid| && k < |w.channels|
  {
    var credential := TrimSpace(w.invalid[p].value.credential);
    && credential != "" && codec.accepts(credential)
    && forall j :: 0 <= j < |w.channels[k].value.keys| ==> TrimSpace(w.channels[k].value.keys[j]) != credential
  }

  /** A restore appends the credential to its destination and takes the row out of the invalid pool, unless it is cut
      short in between; if anything is missing or refused it does nothing. */
  lemma RestoreMoves(w: World, poolId: int, target: int, mode: RestoreMode, crash: bool, codec: Codec, now: int)
    ensures var w' := RestoreFromPool(w, poolId, target, mode, crash, codec, now);
            var found := Find(w.invalid, poolId);
            && w'.discarded == w.discarded
            && (found.None? ==> w' == w)
            && (found.Some? ==>
                  var p := found.value;
                  var record := w.invalid[p].value;
                  var id := Destination(target, record);
                  var at := Find(w.channels, id);
                  if id > 0 && at.Some? && RestoreAllowed(w, p, at.value, codec) then
                    var k := at.value;
                    && |w'.channels| == |w.channels|
                    && (forall q :: 0 <= q < |w.channels| && q != k ==> w'.channels[q] == w.channels[q])
                    && w'.channels[k].id == id
                    && w'.channels[k].value.keys == w.channels[k].value.keys + [TrimSpace(record.credential)]
                    && w'.invalid == if crash then w.invalid else w.invalid[..p] + w.invalid[p + 1..]
                  else w' == w)
  {
    hide Find, Restore, TrimSpace;
    var found := Find(w.invalid, poolId);
    if found.Some? {
      var record := w.invalid[found.value].value;
      var at := Find(w.channels, Destination(target, record));
      if at.Some? {
        var c := w.channels[at.value].value;
        RestoreProceedsIff(c, record, mode, codec, now);
        RestoredKeys(c, record, mode, codec, now);
      }
    }
  }

  /** Discarding moves exactly the named row, record and all, to the end of the discarded pool. */
  lemma DiscardMoves(w: World, poolId: int)
    ensures var w' := Discard(w, poolId);
            var found := Find(w.invalid, poolId);
            && w'.channels == w.channels
            && (found.None? ==> w' == w)
            && (found.Some? ==>
                  var p := found.value;
                  && w'.invalid == w.invalid[..p] + w.invalid[p + 1..]
                  && w'.discarded == w.discarded + [Row(w.nextDiscarded, w.invalid[p].value)])
  {
    hide Find;
  }

  // ---------------------------------------------------------------- row numbers

  ghost predicate NumberedBelow<T>(rows: seq<Row<T>>, next: int) {
    && (forall k :: 0 <= k < |rows| ==> rows[k].id < next)
    && (forall i, j :: 0 <= i < j < |rows| ==> rows[i].id != rows[j].id)
  }

  ghost predicate Numbered(w: World) {
    NumberedBelow(w.invalid, w.nextInvalid) && NumberedBelow(w.discarded, w.nextDiscarded)
  }

  lemma AppendNumbered(rows: seq<Row<ArchiveRecord>>, records: seq<ArchiveRecord>, next: int)
    requires NumberedBelow(rows, next)
    ensures NumberedBelow(rows + NumberRows(records, next), next + |records|)
  {
    var more := rows + NumberRows(records, next);
    forall k | 0 <= k < |more|
      ensures more[k].id < next + |records| && (k < |rows| ==> more[k].id < next)
              && (k >= |rows| ==> more[k].id == next + (k - |rows|))
    {
    }
  }

  lemma EraseNumbered<T>(rows: seq<Row<T>>, k: nat, next: int)
    requires NumberedBelow(rows, next) && k < |rows|
    ensures NumberedBelow(Erase(rows, k), next)
  {
    var fewer := Erase(rows, k);
    forall i | 0 <= i < |fewer| ensures fewer[i] == rows[if i < k then i else i + 1] {
    }
  }

  lemma MoveKeepsNumbers(w: World, m: Move, codec: Codec)
    requires Numbered(w)
    ensures Numbered(Apply(w, m, codec))
  {
    hide Find, Remove, Restore, Erase, RecordsAt, NumberRows, NumberedBelow, AllRegistered, ValidIndexes, Chosen;
    match m
    case ArchiveMove(pool, id, indexes, reason, note, now) =>
      var found := Find(w.channels, id);
      if found.Some? && ValidIndexes(indexes, |w.channels[found.value].value.keys|) {
        var c := w.channels[found.value].value;
        var records := RecordsAt(id, c, Chosen(|c.keys|, IndexSet(indexes)), reason, note, codec);
        AppendNumbered(w.invalid, records, w.nextInvalid);
        AppendNumbered(w.discarded, records, w.nextDiscarded);
      }
    case RestoreMove(poolId, _, _, _, _) =>
      var found := Find(w.invalid, poolId);
      if found.Some? {
        EraseNumbered(w.invalid, found.value, w.nextInvalid);
      }
    case DiscardMove(poolId) =>
      var found := Find(w.invalid, poolId);
      if found.Some? {
        EraseNumbered(w.invalid, found.value, w.nextInvalid);
        AppendNumbered(w.discarded, [w.invalid[found.value].value], w.nextDiscarded);
      }
  }

  /** Over every run no two rows of a pool share a number, so a number names one account. */
  lemma {:induction false} RunKeepsNumbers(w: World, moves: seq<Move>, codec: Codec)
    requires Numbered(w)
    ensures Numbered(Run(w, moves, codec))
  {
    hide Numbered, Apply;
    if moves != [] {
      RunKeepsNumbers(w, moves[..|moves| - 1], codec);
      MoveKeepsNumbers(Run(w, moves[..|moves| - 1], codec), moves[|moves| - 1], codec);
    }
  }

  lemma {:induction false} FindUpdated<T>(rows: seq<Row<T>>, id: int, value: T)
    requires Find(rows, id).Some?
    ensures Find(rows[Find(rows, id).value := Row(id, value)], id) == Find(rows, id)
  {
    var k := Find(rows, id).value;
    var last := |rows| - 1;
    if k != last {
      FindUpdated(rows[..last], id, value);
      assert rows[k := Row(id, value)][..last] == rows[..last][k := Row(id, value)];
    }
  }

  lemma FindLast<T>(rows: seq<Row<T>>, id: int, value: T)
    ensures Find(rows + [Row(id, value)], id) == Some(|rows|)
  {
  }

  /** An account archived into the invalid pool and restored without naming a channel goes back to the channel it came
      from, and both pools are as before. */
  lemma ArchivedComesBack(w: World, id: int, p: nat, reason: string, note: string, mode: RestoreMode, codec: Codec,
                          t1: int, t2: int)
    requires GoodWorld(w) && id > 0 && Find(w.channels, id).Some?
    requires var c := w.channels[Find(w.channels, id).value].value;
             p < |c.keys| && TrimSpace(c.keys[p]) != "" && codec.accepts(TrimSpace(c.keys[p]))
    ensures var w1 := Archive(w, InvalidPool, id, [p], reason, note, codec, t1);
            var w2 := RestoreFromPool(w1, w.nextInvalid, 0, mode, false, codec, t2);
            var k := Find(w.channels, id).value;
            var c := w.channels[k].value;
            && w2.invalid == w.invalid && w2.discarded == w.discarded && |w2.channels| == |w.channels|
            && w2.channels[k].value.keys == Remove(c, {p}, t1).keys + [TrimSpace(c.keys[p])]
            && forall q :: 0 <= q < |w.channels| && q != k ==> w2.channels[q] == w.channels[q]
  {
    hide Find, Remove, RecordAt, TrimSpace, Good;
    var k := Find(w.channels, id).value;
    var c := w.channels[k].value;
    var record := RecordAt(id, c, p, reason, note, codec);
    var c1 := Remove(c, {p}, t1);
    ArchiveOne(w, id, p, reason, note, codec, t1);
    var w1 := Archive(w, InvalidPool, id, [p], reason, note, codec, t1);
    RecordFields(id, c, p, reason, note, codec);
    FindLast(w.invalid, w.nextInvalid, record);
    FindUpdated(w.channels, id, c1);
    RemovedNotHeld(c, p, t1);
    assert TrimSpace(record.credential) == TrimSpace(c.keys[p]);
    assert forall j :: 0 <= j < |c1.keys| ==> TrimSpace(c1.keys[j]) != TrimSpace(c.keys[p]);
    RestoreMoves(w1, w.nextInvalid, 0, mode, false, codec, t2);
    assert w1.invalid[..|w.invalid|] + w1.invalid[|w.invalid| + 1..] == w.invalid;
  }

  lemma ArchiveOne(w: World, id: int, p: nat, reason: string, note: string, codec: Codec, now: int)
    requires Find(w.channels, id).Some?
    requires var c := w.channels[Find(w.channels, id).value].value; p < |c.keys| && TrimSpace(c.keys[p]) != ""
    ensures var k := Find(w.channels, id).value;
            var c := w.channels[k].value;
            var w1 := Archive(w, InvalidPool, id, [p], reason, note, codec, now);
            && w1.channels == w.channels[k := Row(id, Remove(c, {p}, now))]
            && w1.invalid == w.invalid + [Row(w.nextInvalid, RecordAt(id, c, p, reason, note, codec))]
            && w1.discarded == w.discarded
  {
    hide Find, Remove, Chosen, RecordAt, TrimSpace, Kept;
    var c := w.channels[Find(w.channels, id).value].value;
    assert IndexSet([p]) == {p};
    ChosenOne(|c.keys|, p);
  }

  lemma {:induction false} ChosenOne(n: nat, p: nat)
    requires p < n
    ensures Chosen(n, {p}) == [p]
  {
    hide Chosen, Kept;
    KeptAndChosenStep(n, {p});
    if p < n - 1 {
      ChosenOne(n - 1, p);
    } else {
      ChosenNone(n - 1, p);
    }
  }

  lemma {:induction false} ChosenNone(n: nat, p: nat)
    requires n <= p
    ensures Chosen(n, {p}) == []
  {
    if n > 0 {
      ChosenNone(n - 1, p);
    }
  }

  // ---------------------------------------------------------------- the tables

  /** The archive records of the selected accounts in ascending order, or none if one is not registered. */
  method BuildRecords(id: int, c: Channel, at: set<int>, reason: string, note: string, codec: Codec)
    returns (records: Option<seq<ArchiveRecord>>)
    ensures records == if AllRegistered(c, at) then
               Some(RecordsAt(id, c, Chosen(|c.keys|, at), reason, note, codec)) else None
  {
    hide TrimSpace, RecordAt;
    var built := [];
    for i := 0 to |c.keys|
      invariant forall k :: k in at && 0 <= k < i ==> TrimSpace(c.keys[k]) != ""
      invariant built == RecordsAt(id, c, Chosen(i, at), reason, note, codec)
    {
      if i in at {
        if TrimSpace(c.keys[i]) == "" {
          return None;
        }
        built := built + [RecordAt(id, c, i, reason, note, codec)];
      }
    }
    return Some(built);
  }

  /** The three tables, as the transactions leave them. */
  class Tables {
    var channels: seq<Row<Channel>>
    var invalid: seq<Row<ArchiveRecord>>
    var discarded: seq<Row<ArchiveRecord>>
    var nextInvalid: int
    var nextDiscarded: int

    function State(): World
      reads this
    {
      World(channels, invalid, discarded, nextInvalid, nextDiscarded)
    }

    constructor (w: World)
      ensures State() == w
    {
      channels, invalid, discarded, nextInvalid, nextDiscarded :=
        w.channels, w.invalid, w.discarded, w.nextInvalid, w.nextDiscarded;
    }

    method ArchiveAccounts(pool: Pool, id: int, indexes: seq<int>, reason: string, note: string, codec: Codec, now: int)
      modifies this
      ensures State() == Archive(old(State()), pool, id, indexes, reason, note, codec, now)
    {
      hide Remove, ValidIndexes, RecordsAt, AllRegistered, Chosen, TrimSpace;
      var k := Find(channels, id);
      if k.None? {
        return;
      }
      var c := channels[k.value].value;
      var at := NormalizeIndexes(indexes, |c.keys|);
      if at.None? {
        return;
      }
      var records := BuildRecords(id, c, at.value, reason, note, codec);
      if records.None? {
        return;
      }
      if pool == DiscardedPool {
        discarded := discarded + NumberRows(records.value, nextDiscarded);
        nextDiscarded := nextDiscarded + |records.value|;
      } else {
        invalid := invalid + NumberRows(records.value, nextInvalid);
        nextInvalid := nextInvalid + |records.value|;
      }
      var live := new Record(c);
      var op := live.DeleteAccounts(indexes, now);
      channels := channels[k.value := Row(id, live.State())];
    }

    /** `crash` stops after the channel is saved and before the pool row is deleted. */
    method RestoreAccount(poolId: int, target: int, mode: RestoreMode, crash: bool, codec: Codec, now: int)
      modifies this
      ensures State() == RestoreFromPool(old(State()), poolId, target, mode, crash, codec, now)
    {
      hide Restore, TrimSpace;
      var p := Find(invalid, poolId);
      if p.None? {
        return;
      }
      var record := invalid[p.value].value;
      var id := if target > 0 then target else record.channelId;
      var k := Find(channels, id);
      if id <= 0 || k.None? {
        return;
      }
      var live := new Record(channels[k.value].value);
      var op := live.RestoreAccount(record, mode, codec, now);
      if op.None? {
        return;
      }
      channels := channels[k.value := Row(id, live.State())];
      if !crash {
        invalid := Erase(invalid, p.value);
      }
    }

    method DiscardAccount(poolId: int)
      modifies this
      ensures State() == Discard(old(State()), poolId)
    {
      var p := Find(invalid, poolId);
      if p.None? {
        return;
      }
      discarded := discarded + NumberRows([invalid[p.value].value], nextDiscarded);
      nextDiscarded := nextDiscarded + 1;
      invalid := Erase(invalid, p.value);
    }
  }
}
