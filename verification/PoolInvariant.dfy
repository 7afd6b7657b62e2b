/** What every account operation keeps, over every run. */
module PoolInvariant {
  import opened Text
  import opened Seqs
  import opened AccountPool

  /** No credential is listed twice, not even up to outer space. */
  ghost predicate DistinctKeys(keys: seq<string>) {
    forall i, j :: 0 <= i < j < |keys| ==> TrimSpace(keys[i]) != TrimSpace(keys[j])
  }

  ghost predicate InRange<V>(m: map<int, V>, n: int) {
    forall i :: i in m ==> 0 <= i < n
  }

  ghost predicate MapsInRange(m: AccountMaps, n: int) {
    && InRange(m.status, n) && InRange(m.reason, n) && InRange(m.time, n) && InRange(m.proxy, n)
    && InRange(m.kind, n) && InRange(m.limit, n) && InRange(m.capability, n)
  }

  ghost predicate OnlyDisablingEntries(m: AccountMaps) {
    forall i :: i in m.status ==> m.status[i] != ENABLED
  }

  /** Sizes, positions and entries agree with the key list. */
  ghost predicate Shaped(c: Channel) {
    && DistinctKeys(c.keys)
    && c.size == |c.keys|
    && (c.multi <==> |c.keys| > 1)
    && MapsInRange(c.maps, |c.keys|)
    && OnlyDisablingEntries(c.maps)
    && (!c.multi ==> c.maps.status == map[])
  }

  /** The channel status follows the number of enabled accounts. */
  ghost predicate StatusFollows(c: Channel) {
    && (NoneEnabled(c) ==> c.status != ENABLED)
    && (c.status == AUTO_DISABLED && AllDisabledReason(c.info) ==> NoneEnabled(c))
  }

  ghost predicate Good(c: Channel) {
    Shaped(c) && StatusFollows(c)
  }

  // ---------------------------------------------------------------- reconciliation

  lemma ReconcileFollows(c: Channel, now: int)
    ensures StatusFollows(Reconcile(c, now))
    ensures StatusFollows(ReconcileGuarded(c, now))
    ensures StatusFollows(ReconcileBalance(c, now))
  {
  }

  /** Any of the three reconciliation rules turns a shaped channel into a good one. */
  lemma ReconcileGood(c: Channel, now: int)
    requires Shaped(c)
    ensures Good(SaveAbility(Reconcile(c, now)))
    ensures Good(ReconcileGuarded(c, now))
    ensures Good(ReconcileBalance(c, now))
  {
    hide AllDisabledReason;
    ReconcileFollows(c, now);
  }

  lemma CleanMapsShape(m: AccountMaps, n: nat)
    ensures MapsInRange(CleanMaps(m, n), n) && OnlyDisablingEntries(CleanMaps(m, n))
    ensures OnlyDisablingEntries(m) && InRange(m.status, n) ==> CleanMaps(m, n).status == m.status
  {
    hide KnownKind;
    if OnlyDisablingEntries(m) && InRange(m.status, n) {
      DisablingStableIff(m.status, n);
    }
  }

  /** Cleanup changes nothing exactly when every position is in range and every entry says something: a status that
      disables, a positive proxy or limit, a known account type. */
  lemma CleanMapsStableIff(m: AccountMaps, n: nat)
    ensures CleanMaps(m, n) == m <==>
            && MapsInRange(m, n) && OnlyDisablingEntries(m)
            && (forall i :: i in m.proxy ==> m.proxy[i] > 0)
            && (forall i :: i in m.limit ==> m.limit[i] > 0)
            && (forall i :: i in m.kind ==> KnownKind(m.kind[i]))
  {
    hide KnownKind, Clip, Disabling, Positive, Known;
    DisablingStableIff(m.status, n);
    ClipStableIff(m.reason, n);
    ClipStableIff(m.time, n);
    PositiveStableIff(m.proxy, n);
    KnownStableIff(m.kind, n);
    PositiveStableIff(m.limit, n);
    ClipStableIff(m.capability, n);
  }

  lemma ClipStableIff<V>(m: map<int, V>, n: int)
    ensures Clip(m, n) == m <==> InRange(m, n)
  {
    if InRange(m, n) {
      SameMap(m, Clip(m, n));
    }
  }

  lemma DisablingStableIff(m: map<int, int>, n: int)
    ensures Clip(Disabling(m), n) == m <==> InRange(m, n) && forall i :: i in m ==> m[i] != ENABLED
  {
    if InRange(m, n) && forall i :: i in m ==> m[i] != ENABLED {
      SameMap(m, Clip(Disabling(m), n));
    }
  }

  lemma PositiveStableIff(m: map<int, int>, n: int)
    ensures Clip(Positive(m), n) == m <==> InRange(m, n) && forall i :: i in m ==> m[i] > 0
  {
    if InRange(m, n) && forall i :: i in m ==> m[i] > 0 {
      SameMap(m, Clip(Positive(m), n));
    }
  }

  lemma KnownStableIff(m: map<int, string>, n: int)
    ensures Clip(Known(m), n) == m <==> InRange(m, n) && forall i :: i in m ==> KnownKind(m[i])
  {
    hide KnownKind;
    if InRange(m, n) && forall i :: i in m ==> KnownKind(m[i]) {
      SameMap(m, Clip(Known(m), n));
    }
  }

  /** Disabling one account takes it out of the enabled ones, and enabling it puts it in. */
  lemma SwitchOneEnabled(m: AccountMaps, i: int, status: int, reason: string, now: int, n: nat)
    requires 0 <= i < n && status != ENABLED
    ensures EnabledSet(DisableAt(m, {i}, status, reason, now), n) == EnabledSet(m, n) - {i}
    ensures i in EnabledSet(EnableAt(m, {i}), n)
  {
  }

  /** Disabling a batch takes exactly that batch out of the enabled accounts. */
  lemma DisableAtShape(m: AccountMaps, at: set<int>, status: int, reason: string, now: int, n: nat)
    requires MapsInRange(m, n) && OnlyDisablingEntries(m)
    requires status != ENABLED && forall i :: i in at ==> 0 <= i < n
    ensures var m' := DisableAt(m, at, status, reason, now);
            && MapsInRange(m', n) && OnlyDisablingEntries(m')
            && EnabledSet(m', n) == EnabledSet(m, n) - at
  {
  }

  /** Enabling a batch adds exactly that batch to the enabled accounts. */
  lemma EnableAtShape(m: AccountMaps, at: set<int>, n: nat)
    requires MapsInRange(m, n) && OnlyDisablingEntries(m)
    requires forall i :: i in at ==> 0 <= i < n
    ensures var m' := EnableAt(m, at);
            && MapsInRange(m', n) && OnlyDisablingEntries(m')
            && EnabledSet(m', n) == EnabledSet(m, n) + at
  {
  }

  // ---------------------------------------------------------------- one step at a time

  lemma GatherDistinct(keys: seq<string>, kept: seq<int>)
    requires DistinctKeys(keys) && Ascending(kept) && Within(kept, |keys|)
    ensures DistinctKeys(Gather(keys, kept))
  {
    var r := Gather(keys, kept);
    forall i, j | 0 <= i < j < |r| ensures TrimSpace(r[i]) != TrimSpace(r[j]) {
      assert kept[i] < kept[j];
    }
  }

  lemma PullShape(m: AccountMaps, kept: seq<int>)
    ensures MapsInRange(PullMaps(m, kept), |kept|) && OnlyDisablingEntries(PullMaps(m, kept))
  {
    hide Pull, NormalKinds, Positive;
    PulledInRange(Disabling(m.status), kept);
    PulledInRange(m.reason, kept);
    PulledInRange(m.time, kept);
    PulledInRange(Positive(m.proxy), kept);
    PulledInRange(NormalKinds(m.kind), kept);
    PulledInRange(Positive(m.limit), kept);
    PulledInRange(m.capability, kept);
  }

  /** Pulled entries are at new positions and were there before. */
  lemma PulledInRange<V>(m: map<int, V>, kept: seq<int>)
    ensures InRange(Pull(m, kept), |kept|)
    ensures forall j :: j in Pull(m, kept) ==> 0 <= j < |kept| && kept[j] in m && Pull(m, kept)[j] == m[kept[j]]
  {
  }

  lemma PulledStatus(m: AccountMaps, kept: seq<int>, j: nat)
    requires j < |kept|
    ensures EffectiveStatus(PullMaps(m, kept), j) == EffectiveStatus(m, kept[j])
  {
    hide NormalKinds;
  }

  lemma ReconcileFrame(c: Channel, now: int)
    ensures var c' := Reconcile(c, now); c'.keys == c.keys && c'.maps == c.maps
  {
    hide AllDisabledReason, EnabledSet;
  }

  lemma ShrinkShaped(c: Channel, doomed: set<int>)
    requires Shaped(c)
    ensures Shaped(Shrink(c, doomed))
  {
    hide Kept, Gather, DistinctKeys, PullMaps;
    var kept := Kept(|c.keys|, doomed);
    GatherDistinct(c.keys, kept);
    PullShape(c.maps, kept);
  }

  lemma RemoveKeepsGood(c: Channel, doomed: set<int>, now: int)
    requires Good(c)
    ensures Good(Remove(c, doomed, now))
  {
    hide Shaped, StatusFollows, Shrink, Reconcile;
    ShrinkShaped(c, doomed);
    ReconcileGood(Shrink(c, doomed), now);
  }

  /** Appending credentials no existing account holds keeps the list free of duplicates. */
  lemma AppendDistinct(keys: seq<string>, added: seq<string>)
    requires DistinctKeys(keys) && Distinct(added)
    requires forall k :: k in added ==> Canonical(k) && k !in ExistingSet(keys)
    ensures DistinctKeys(keys + added)
  {
    var all := keys + added;
    forall i, j | 0 <= i < j < |all| ensures TrimSpace(all[i]) != TrimSpace(all[j]) {
      if j >= |keys| {
        assert all[j] in added;
        if i < |keys| {
          assert TrimSpace(all[i]) != "" ==> TrimSpace(all[i]) in ExistingSet(keys);
        } else {
          assert all[i] in added;
          assert all[i] == added[i - |keys|] && all[j] == added[j - |keys|];
        }
      }
    }
  }

  lemma GrowShaped(c: Channel, added: seq<string>, limit: int)
    requires Good(c) && Distinct(added) && added != []
    requires forall k :: k in added ==> Canonical(k) && k !in ExistingSet(c.keys)
    ensures Shaped(Grow(c, added, limit))
    ensures Grow(c, added, limit).maps.status == c.maps.status
  {
    AppendDistinct(c.keys, added);
    var n := |c.keys + added|;
    CleanMapsShape(WithLimit(c.maps, NewPositions(|c.keys|, n), limit), n);
  }

  lemma NovelKeysFresh(c: Channel, lines: seq<string>, codec: Codec)
    requires codec.Lawful()
    ensures var novel := NovelKeys(c, InputKeys(lines, codec));
            Distinct(novel) && forall k :: k in novel ==> Canonical(k) && k !in ExistingSet(c.keys)
  {
  }

  lemma ImportKeepsGood(c: Channel, lines: seq<string>, onlyNew: bool, limit: Option<int>, codec: Codec, now: int)
    requires Good(c) && codec.Lawful()
    ensures Good(Import(c, lines, onlyNew, limit, codec, now).channel)
  {
    var r := Import(c, lines, onlyNew, limit, codec, now);
    if r.Done? {
      var novel := NovelKeys(c, InputKeys(lines, codec));
      var bound := if limit.Some? then limit.value else DEFAULT_IMPORT_LIMIT;
      NovelKeysFresh(c, lines, codec);
      GrowShaped(c, novel, bound);
      ReconcileImportGood(Grow(c, novel, bound), |c.keys|, now);
    }
  }

  lemma KeepSoleShape(c: Channel, previous: nat, now: int)
    requires Shaped(c) && |c.keys| > 1
    ensures MapsInRange(KeepSoleDisabled(c, previous, now), |c.keys|)
    ensures OnlyDisablingEntries(KeepSoleDisabled(c, previous, now))
  {
    hide DisabledReason, ReasonText;
  }

  lemma ImportManyGood(c: Channel, previous: nat, now: int)
    requires Shaped(c) && |c.keys| > 1
    ensures Good(SaveAbility(ReconcileImport(c, previous, now)))
  {
    hide DisableAt, KeepSoleDisabled, Good, Reconcile;
    var maps := KeepSoleDisabled(c, previous, now);
    var at := NewPositions(previous, |c.keys|);
    KeepSoleShape(c, previous, now);
    DisableAtShape(maps, at, MANUALLY_DISABLED, MANUAL_REASON, now, |c.keys|);
    ReconcileGood(c.(maps := DisableAt(maps, at, MANUALLY_DISABLED, MANUAL_REASON, now)), now);
  }

  lemma ReconcileImportGood(c: Channel, previous: nat, now: int)
    requires Shaped(c) && previous < |c.keys|
    ensures Good(SaveAbility(ReconcileImport(c, previous, now)))
  {
    if |c.keys| > 1 {
      ImportManyGood(c, previous, now);
    } else {
      assert 0 in EnabledSet(ReconcileImport(c, previous, now).maps, 1);
    }
  }

  lemma AttachShape(m: AccountMaps, i: nat, record: ArchiveRecord, codec: Codec)
    requires MapsInRange(m, i + 1)
    ensures MapsInRange(AttachRecord(m, i, record, codec), i + 1)
    ensures AttachRecord(m, i, record, codec).status == m.status
  {
    hide KnownKind, NormalKind, TrimSpace;
  }

  lemma CanRestoreIsNew(c: Channel, record: ArchiveRecord, codec: Codec)
    requires CanRestore(c, record, codec)
    ensures Canonical(TrimSpace(record.credential)) && TrimSpace(record.credential) !in ExistingSet(c.keys)
  {
    hide TrimSpace;
  }

  lemma RestoreManyGood(c: Channel, record: ArchiveRecord, mode: RestoreMode, codec: Codec, now: int)
    requires Good(c) && CanRestore(c, record, codec) && c.keys != []
    ensures Good(Restore(c, record, mode, codec, now).channel)
  {
    hide TrimSpace, CanRestore, DisableAt, AttachRecord, AllDisabledReason, CleanMaps, WithLimit, DistinctKeys;
    var n := |c.keys|;
    var grown := Grow(c, [TrimSpace(record.credential)], 0);
    var off := DisableAt(grown.maps, {n}, RestoreStatus(mode), RestoreReason(mode), now);
    CanRestoreIsNew(c, record, codec);
    GrowShaped(c, [TrimSpace(record.credential)], 0);
    DisableAtShape(grown.maps, {n}, RestoreStatus(mode), RestoreReason(mode), now, n + 1);
    assert EnabledSet(off, n + 1) == EnabledSet(c.maps, n);
    AttachShape(off, n, record, codec);
  }

  lemma RestoreSoleGood(c: Channel, record: ArchiveRecord, mode: RestoreMode, codec: Codec, now: int)
    requires Good(c) && CanRestore(c, record, codec) && c.keys == []
    ensures Good(Restore(c, record, mode, codec, now).channel)
  {
    hide TrimSpace, CanRestore, AttachRecord, CleanMaps, WithLimit;
    var grown := Grow(c, [TrimSpace(record.credential)], 0);
    CanRestoreIsNew(c, record, codec);
    GrowShaped(c, [TrimSpace(record.credential)], 0);
    AttachShape(grown.maps, 0, record, codec);
    assert 0 in EnabledSet(grown.maps, 1);
  }

  lemma RestoreKeepsGood(c: Channel, record: ArchiveRecord, mode: RestoreMode, codec: Codec, now: int)
    requires Good(c)
    ensures Good(Restore(c, record, mode, codec, now).channel)
  {
    hide Good, CanRestore;
    if CanRestore(c, record, codec) {
      if c.keys == [] {
        RestoreSoleGood(c, record, mode, codec, now);
      } else {
        RestoreManyGood(c, record, mode, codec, now);
      }
    }
  }

  lemma StatusKeepsGood(c: Channel, indexes: seq<int>, enabled: bool, reason: string, now: int)
    requires Good(c)
    ensures Good(UpdateStatus(c, indexes, enabled, reason, now).channel)
  {
    hide SwitchMany, SwitchSole, DistinctKeys, StatusFollows;
    if ValidIndexes(indexes, |c.keys|) {
      var at := IndexSet(indexes);
      assert 0 <= indexes[0] < |c.keys|;
      if c.multi {
        SwitchManyKeepsGood(c, at, enabled, reason, now);
      } else {
        SwitchSoleKeepsGood(c, enabled, reason, now);
      }
    }
  }

  lemma SwitchManyKeepsGood(c: Channel, at: set<int>, enabled: bool, reason: string, now: int)
    requires Good(c) && c.multi && forall i :: i in at ==> 0 <= i < |c.keys|
    ensures Good(SwitchMany(c, at, enabled, reason, now))
  {
    hide CleanMaps, EnableAt, DisableAt, AllDisabledReason, ReconcileGuarded;
    var clean := CleanMaps(c.maps, |c.keys|);
    CleanMapsShape(c.maps, |c.keys|);
    DisableAtShape(clean, at, MANUALLY_DISABLED, DisabledReason(reason), now, |c.keys|);
    EnableAtShape(clean, at, |c.keys|);
    var maps := if enabled then EnableAt(clean, at)
                else DisableAt(clean, at, MANUALLY_DISABLED, DisabledReason(reason), now);
    ReconcileGood(c.(size := |c.keys|, maps := maps), now);
  }

  lemma SwitchSoleKeepsGood(c: Channel, enabled: bool, reason: string, now: int)
    requires Good(c) && |c.keys| == 1
    ensures Good(SwitchSole(c, enabled, reason, now))
  {
    assert 0 in EnabledSet(c.maps, |c.keys|);
  }

  lemma ReplaceDistinct(c: Channel, i: int, credential: string)
    requires DistinctKeys(c.keys) && 0 <= i < |c.keys|
    requires Trimmed(credential) && !HeldByOther(c.keys, i, credential)
    ensures DistinctKeys(c.keys[i := credential])
  {
  }

  lemma EditedCredentialTrimmed(text: string, kind: string, codec: Codec)
    requires codec.Lawful() && TrimSpace(text) != ""
    ensures var e := EditedCredential(text, kind, codec); e.Some? ==> Canonical(e.value.0)
  {
    hide TrimSpace, KnownKind, NormalKind;
  }

  /** A channel with other credentials, types and limits is as good, if its credentials are distinct. */
  lemma EditedGood(c: Channel, c1: Channel, m: AccountMaps)
    requires Good(c) && DistinctKeys(c1.keys) && |c1.keys| == |c.keys|
    requires c1.multi == c.multi && c1.size == c.size && c1.status == c.status && c1.info == c.info
    requires m.status == c.maps.status
    ensures Good(SaveAbility(c1.(maps := CleanMaps(m, |c.keys|))))
  {
    hide CleanMaps, AllDisabledReason, DistinctKeys;
    CleanMapsShape(m, |c.keys|);
    SameStatusSameEnabled(CleanMaps(m, |c.keys|), c.maps, |c.keys|);
  }

  lemma SameStatusSameEnabled(a: AccountMaps, b: AccountMaps, n: nat)
    requires a.status == b.status
    ensures EnabledSet(a, n) == EnabledSet(b, n)
  {
  }

  lemma CredentialKeepsGood(c: Channel, i: int, text: string, kind: string,
                            environment: Option<bool>, limit: Option<int>, codec: Codec)
    requires Good(c) && codec.Lawful()
    ensures Good(UpdateCredential(c, i, text, kind, environment, limit, codec).channel)
  {
    hide EditedCredential, CleanMaps, AllDisabledReason, HeldByOther, TrimSpace, NoneEnabled, DistinctKeys, MapsInRange,
         OnlyDisablingEntries;
    var r := UpdateCredential(c, i, text, kind, environment, limit, codec);
    if r.Done? {
      var edited := EditedCredential(text, kind, codec);
      var changes := TrimSpace(text) != "";
      var c1 := if changes then ReplaceCredential(c, i, edited.value.0, edited.value.1) else c;
      var m := if limit.Some? then SetLimit(c1.maps, i, limit.value) else c1.maps;
      if changes {
        EditedCredentialTrimmed(text, kind, codec);
        ReplaceDistinct(c, i, edited.value.0);
      }
      EditedGood(c, c1, m);
    }
  }

  lemma ProxyKeepsGood(c: Channel, indexes: seq<int>, proxy: int, allowed: bool)
    requires Good(c)
    ensures Good(UpdateProxy(c, indexes, proxy, allowed).channel)
  {
    CleanMapsShape(c.maps, |c.keys|);
  }

  lemma PauseKeepsGood(c: Channel, i: int, now: int)
    requires Good(c)
    ensures Good(BalancePause(c, i, now))
  {
    hide DisableAt, ReconcileBalance;
    if c.multi && 0 <= i < |c.keys| {
      DisableAtShape(c.maps, {i}, AUTO_DISABLED, BALANCE_REASON, now, |c.keys|);
      ReconcileGood(c.(maps := DisableAt(c.maps, {i}, AUTO_DISABLED, BALANCE_REASON, now)), now);
    }
  }

  lemma ResumeKeepsGood(c: Channel, i: int, now: int)
    requires Good(c)
    ensures Good(BalanceResume(c, i, now))
  {
    hide EnableAt, ReconcileBalance, BalanceReason;
    if c.multi && 0 <= i < |c.keys| {
      EnableAtShape(c.maps, {i}, |c.keys|);
      ReconcileGood(c.(maps := EnableAt(c.maps, {i})), now);
    }
  }

  lemma ClearKeepsGood(c: Channel)
    requires Good(c)
    ensures Good(BalanceClear(c))
  {
    hide EnableAt, AllDisabledReason, BalanceReason;
    var c1 := c.(maps := EnableAt(c.maps, BalancePaused(c.maps)));
    EnableAtShape(c.maps, BalancePaused(c.maps), |c.keys|);
  }

  lemma ApplyKeepsGood(c: Channel, e: Event, codec: Codec)
    requires Good(c) && codec.Lawful()
    ensures Good(Apply(c, e, codec))
  {
    hide Good, Remove, Import, Restore, UpdateStatus, UpdateCredential, UpdateProxy, BalancePause,
         BalanceResume, BalanceClear;
    match e.step
    case DeleteStep(indexes) =>
      if ValidIndexes(indexes, |c.keys|) { RemoveKeepsGood(c, IndexSet(indexes), e.now); }
    case ImportStep(lines, onlyNew, limit) => ImportKeepsGood(c, lines, onlyNew, limit, codec, e.now);
    case RestoreStep(record, mode) => RestoreKeepsGood(c, record, mode, codec, e.now);
    case StatusStep(indexes, enabled, reason) => StatusKeepsGood(c, indexes, enabled, reason, e.now);
    case CredentialStep(i, text, kind, environment, limit) =>
      CredentialKeepsGood(c, i, text, kind, environment, limit, codec);
    case ProxyStep(indexes, proxy, allowed) => ProxyKeepsGood(c, indexes, proxy, allowed);
    case BalancePauseStep(i) => PauseKeepsGood(c, i, e.now);
    case BalanceResumeStep(i) => ResumeKeepsGood(c, i, e.now);
    case BalanceClearStep => ClearKeepsGood(c);
  }

  /** Main result: every run of account and balance steps from a good channel ends in a good channel. */
  lemma {:induction false} RunKeepsGood(c: Channel, events: seq<Event>, codec: Codec)
    requires Good(c) && codec.Lawful()
    ensures Good(Run(c, events, codec))
  {
    if events != [] {
      RunKeepsGood(c, events[..|events| - 1], codec);
      ApplyKeepsGood(Run(c, events[..|events| - 1], codec), events[|events| - 1], codec);
    }
  }
}
