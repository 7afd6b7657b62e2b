/** What each operation does to each single account, and to no other. */
module PoolAccounts {
  import opened Text
  import opened Seqs
  import opened AccountPool
  import opened PoolInvariant

  function Lookup<V>(m: map<int, V>, i: int): Option<V> {
    if i in m then Some(m[i]) else None
  }

  /** Everything the pool records about the account at one position, as its readers see it. */
  datatype AccountView = AccountView(
    status: int, reason: Option<string>, time: Option<int>,
    proxy: int, kind: string, limit: int, capability: Option<string>)

  function View(m: AccountMaps, i: int): AccountView {
    AccountView(
      EffectiveStatus(m, i), Lookup(m.reason, i), Lookup(m.time, i),
      if i in m.proxy && m.proxy[i] > 0 then m.proxy[i] else 0,
      if i in m.kind && KnownKind(m.kind[i]) then NormalKind(m.kind[i]) else "",
      if i in m.limit && m.limit[i] > 0 then m.limit[i] else 0,
      Lookup(m.capability, i))
  }

  /** Nothing recorded: an enabled account with no proxy, type, limit or capability. */
  const BLANK := AccountView(ENABLED, None, None, 0, "", 0, None)

  lemma NormalKindStable(kind: string)
    ensures NormalKind(NormalKind(kind)) == NormalKind(kind)
  {
    hide TrimSpace;
    LowerKeepsTrimmed(TrimSpace(kind));
  }

  lemma KnownKindStable(kind: string)
    ensures KnownKind(NormalKind(kind)) <==> KnownKind(kind)
  {
    hide NormalKind;
    NormalKindStable(kind);
  }

  lemma CleanKeepsView(m: AccountMaps, n: int, i: int)
    requires 0 <= i < n
    ensures View(CleanMaps(m, n), i) == View(m, i)
  {
    hide KnownKind, NormalKind;
  }

  lemma OutsideIsBlank(m: AccountMaps, n: int, i: int)
    requires MapsInRange(m, n) && !(0 <= i < n)
    ensures View(m, i) == BLANK
  {
    hide KnownKind, NormalKind;
  }

  lemma DisableAtView(m: AccountMaps, at: set<int>, status: int, reason: string, now: int, i: int)
    ensures View(DisableAt(m, at, status, reason, now), i) ==
            if i in at then View(m, i).(status := status, reason := Some(reason), time := Some(now)) else View(m, i)
  {
    hide KnownKind, NormalKind;
  }

  lemma EnableAtView(m: AccountMaps, at: set<int>, i: int)
    ensures View(EnableAt(m, at), i) ==
            if i in at then View(m, i).(status := ENABLED, reason := None, time := None) else View(m, i)
  {
    hide KnownKind, NormalKind;
  }

  // ---------------------------------------------------------------- enable, disable, balance

  /** Switching a batch changes the status, reason and time of that batch and nothing else. */
  lemma SwitchManyView(c: Channel, at: set<int>, enabled: bool, reason: string, now: int, i: nat)
    requires i < |c.keys|
    ensures var c' := SwitchMany(c, at, enabled, reason, now);
            && c'.keys == c.keys
            && View(c'.maps, i) ==
                 if i !in at then View(c.maps, i)
                 else if enabled then View(c.maps, i).(status := ENABLED, reason := None, time := None)
                 else View(c.maps, i).(status := MANUALLY_DISABLED, time := Some(now),
                                       reason := Some(if TrimSpace(reason) == "" then "manual_disabled"
                                                      else TrimSpace(reason)))
  {
    hide AllDisabledReason, EnabledSet, View, CleanMaps, EnableAt, DisableAt, TrimSpace;
    var clean := CleanMaps(c.maps, |c.keys|);
    CleanKeepsView(c.maps, |c.keys|, i);
    EnableAtView(clean, at, i);
    DisableAtView(clean, at, MANUALLY_DISABLED, DisabledReason(reason), now, i);
  }

  lemma BalanceReasonRecognised()
    ensures BalanceReason(BALANCE_REASON)
  {
    hide TrimSpace, Contains;
    assert Trimmed(BALANCE_REASON);
    assert ToLower(BALANCE_REASON) == BALANCE_REASON;
  }

  /** Pausing an account for its balance and resuming it leaves an account that was enabled as it was. */
  lemma PauseThenResume(c: Channel, i: nat, t1: int, t2: int, k: nat)
    requires c.multi && i < |c.keys| && k < |c.keys|
    ensures var c' := BalanceResume(BalancePause(c, i, t1), i, t2);
            && c'.keys == c.keys
            && View(c'.maps, k) ==
                 if k == i then View(c.maps, i).(status := ENABLED, reason := None, time := None) else View(c.maps, k)
  {
    hide AllDisabledReason, EnabledSet, View, EnableAt, DisableAt, BalanceReason;
    BalanceReasonRecognised();
    var m := DisableAt(c.maps, {i}, AUTO_DISABLED, BALANCE_REASON, t1);
    PausedReason(c.maps, i, t1);
    DisableAtView(c.maps, {i}, AUTO_DISABLED, BALANCE_REASON, t1, k);
    EnableAtView(m, {i}, k);
  }

  /** Pausing and resuming brings back the status of the channel if it was enabled, or if another account is enabled
      and the channel was not off merely for having none. A good channel with an enabled account never was. */
  lemma PauseThenResumeStatusIff(c: Channel, i: nat, t1: int, t2: int)
    requires c.multi && i < |c.keys|
    ensures var c' := BalanceResume(BalancePause(c, i, t1), i, t2);
            var others := !(EnabledSet(c.maps, |c.keys|) <= {i});
            && (c'.status == c.status <==>
                c.status == ENABLED || (others && !(c.status == AUTO_DISABLED && AllDisabledReason(c.info))))
            && (Good(c) ==> (c'.status == c.status <==> c.status == ENABLED || others))
            && (Good(c) && others ==> c'.info == c.info)
  {
    hide AllDisabledReason, BalanceReason, Shaped, EnabledSet, DisableAt, EnableAt;
    BalanceReasonRecognised();
    PausedReason(c.maps, i, t1);
    AllDisabledIsRecognised(c.info, t1);
    var off := DisableAt(c.maps, {i}, AUTO_DISABLED, BALANCE_REASON, t1);
    SwitchOneEnabled(c.maps, i, AUTO_DISABLED, BALANCE_REASON, t1, |c.keys|);
    SwitchOneEnabled(off, i, AUTO_DISABLED, BALANCE_REASON, t1, |c.keys|);
  }

  lemma AllDisabledIsRecognised(info: StatusInfo, now: int)
    ensures AllDisabledReason(SetReason(info, ALL_DISABLED, now))
  {
    hide TrimSpace;
    assert Trimmed(ALL_DISABLED);
  }

  lemma PausedReason(m: AccountMaps, i: int, now: int)
    ensures var m' := DisableAt(m, {i}, AUTO_DISABLED, BALANCE_REASON, now);
            i in m'.reason && m'.reason[i] == BALANCE_REASON
  {
  }

  // ---------------------------------------------------------------- import and restore

  lemma GrowView(c: Channel, added: seq<string>, limit: int, i: nat)
    requires MapsInRange(c.maps, |c.keys|) && i < |c.keys| + |added|
    ensures View(Grow(c, added, limit).maps, i) ==
            if i < |c.keys| then View(c.maps, i) else BLANK.(limit := if limit > 0 then limit else 0)
  {
    hide CleanMaps, NewPositions;
    var n := |c.keys + added|;
    var m := WithLimit(c.maps, NewPositions(|c.keys|, n), limit);
    CleanKeepsView(m, n, i);
    WithLimitView(c.maps, NewPositions(|c.keys|, n), limit, i);
    if i >= |c.keys| {
      OutsideIsBlank(c.maps, |c.keys|, i);
    }
    hide View;
  }

  lemma WithLimitView(m: AccountMaps, at: set<int>, limit: int, i: int)
    ensures View(WithLimit(m, at, limit), i) ==
            if i in at && limit > 0 then View(m, i).(limit := limit) else View(m, i)
  {
    hide KnownKind, NormalKind;
  }

  /** The account that a channel had alone: when the channel is off, the account is switched off under the
      channel's reason, because from now on the channel has other accounts. */
  function JoinedView(c: Channel, now: int): AccountView {
    var v := View(c.maps, 0);
    if c.status == ENABLED then v
    else v.(status := MANUALLY_DISABLED, reason := Some(DisabledReason(ReasonText(c.info))),
            time := Some(if v.time.Some? && v.time.value != 0 then v.time.value else now))
  }

  function ImportedView(limit: Option<int>, now: int): AccountView {
    AccountView(MANUALLY_DISABLED, Some(MANUAL_REASON), Some(now), 0, "",
                if limit.Some? then limit.value else DEFAULT_IMPORT_LIMIT, None)
  }

  lemma KeepSoleView(c: Channel, previous: nat, now: int, i: int)
    ensures View(KeepSoleDisabled(c, previous, now), i) ==
            if previous == 1 && i == 0 then JoinedView(c, now) else View(c.maps, i)
  {
    hide KnownKind, NormalKind, DisabledReason, ReasonText;
  }

  /** Import appends the new credentials in order, each disabled by hand and with the chosen concurrency limit. It
      leaves the accounts of a channel with several alone, and a sole account as `JoinedView` says. */
  lemma ImportView(c: Channel, lines: seq<string>, onlyNew: bool, limit: Option<int>, codec: Codec, now: int, i: nat)
    requires Good(c)
    ensures var r := Import(c, lines, onlyNew, limit, codec, now);
            r.Done? ==>
              && r.channel.keys == c.keys + NovelKeys(c, InputKeys(lines, codec))
              && (1 < |r.channel.keys| && i < |r.channel.keys| ==>
                    View(r.channel.maps, i) ==
                      if i >= |c.keys| then ImportedView(limit, now)
                      else if c.multi then View(c.maps, i) else JoinedView(c, now))
  {
    hide AllDisabledReason, EnabledSet, View, DisableAt, Reconcile, NovelKeys, InputKeys, Dedup, DistinctKeys,
         CleanMaps,
         KeepSoleDisabled;
    var novel := NovelKeys(c, InputKeys(lines, codec));
    var bound := if limit.Some? then limit.value else DEFAULT_IMPORT_LIMIT;
    var g := Grow(c, novel, bound);
    var at := NewPositions(|c.keys|, |g.keys|);
    var sole := KeepSoleDisabled(g, |c.keys|, now);
    ReconcileFrame(g.(maps := DisableAt(sole, at, MANUALLY_DISABLED, MANUAL_REASON, now)), now);
    if i < |g.keys| {
      GrowView(c, novel, bound, i);
    }
    KeepSoleView(g, |c.keys|, now, i);
    DisableAtView(sole, at, MANUALLY_DISABLED, MANUAL_REASON, now, i);
  }

  /** The first account of a channel has no disabling entry; the channel itself is disabled by hand. */
  lemma ImportFirstView(c: Channel, lines: seq<string>, onlyNew: bool, limit: Option<int>, codec: Codec, now: int)
    requires Good(c)
    ensures var r := Import(c, lines, onlyNew, limit, codec, now);
            r.Done? && |r.channel.keys| == 1 ==>
              && c.keys == [] && !r.channel.ability
              && r.channel.status == MANUALLY_DISABLED && r.channel.info == SetReason(c.info, MANUAL_REASON, now)
              && View(r.channel.maps, 0) == BLANK.(limit := ImportedView(limit, now).limit)
  {
    hide AllDisabledReason, EnabledSet, NovelKeys, InputKeys, Dedup, DistinctKeys, CleanMaps, KnownKind, NormalKind;
    var novel := NovelKeys(c, InputKeys(lines, codec));
    var bound := if limit.Some? then limit.value else DEFAULT_IMPORT_LIMIT;
    if |c.keys| + |novel| == 1 {
      GrowView(c, novel, bound, 0);
    }
  }

  /** What a restored account shows: disabled, with the archived type, proxy and capability. */
  function RestoredView(record: ArchiveRecord, mode: RestoreMode, codec: Codec, now: int): AccountView {
    AccountView(
      if mode.ByAdministrator? then MANUALLY_DISABLED else AUTO_DISABLED,
      Some(if mode.ByAdministrator? then "restored_from_invalid_pool" else "auth_reauthorization_pending"),
      Some(now),
      if record.proxy > 0 then record.proxy else 0,
      if KnownKind(record.kind) then NormalKind(record.kind) else "",
      0,
      if TrimSpace(record.snapshot) != "" then codec.parse(record.snapshot) else None)
  }

  lemma AttachView(m: AccountMaps, n: int, record: ArchiveRecord, codec: Codec, i: int)
    requires View(m, n).proxy == 0 && View(m, n).kind == "" && View(m, n).capability == None
    ensures View(AttachRecord(m, n, record, codec), i) ==
            if i != n then View(m, i) else
              var r := RestoredView(record, ByAdministrator, codec, 0);
              View(m, n).(proxy := r.proxy, kind := r.kind, capability := r.capability)
  {
    hide KnownKind, NormalKind, TrimSpace;
    NormalKindStable(record.kind);
    KnownKindStable(record.kind);
  }

  /** Restoring into a nonempty channel appends the archived account and touches no other. */
  lemma RestoreView(c: Channel, record: ArchiveRecord, mode: RestoreMode, codec: Codec, now: int, i: nat)
    requires Good(c) && c.keys != [] && CanRestore(c, record, codec) && i <= |c.keys|
    ensures var c' := Restore(c, record, mode, codec, now).channel;
            && c'.keys == c.keys + [TrimSpace(record.credential)]
            && c'.status == c.status && c'.info == c.info
            && View(c'.maps, i) == if i < |c.keys| then View(c.maps, i) else RestoredView(record, mode, codec, now)
  {
    hide CanRestore, AllDisabledReason, EnabledSet, View, DisableAt, DistinctKeys, CleanMaps, AttachRecord, KnownKind,
         NormalKind, TrimSpace;
    var n := |c.keys|;
    var g := Grow(c, [TrimSpace(record.credential)], 0);
    var off := DisableAt(g.maps, {n}, RestoreStatus(mode), RestoreReason(mode), now);
    GrowView(c, [TrimSpace(record.credential)], 0, i);
    GrowView(c, [TrimSpace(record.credential)], 0, n);
    DisableAtView(g.maps, {n}, RestoreStatus(mode), RestoreReason(mode), now, i);
    DisableAtView(g.maps, {n}, RestoreStatus(mode), RestoreReason(mode), now, n);
    AttachView(off, n, record, codec, i);
  }

  /** The first account of a channel comes back with what was archived, and the channel is off instead of it. */
  lemma RestoreFirstView(c: Channel, record: ArchiveRecord, mode: RestoreMode, codec: Codec, now: int)
    requires Good(c) && c.keys == [] && CanRestore(c, record, codec)
    ensures var c' := Restore(c, record, mode, codec, now).channel;
            && c'.keys == [TrimSpace(record.credential)] && !c'.ability
            && c'.status == RestoreStatus(mode) && c'.info == SetReason(c.info, RestoreReason(mode), now)
            && View(c'.maps, 0) ==
                RestoredView(record, mode, codec, now).(status := ENABLED, reason := None, time := None)
  {
    hide AllDisabledReason, EnabledSet, View, DisableAt, Reconcile, DistinctKeys, CleanMaps, TrimSpace;
    var g := Grow(c, [TrimSpace(record.credential)], 0);
    GrowView(c, [TrimSpace(record.credential)], 0, 0);
    AttachView(g.maps, 0, record, codec, 0);
  }

  // ---------------------------------------------------------------- edits

  /** An edit changes the credential, type and limit of one account as the form says, and nothing else of any. */
  lemma CredentialView(c: Channel, i: int, text: string, kind: string, environment: Option<bool>, limit: Option<int>,
                       codec: Codec, k: nat)
    requires k < |c.keys|
    ensures var r := UpdateCredential(c, i, text, kind, environment, limit, codec);
            r.Done? ==>
              && |r.channel.keys| == |c.keys| && r.channel.status == c.status && r.channel.info == c.info
              && (TrimSpace(text) == "" || k != i ==> r.channel.keys[k] == c.keys[k])
              && (TrimSpace(text) != "" && k == i ==>
                    && EditedCredential(text, kind, codec).Some?
                    && r.channel.keys[i] == EditedCredential(text, kind, codec).value.0
                    && codec.accepts(r.channel.keys[i]) && !HeldByOther(c.keys, i, r.channel.keys[i]))
              && View(r.channel.maps, k) ==
                   if k != i then View(c.maps, k)
                   else View(c.maps, i).(
                     kind := if TrimSpace(text) == "" then View(c.maps, i).kind
                             else if NormalKind(kind) == "auto" then "" else NormalKind(kind),
                     limit := if limit.Some? then limit.value else View(c.maps, i).limit)
  {
    hide TrimSpace, KnownKind, NormalKind, CleanMaps, View;
    var r := UpdateCredential(c, i, text, kind, environment, limit, codec);
    if r.Done? {
      var edited := EditedCredential(text, kind, codec);
      var changes := TrimSpace(text) != "";
      var c1 := if changes then ReplaceCredential(c, i, edited.value.0, edited.value.1) else c;
      var m := if limit.Some? then SetLimit(c1.maps, i, limit.value) else c1.maps;
      CleanKeepsView(m, |c.keys|, k);
      LimitView(c1.maps, i, if limit.Some? then limit.value else 0, k);
      if changes {
        EditedKind(text, kind, codec);
        ReplacedView(c, i, edited.value.0, edited.value.1, k);
      }
    }
  }

  lemma LimitView(m: AccountMaps, i: int, limit: int, k: int)
    requires limit >= 0
    ensures View(SetLimit(m, i, limit), k) == if k == i then View(m, i).(limit := limit) else View(m, k)
  {
    hide KnownKind, NormalKind;
  }

  lemma ReplacedView(c: Channel, i: int, credential: string, kind: string, k: int)
    requires 0 <= i < |c.keys| && (kind == "" || (KnownKind(kind) && NormalKind(kind) == kind))
    ensures View(ReplaceCredential(c, i, credential, kind).maps, k) ==
            if k == i then View(c.maps, i).(kind := kind) else View(c.maps, k)
  {
    hide KnownKind, NormalKind;
  }

  /** The recorded type is one the gateway knows, in lower case, or none for automatic detection. */
  lemma EditedKind(text: string, kind: string, codec: Codec)
    ensures var e := EditedCredential(text, kind, codec);
            e.Some? ==>
              && e.value.1 == (if NormalKind(kind) == "auto" then "" else NormalKind(kind))
              && (e.value.1 == "" || (KnownKind(e.value.1) && NormalKind(e.value.1) == e.value.1))
  {
    hide NormalKind, TrimSpace;
    NormalKindStable(kind);
    KnownKindStable(kind);
  }

  /** Binding a proxy changes the proxy of the listed accounts and nothing else. */
  lemma ProxyView(c: Channel, indexes: seq<int>, proxy: int, allowed: bool, k: nat)
    requires k < |c.keys|
    ensures var r := UpdateProxy(c, indexes, proxy, allowed);
            r.Done? ==>
              && r.channel == c.(maps := r.channel.maps)
              && View(r.channel.maps, k) ==
                   if k in indexes then View(c.maps, k).(proxy := if proxy > 0 then proxy else 0) else View(c.maps, k)
  {
    hide KnownKind, NormalKind, CleanMaps, Within;
    CleanKeepsView(c.maps, |c.keys|, k);
  }

  // ---------------------------------------------------------------- lifting balance pauses

  /** Exactly the accounts paused for their balance are switched on. */
  lemma ClearView(c: Channel, k: nat)
    requires c.multi && k < |c.keys|
    ensures View(BalanceClear(c).maps, k) ==
            if k in c.maps.reason && BalanceReason(c.maps.reason[k])
            then View(c.maps, k).(status := ENABLED, reason := None, time := None) else View(c.maps, k)
    ensures BalanceClear(c).keys == c.keys
  {
    hide KnownKind, NormalKind, BalanceReason, AllDisabledReason, EnabledSet, View;
    EnableAtView(c.maps, BalancePaused(c.maps), k);
  }

  /** Nothing is left to lift. */
  lemma ClearTwice(c: Channel)
    requires c.multi && c.keys != []
    ensures BalancePaused(BalanceClear(c).maps) == {} && BalanceClear(BalanceClear(c)) == BalanceClear(c)
  {
    hide BalanceReason, AllDisabledReason, EnabledSet;
  }
}
