/** Which credentials can serve after each step, and what the administrator is told about it. */
module PoolService {
  import opened Text
  import opened Seqs
  import opened AccountPool
  import opened PoolInvariant
  import opened PoolAccounts
  import opened PoolAccess
  import opened PoolDeletion
  import opened PoolOutcome

  /** A credential is usable when its channel is enabled and its account is. */
  lemma UsableIff(c: Channel, x: string)
    ensures x in Usable(c) <==>
            && c.status == ENABLED
            && exists i :: 0 <= i < |c.keys| && c.keys[i] == x && EffectiveStatus(c.maps, i) == ENABLED
  {
    hide EffectiveStatus;
    if c.status == ENABLED {
      if i :| 0 <= i < |c.keys| && c.keys[i] == x && EffectiveStatus(c.maps, i) == ENABLED {
        assert i in EnabledSet(c.maps, |c.keys|);
      }
    }
  }

  lemma SameKeySamePosition(c: Channel, i: nat, j: nat)
    requires DistinctKeys(c.keys) && i < |c.keys| && j < |c.keys| && c.keys[i] == c.keys[j]
    ensures i == j
  {
  }

  /** A good channel serves exactly when it is enabled. */
  lemma GoodServesIff(c: Channel)
    requires Good(c)
    ensures Usable(c) != {} <==> c.status == ENABLED
  {
    hide Shaped, AllDisabledReason, EffectiveStatus;
    if c.status == ENABLED {
      var i :| i in EnabledSet(c.maps, |c.keys|);
      UsableIff(c, c.keys[i]);
    }
  }

  // ---------------------------------------------------------------- deletion

  ghost predicate InOrder(keys: seq<string>, x: string, y: string) {
    exists i, j :: 0 <= i < j < |keys| && keys[i] == x && keys[j] == y
  }

  lemma InOrderAt(keys: seq<string>, i: nat, j: nat)
    requires i < j < |keys|
    ensures InOrder(keys, keys[i], keys[j])
  {
  }

  /** Deletion removes the listed credentials, and all others stay in their order. */
  lemma DeleteRemoves(c: Channel, indexes: seq<int>, now: int)
    requires Good(c)
    ensures var r := Delete(c, indexes, now);
            r.Done? ==>
              && (forall i :: 0 <= i < |c.keys| ==> (c.keys[i] in r.channel.keys <==> i !in indexes))
              && (forall a, b :: 0 <= a < b < |r.channel.keys| ==>
                    InOrder(c.keys, r.channel.keys[a], r.channel.keys[b]))
              && |r.channel.keys| + r.operation.deleted == |c.keys|
              && r.operation.affected == r.operation.deleted
  {
    hide Remove, Kept, AllDisabledReason, StatusFollows, DistinctKeys, InOrder;
    var r := Delete(c, indexes, now);
    if r.Done? {
      var doomed := IndexSet(indexes);
      var kept := Kept(|c.keys|, doomed);
      RemovedGather(c, doomed, now);
      KeptCount(|c.keys|, doomed);
      assert Below(|c.keys|, doomed) == doomed;
      forall i | 0 <= i < |c.keys| ensures c.keys[i] in r.channel.keys <==> i !in indexes {
        KeptHolds(c, doomed, i);
      }
      forall a, b | 0 <= a < b < |r.channel.keys| ensures InOrder(c.keys, r.channel.keys[a], r.channel.keys[b]) {
        assert kept[a] < kept[b];
        InOrderAt(c.keys, kept[a], kept[b]);
      }
    }
  }

  lemma KeptHolds(c: Channel, doomed: set<int>, i: nat)
    requires DistinctKeys(c.keys) && i < |c.keys|
    ensures c.keys[i] in Gather(c.keys, Kept(|c.keys|, doomed)) <==> i !in doomed
  {
    hide Kept, TrimSpace;
    var kept := Kept(|c.keys|, doomed);
    var left := Gather(c.keys, kept);
    if i !in doomed {
      var j := KeptPosition(|c.keys|, doomed, i);
      assert left[j] == c.keys[i];
    } else if j :| 0 <= j < |left| && left[j] == c.keys[i] {
      SameKeySamePosition(c, i, kept[j]);
    }
  }

  lemma {:induction false} KeptPosition(n: nat, doomed: set<int>, i: nat) returns (j: nat)
    requires i < n && i !in doomed
    ensures j < |Kept(n, doomed)| && Kept(n, doomed)[j] == i
  {
    hide Kept;
    KeptSnoc(n - 1, doomed);
    if i == n - 1 {
      j := |Kept(n, doomed)| - 1;
    } else {
      j := KeptPosition(n - 1, doomed, i);
    }
  }

  lemma RemovedGather(c: Channel, doomed: set<int>, now: int)
    ensures Remove(c, doomed, now).keys == Gather(c.keys, Kept(|c.keys|, doomed))
  {
    hide AllDisabledReason, Kept, PullMaps, EnabledSet;
  }

  ghost function Below(n: nat, doomed: set<int>): set<int> {
    set i | 0 <= i < n && i in doomed
  }

  lemma {:induction false} KeptCount(n: nat, doomed: set<int>)
    ensures |Kept(n, doomed)| + |Below(n, doomed)| == n
  {
    if n == 0 {
      assert Below(0, doomed) == {};
    } else {
      KeptCount(n - 1, doomed);
      assert Below(n, doomed) == Below(n - 1, doomed) + if n - 1 in doomed then {n - 1} else {};
    }
  }

  /** Of several survivors those that could serve still can. A lone one serves if the channel is on, or was off merely
      for having no enabled account. */
  lemma DeleteUsable(c: Channel, doomed: set<int>, now: int, x: string)
    requires Good(c)
    ensures var kept := Kept(|c.keys|, doomed);
            x in Usable(Remove(c, doomed, now)) <==>
            if |kept| == 1 then Willing(c) && x == c.keys[kept[0]]
            else x in Usable(c) && exists j :: 0 <= j < |kept| && c.keys[kept[j]] == x
  {
    hide Kept, Remove, AllDisabledReason, View, EffectiveStatus, Shaped, EnabledSet;
    var kept := Kept(|c.keys|, doomed);
    var c' := Remove(c, doomed, now);
    UsableIff(c, x);
    UsableIff(c', x);
    DeleteOutcome(c, doomed, now);
    RemovedGather(c, doomed, now);
    SurvivorStatus(c, doomed, now);
    if |kept| > 1 {
      if x in Usable(c') && OffForNone(c) {
        var j :| 0 <= j < |kept| && EffectiveStatus(c'.maps, j) == ENABLED;
        SomeIsEnabled(c, kept[j]);
      }
      if x in Usable(c) {
        var i :| 0 <= i < |c.keys| && c.keys[i] == x && EffectiveStatus(c.maps, i) == ENABLED;
        if j :| 0 <= j < |kept| && c.keys[kept[j]] == x {
          DistinctPositions(c, i, kept[j]);
        }
      }
    }
  }

  lemma DistinctPositions(c: Channel, i: nat, j: nat)
    requires Good(c) && i < |c.keys| && j < |c.keys| && c.keys[i] == c.keys[j]
    ensures i == j
  {
    hide StatusFollows;
  }

  lemma SomeIsEnabled(c: Channel, i: int)
    requires 0 <= i < |c.keys| && EffectiveStatus(c.maps, i) == ENABLED
    ensures !NoneEnabled(c)
  {
    assert i in EnabledSet(c.maps, |c.keys|);
  }

  lemma SurvivorStatus(c: Channel, doomed: set<int>, now: int)
    ensures var kept := Kept(|c.keys|, doomed);
            var c' := Remove(c, doomed, now);
            forall j :: 0 <= j < |kept| ==>
              EffectiveStatus(c'.maps, j) == if |kept| == 1 then ENABLED else EffectiveStatus(c.maps, kept[j])
  {
    hide Kept, Remove, View, EffectiveStatus;
    var kept := Kept(|c.keys|, doomed);
    var c' := Remove(c, doomed, now);
    forall j | 0 <= j < |kept|
      ensures EffectiveStatus(c'.maps, j) == if |kept| == 1 then ENABLED else EffectiveStatus(c.maps, kept[j])
    {
      ViewStatus(c'.maps, j);
      ViewStatus(c.maps, kept[j]);
      if |kept| == 1 {
        CollapseView(c, doomed, now);
      } else {
        SurvivorKeepsAccount(c, doomed, now, j);
      }
    }
  }

  // ---------------------------------------------------------------- restore, status, edits

  /** A restored account cannot serve, and no other is touched. */
  lemma RestoreUsable(c: Channel, record: ArchiveRecord, mode: RestoreMode, codec: Codec, now: int, x: string)
    requires Good(c)
    ensures x in Usable(Restore(c, record, mode, codec, now).channel) <==> x in Usable(c)
  {
    hide Restore, Usable, EffectiveStatus, Good, CanRestore, TrimSpace;
    var r := Restore(c, record, mode, codec, now);
    UsableIff(c, x);
    UsableIff(r.channel, x);
    RestoreOutcome(c, record, mode, codec, now);
    RestoreRefusal(c, record, mode, codec, now);
    if r.Done? && c.keys != [] {
      RestoredStatuses(c, record, mode, codec, now);
      forall i | 0 <= i < |c.keys| ensures r.channel.keys[i] == c.keys[i] {
      }
    }
  }

  lemma RestoredStatuses(c: Channel, record: ArchiveRecord, mode: RestoreMode, codec: Codec, now: int)
    requires Good(c) && c.keys != [] && CanRestore(c, record, codec)
    ensures var c' := Restore(c, record, mode, codec, now).channel;
            && c'.keys == c.keys + [TrimSpace(record.credential)]
            && (forall i :: 0 <= i < |c.keys| ==> EffectiveStatus(c'.maps, i) == EffectiveStatus(c.maps, i))
            && EffectiveStatus(c'.maps, |c.keys|) != ENABLED
  {
    hide Restore, View, EffectiveStatus, Good, CanRestore, TrimSpace;
    var c' := Restore(c, record, mode, codec, now).channel;
    RestoreView(c, record, mode, codec, now, |c.keys|);
    ViewStatus(c'.maps, |c.keys|);
    forall i | 0 <= i < |c.keys| ensures EffectiveStatus(c'.maps, i) == EffectiveStatus(c.maps, i) {
      RestoreView(c, record, mode, codec, now, i);
      ViewStatus(c'.maps, i);
      ViewStatus(c.maps, i);
    }
  }

  lemma RestoreRefusal(c: Channel, record: ArchiveRecord, mode: RestoreMode, codec: Codec, now: int)
    ensures var r := Restore(c, record, mode, codec, now);
            (r.Done? <==> CanRestore(c, record, codec)) && (r.Refused? ==> r.channel == c)
  {
    hide CanRestore, Grow, DisableAt, AttachRecord, TrimSpace;
  }

  /** Switching decides who serves among the listed accounts, if the channel serves at all. */
  lemma SwitchUsable(c: Channel, at: set<int>, enabled: bool, reason: string, now: int, x: string)
    requires Good(c) && c.multi
    ensures x in Usable(SwitchMany(c, at, enabled, reason, now)) <==>
            && Willing(c)
            && exists i :: 0 <= i < |c.keys| && c.keys[i] == x
                           && if i in at then enabled else EffectiveStatus(c.maps, i) == ENABLED
  {
    hide SwitchMany, AllDisabledReason, EffectiveStatus, Shaped, EnabledSet;
    var c' := SwitchMany(c, at, enabled, reason, now);
    UsableIff(c', x);
    SwitchOutcome(c, at, enabled, reason, now);
    SwitchedEnabled(c, at, enabled, reason, now);
    forall i | 0 <= i < |c.keys|
      ensures i in EnabledSet(c'.maps, |c.keys|) <==> EffectiveStatus(c'.maps, i) == ENABLED {
      InEnabledSet(c'.maps, i, |c.keys|);
    }
  }

  lemma InEnabledSet(m: AccountMaps, i: int, n: nat)
    ensures i in EnabledSet(m, n) <==> 0 <= i < n && EffectiveStatus(m, i) == ENABLED
  {
  }

  /** Edits of a credential and of proxies leave every account as able to serve as it was. */
  lemma EditKeepsStatuses(c: Channel, i: int, text: string, kind: string, environment: Option<bool>, limit: Option<int>,
                          codec: Codec)
    ensures var r := UpdateCredential(c, i, text, kind, environment, limit, codec);
            && r.channel.status == c.status && |r.channel.keys| == |c.keys|
            && forall k :: 0 <= k < |c.keys| ==> EffectiveStatus(r.channel.maps, k) == EffectiveStatus(c.maps, k)
  {
    hide UpdateCredential, View, EffectiveStatus;
    var r := UpdateCredential(c, i, text, kind, environment, limit, codec);
    CredentialProceedsIff(c, i, text, kind, environment, limit, codec);
    forall k | 0 <= k < |c.keys| && r.Done?
      ensures EffectiveStatus(r.channel.maps, k) == EffectiveStatus(c.maps, k) && |r.channel.keys| == |c.keys|
              && r.channel.status == c.status
    {
      CredentialView(c, i, text, kind, environment, limit, codec, k);
      ViewStatus(r.channel.maps, k);
      ViewStatus(c.maps, k);
    }
    if r.Done? {
      CredentialView(c, i, text, kind, environment, limit, codec, 0);
    }
  }

  lemma ProxyFrame(c: Channel, indexes: seq<int>, proxy: int, allowed: bool)
    ensures var c' := UpdateProxy(c, indexes, proxy, allowed).channel; c' == c.(maps := c'.maps)
  {
    hide CleanMaps, Paint;
  }

  lemma ProxyUsable(c: Channel, indexes: seq<int>, proxy: int, allowed: bool, x: string)
    ensures x in Usable(UpdateProxy(c, indexes, proxy, allowed).channel) <==> x in Usable(c)
  {
    hide UpdateProxy, View, EffectiveStatus, EnabledSet;
    var r := UpdateProxy(c, indexes, proxy, allowed);
    ProxyProceedsIff(c, indexes, proxy, allowed);
    UsableIff(c, x);
    UsableIff(r.channel, x);
    forall k | 0 <= k < |c.keys| && r.Done?
      ensures EffectiveStatus(r.channel.maps, k) == EffectiveStatus(c.maps, k)
    {
      ProxyView(c, indexes, proxy, allowed, k);
      ViewStatus(r.channel.maps, k);
      ViewStatus(c.maps, k);
    }
    ProxyFrame(c, indexes, proxy, allowed);
  }

  // ---------------------------------------------------------------- balance steps

  /** A paused account cannot serve; the others are not affected. */
  lemma PauseUsable(c: Channel, i: nat, now: int, x: string)
    requires Good(c) && c.multi && i < |c.keys|
    ensures x in Usable(BalancePause(c, i, now)) <==> x in Usable(c) && x != c.keys[i]
  {
    hide BalancePause, AllDisabledReason, View, EffectiveStatus, Shaped, EnabledSet;
    var c' := BalancePause(c, i, now);
    UsableIff(c, x);
    UsableIff(c', x);
    PauseOutcome(c, i, now, i);
    forall k | 0 <= k < |c.keys|
      ensures EffectiveStatus(c'.maps, k) == if k == i then AUTO_DISABLED else EffectiveStatus(c.maps, k)
    {
      PauseOutcome(c, i, now, k);
      ViewStatus(c'.maps, k);
      ViewStatus(c.maps, k);
    }
    if j :| 0 <= j < |c.keys| && j != i && EffectiveStatus(c.maps, j) == ENABLED {
      SomeIsEnabled(c, j);
    }
    forall k | 0 <= k < |c.keys| && c.keys[k] == c.keys[i] ensures k == i {
      DistinctPositions(c, k, i);
    }
  }

  /** An account resumed from its balance pause serves again if the channel serves at all. */
  lemma ResumeUsable(c: Channel, i: nat, now: int, x: string)
    requires Good(c) && c.multi && i < |c.keys|
    ensures x in Usable(BalanceResume(c, i, now)) <==>
            x in Usable(c) || (PausedAt(c, i) && Willing(c) && x == c.keys[i])
  {
    hide BalanceResume, AllDisabledReason, BalanceReason, View, EffectiveStatus, Shaped, EnabledSet;
    var c' := BalanceResume(c, i, now);
    UsableIff(c, x);
    UsableIff(c', x);
    ResumeOutcome(c, i, now, i);
    if PausedAt(c, i) {
      forall k | 0 <= k < |c.keys|
        ensures EffectiveStatus(c'.maps, k) == if k == i then ENABLED else EffectiveStatus(c.maps, k)
      {
        ResumeOutcome(c, i, now, k);
        ViewStatus(c'.maps, k);
        ViewStatus(c.maps, k);
      }
      if j :| 0 <= j < |c.keys| && j != i && c.keys[j] == x && EffectiveStatus(c.maps, j) == ENABLED {
        SomeIsEnabled(c, j);
      }
    }
  }

  ghost predicate SomePaused(c: Channel) {
    exists k :: 0 <= k < |c.keys| && PausedAt(c, k)
  }

  /** Once the pauses are lifted the paused accounts serve with the enabled ones, unless the channel is off for a reason
      that is neither a lack of accounts nor the balance. */
  lemma ClearUsable(c: Channel, x: string)
    requires Good(c) && c.multi
    ensures x in Usable(BalanceClear(c)) <==>
            if SomePaused(c) then
              && (Willing(c) || (c.status == AUTO_DISABLED && BalanceReason(ReasonText(c.info))))
              && exists k :: 0 <= k < |c.keys| && c.keys[k] == x
                             && (PausedAt(c, k) || EffectiveStatus(c.maps, k) == ENABLED)
            else x in Usable(c)
  {
    hide BalanceClear, AllDisabledReason, BalanceReason, View, EffectiveStatus, EnabledSet, DistinctKeys, ReasonText;
    var c' := BalanceClear(c);
    UsableIff(c, x);
    UsableIff(c', x);
    ClearOutcome(c);
    if SomePaused(c) {
      forall k | 0 <= k < |c.keys|
        ensures EffectiveStatus(c'.maps, k) == if PausedAt(c, k) then ENABLED else EffectiveStatus(c.maps, k)
      {
        ClearView(c, k);
        ViewStatus(c'.maps, k);
        ViewStatus(c.maps, k);
      }
    }
  }

  // ---------------------------------------------------------------- every step

  /** Who serves after a step, told from the channel before it. */
  ghost predicate ServesAfter(c: Channel, s: Step, codec: Codec, x: string) {
    match s
    case DeleteStep(indexes) =>
      if !AllPositions(indexes, |c.keys|) then x in Usable(c) else
        var kept := Kept(|c.keys|, IndexSet(indexes));
        if |kept| == 1 then Willing(c) && x == c.keys[kept[0]]
        else x in Usable(c) && exists j :: 0 <= j < |kept| && c.keys[kept[j]] == x
    case ImportStep(_, _, _) => x in Usable(c)
    case RestoreStep(_, _) => x in Usable(c)
    case StatusStep(indexes, enabled, _) =>
      if !AllPositions(indexes, |c.keys|) then x in Usable(c)
      else if !c.multi then enabled && |c.keys| > 0 && x == c.keys[0]
      else && Willing(c)
           && exists i :: 0 <= i < |c.keys| && c.keys[i] == x
                          && if i in indexes then enabled else EffectiveStatus(c.maps, i) == ENABLED
    case CredentialStep(i, text, kind, environment, limit) =>
      var keys := UpdateCredential(c, i, text, kind, environment, limit, codec).channel.keys;
      && c.status == ENABLED
      && exists k :: 0 <= k < |c.keys| && k < |keys| && keys[k] == x && EffectiveStatus(c.maps, k) == ENABLED
    case ProxyStep(_, _, _) => x in Usable(c)
    case BalancePauseStep(i) => x in Usable(c) && !(c.multi && 0 <= i < |c.keys| && x == c.keys[i])
    case BalanceResumeStep(i) =>
      x in Usable(c) || (c.multi && 0 <= i < |c.keys| && PausedAt(c, i) && Willing(c) && x == c.keys[i])
    case BalanceClearStep =>
      if c.multi && SomePaused(c) then
        && (Willing(c) || (c.status == AUTO_DISABLED && BalanceReason(ReasonText(c.info))))
        && exists k :: 0 <= k < |c.keys| && c.keys[k] == x
                       && (PausedAt(c, k) || EffectiveStatus(c.maps, k) == ENABLED)
      else x in Usable(c)
  }

  lemma DeleteServes(c: Channel, indexes: seq<int>, now: int, codec: Codec, x: string)
    requires Good(c)
    ensures x in Usable(Delete(c, indexes, now).channel) <==> ServesAfter(c, DeleteStep(indexes), codec, x)
  {
    hide Usable, Remove, Kept, Good, Willing, AllDisabledReason;
    DeleteProceedsIff(c, indexes, now);
    if AllPositions(indexes, |c.keys|) {
      DeleteUsable(c, IndexSet(indexes), now, x);
    }
  }

  lemma StatusServes(c: Channel, indexes: seq<int>, enabled: bool, reason: string, now: int, codec: Codec, x: string)
    requires Good(c)
    ensures x in Usable(UpdateStatus(c, indexes, enabled, reason, now).channel) <==>
            ServesAfter(c, StatusStep(indexes, enabled, reason), codec, x)
  {
    hide Usable, UpdateStatus, SwitchMany, Willing, EffectiveStatus, Good, AllPositions, Lifted, TrimSpace;
    StatusProceedsIff(c, indexes, enabled, reason, now);
    if AllPositions(indexes, |c.keys|) {
      StatusDispatch(c, indexes, enabled, reason, now);
      SomePosition(c, indexes);
      if c.multi {
        SwitchUsable(c, IndexSet(indexes), enabled, reason, now, x);
      } else {
        SwitchSoleOutcome(c, enabled, reason, now);
      }
    }
  }

  lemma SomePosition(c: Channel, indexes: seq<int>)
    requires Good(c) && AllPositions(indexes, |c.keys|)
    ensures c.multi || |c.keys| == 1
  {
    hide DistinctKeys, MapsInRange, OnlyDisablingEntries, StatusFollows;
    assert 0 <= indexes[0] < |c.keys|;
  }

  lemma StatusDispatch(c: Channel, indexes: seq<int>, enabled: bool, reason: string, now: int)
    requires AllPositions(indexes, |c.keys|)
    ensures var c' := UpdateStatus(c, indexes, enabled, reason, now).channel;
            && (c.multi ==> c' == SwitchMany(c, IndexSet(indexes), enabled, reason, now))
            && (!c.multi && |c.keys| == 1 ==> c' == UpdateStatus(c, [0], enabled, reason, now).channel)
  {
    hide SwitchMany, SwitchSole, AllDisabledReason;
    SoleIndex(indexes);
    SoleIndex([0]);
  }

  lemma CredentialServes(c: Channel, i: int, text: string, kind: string, environment: Option<bool>, limit: Option<int>,
                         codec: Codec, x: string)
    ensures x in Usable(UpdateCredential(c, i, text, kind, environment, limit, codec).channel) <==>
            ServesAfter(c, CredentialStep(i, text, kind, environment, limit), codec, x)
  {
    hide Usable, UpdateCredential, EffectiveStatus;
    EditKeepsStatuses(c, i, text, kind, environment, limit, codec);
    UsableIff(UpdateCredential(c, i, text, kind, environment, limit, codec).channel, x);
  }

  /** Exactly these credentials serve after every step of a good channel. */
  lemma StepServesIff(c: Channel, e: Event, codec: Codec, x: string)
    requires Good(c)
    ensures x in Usable(Apply(c, e, codec)) <==> ServesAfter(c, e.step, codec, x)
  {
    hide Usable, Delete, Import, Restore, UpdateStatus, UpdateCredential, UpdateProxy, BalancePause, BalanceResume,
         BalanceClear, Kept, Willing, PausedAt, SomePaused, EffectiveStatus, Good, AllPositions;
    match e.step
    case DeleteStep(indexes) => DeleteServes(c, indexes, e.now, codec, x);
    case ImportStep(lines, onlyNew, limit) => ImportKeepsUsable(c, lines, onlyNew, limit, codec, e.now);
    case RestoreStep(record, mode) => RestoreUsable(c, record, mode, codec, e.now, x);
    case StatusStep(indexes, enabled, reason) => StatusServes(c, indexes, enabled, reason, e.now, codec, x);
    case CredentialStep(i, text, kind, environment, limit) =>
      CredentialServes(c, i, text, kind, environment, limit, codec, x);
    case ProxyStep(indexes, proxy, allowed) => ProxyUsable(c, indexes, proxy, allowed, x);
    case BalancePauseStep(i) =>
      OutOfRange(c, i, e.now);
      if c.multi && 0 <= i < |c.keys| { PauseUsable(c, i, e.now, x); }
    case BalanceResumeStep(i) =>
      OutOfRange(c, i, e.now);
      if c.multi && 0 <= i < |c.keys| { ResumeUsable(c, i, e.now, x); }
    case BalanceClearStep =>
      ClearOfOne(c);
      if c.multi { ClearUsable(c, x); }
  }

  lemma ClearOfOne(c: Channel)
    ensures !c.multi ==> BalanceClear(c) == c
  {
    hide AllDisabledReason, BalanceReason, EnabledSet;
  }

  /** The steps that never let a credential serve that could not before. */
  predicate NeverGrants(s: Step) {
    s.ImportStep? || s.RestoreStep? || s.ProxyStep? || s.BalancePauseStep?
  }

  /** Over every run of imports, restores, proxy changes and balance pauses, what can serve was able to serve at the
      start, and all of it still can if no account is paused. */
  lemma {:induction false} RunNeverGrants(c: Channel, events: seq<Event>, codec: Codec, x: string)
    requires Good(c) && codec.Lawful() && forall k :: 0 <= k < |events| ==> NeverGrants(events[k].step)
    ensures x in Usable(Run(c, events, codec)) ==> x in Usable(c)
    ensures (forall k :: 0 <= k < |events| ==> !events[k].step.BalancePauseStep?) ==>
            (x in Usable(Run(c, events, codec)) <==> x in Usable(c))
  {
    hide Apply, Usable, Good;
    if events != [] {
      var before := events[..|events| - 1];
      RunNeverGrants(c, before, codec, x);
      RunKeepsGood(c, before, codec);
      StepServesIff(Run(c, before, codec), events[|events| - 1], codec, x);
    }
  }

  // ---------------------------------------------------------------- reports

  /** A channel is reported as restored when it could not serve and now can, and as disabled the other way round. */
  ghost predicate ReportsService(c: Channel, r: Reply) {
    r.Done? ==>
      && (r.operation.restored <==> Usable(c) == {} && Usable(r.channel) != {})
      && (r.operation.disabled <==> Usable(c) != {} && Usable(r.channel) == {})
  }

  lemma DeleteReports(c: Channel, indexes: seq<int>, now: int)
    requires Good(c)
    ensures ReportsService(c, Delete(c, indexes, now))
  {
    hide Usable, Remove, Good, AllDisabledReason;
    var c' := Remove(c, IndexSet(indexes), now);
    GoodServesIff(c);
    RemoveKeepsGood(c, IndexSet(indexes), now);
    GoodServesIff(c');
    DeleteOutcome(c, IndexSet(indexes), now);
  }

  lemma StatusReports(c: Channel, indexes: seq<int>, enabled: bool, reason: string, now: int)
    requires Good(c)
    ensures ReportsService(c, UpdateStatus(c, indexes, enabled, reason, now))
    ensures var r := UpdateStatus(c, indexes, enabled, reason, now);
            r.Done? ==> r.operation.affected == |set i | i in indexes| && r.operation.added == r.operation.deleted == 0
  {
    hide Usable, SwitchMany, Good, AllDisabledReason, SomeAfterSwitch;
    var r := UpdateStatus(c, indexes, enabled, reason, now);
    if r.Done? {
      var at := IndexSet(indexes);
      StatusKeepsGood(c, indexes, enabled, reason, now);
      GoodServesIff(c);
      GoodServesIff(r.channel);
      SwitchOutcome(c, at, enabled, reason, now);
    }
  }

  /** Every line that is not blank is added, was held already or repeats an earlier one; an import never changes whether
      the channel serves. */
  lemma ImportReports(c: Channel, lines: seq<string>, onlyNew: bool, limit: Option<int>, codec: Codec, now: int)
    requires Good(c) && codec.Lawful()
    ensures var r := Import(c, lines, onlyNew, limit, codec, now);
            var input := InputKeys(lines, codec);
            && ReportsService(c, r)
            && (r.Done? ==>
                  && r.operation.added == r.operation.affected == |r.channel.keys| - |c.keys|
                  && r.operation.skippedExisting == |set k | k in input && HoldsCredential(c.keys, k)|
                  && r.operation.added + r.operation.skippedExisting + r.operation.skippedDuplicate == |input|
                  && r.operation.deleted == 0)
  {
    hide Usable, ReconcileImport, Good, AllDisabledReason, InputKeys, Dedup, Without, ExistingSet, HoldsCredential,
         TrimSpace,
         CleanMaps, WithLimit;
    var r := Import(c, lines, onlyNew, limit, codec, now);
    ImportKeepsUsable(c, lines, onlyNew, limit, codec, now);
    if r.Done? {
      var input := InputKeys(lines, codec);
      var unique := Dedup(input);
      WithoutCount(unique, ExistingSet(c.keys));
      var known := set k | k in input && HoldsCredential(c.keys, k);
      assert known == set k | k in unique && k in ExistingSet(c.keys) by {
        forall k | k in input ensures k in ExistingSet(c.keys) <==> HoldsCredential(c.keys, k) {
          HeldIsExisting(c.keys, k);
        }
      }
      ImportedLength(c, lines, onlyNew, limit, codec, now);
    }
  }

  lemma ImportedLength(c: Channel, lines: seq<string>, onlyNew: bool, limit: Option<int>, codec: Codec, now: int)
    requires Good(c)
    ensures var r := Import(c, lines, onlyNew, limit, codec, now);
            r.Done? ==> |r.channel.keys| == |c.keys| + |NovelKeys(c, InputKeys(lines, codec))|
  {
    hide Import, NovelKeys, InputKeys, View, Good;
    ImportView(c, lines, onlyNew, limit, codec, now, 0);
  }

  lemma {:induction false} WithoutCount<T(!new)>(s: seq<T>, drop: set<T>)
    requires Distinct(s)
    ensures |Without(s, drop)| + |set x | x in s && x in drop| == |s|
  {
    if s == [] {
      assert (set x | x in s && x in drop) == {};
    } else {
      var last := |s| - 1;
      var init := s[..last];
      WithoutCount(init, drop);
      assert s == init + [s[last]];
      var before := set x | x in init && x in drop;
      var after := set x | x in s && x in drop;
      if s[last] in drop {
        assert after == before + {s[last]};
        assert s[last] !in before;
      } else {
        assert after == before;
      }
    }
  }
}
