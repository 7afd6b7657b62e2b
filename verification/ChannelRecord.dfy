/** The channel as the controllers hold it: one mutable record whose key list, maps and status each
    operation rewrites in place. Every method is proved against the function of the same operation. */
module ChannelRecord {
  import opened Text
  import opened Seqs
  import opened AccountPool

  // ---------------------------------------------------------------- loops over one map

  /** Deletes, entry by entry, what is out of range or unwanted. */
  method Sweep<V>(m: map<int, V>, n: int, keep: V -> bool) returns (r: map<int, V>)
    ensures r == map i | i in m && 0 <= i < n && keep(m[i]) :: m[i]
  {
    r := m;
    var todo := m.Keys;
    while todo != {}
      invariant todo <= m.Keys
      invariant r == map i | i in m && (i in todo || (0 <= i < n && keep(m[i]))) :: m[i]
      decreases todo
    {
      var i := Pick(todo);
      if !(0 <= i < n && keep(m[i])) {
        r := r - {i};
      }
      todo := todo - {i};
    }
  }

  method SweepStatus(m: map<int, int>, n: int) returns (r: map<int, int>)
    ensures r == Clip(Disabling(m), n)
  {
    r := Sweep(m, n, s => s != ENABLED);
  }

  method SweepPositive(m: map<int, int>, n: int) returns (r: map<int, int>)
    ensures r == Clip(Positive(m), n)
  {
    r := Sweep(m, n, v => v > 0);
  }

  method SweepKinds(m: map<int, string>, n: int) returns (r: map<int, string>)
    ensures r == Clip(Known(m), n)
  {
    hide KnownKind;
    r := Sweep(m, n, k => KnownKind(k));
  }

  method SweepRange<V>(m: map<int, V>, n: int) returns (r: map<int, V>)
    ensures r == Clip(m, n)
  {
    r := Sweep(m, n, _ => true);
  }

  method CleanupStatusMaps(m: AccountMaps, n: int) returns (r: AccountMaps)
    ensures r == CleanMaps(m, n)
  {
    hide Clip, Disabling, Positive, Known;
    var status := SweepStatus(m.status, n);
    var reason := SweepRange(m.reason, n);
    var time := SweepRange(m.time, n);
    var proxy := SweepPositive(m.proxy, n);
    var kind := SweepKinds(m.kind, n);
    var limit := SweepPositive(m.limit, n);
    var capability := SweepRange(m.capability, n);
    r := AccountMaps(status, reason, time, proxy, kind, limit, capability);
  }

  lemma EnabledSetGrows(m: AccountMaps, n: nat)
    ensures EnabledSet(m, n + 1) ==
            EnabledSet(m, n) + if EffectiveStatus(m, n) == ENABLED then {n} else {}
  {
  }

  method EnabledCount(m: AccountMaps, n: nat) returns (count: nat)
    ensures count == |EnabledSet(m, n)|
  {
    count := 0;
    for i := 0 to n
      invariant count == |EnabledSet(m, i)|
    {
      EnabledSetGrows(m, i);
      var status := ENABLED;
      if i in m.status {
        status := m.status[i];
      }
      if status == ENABLED {
        count := count + 1;
      }
    }
  }

  /** Rejects an empty or out-of-range selection and drops repetitions. */
  method NormalizeIndexes(indexes: seq<int>, n: int) returns (at: Option<set<int>>)
    ensures at == if ValidIndexes(indexes, n) then Some(IndexSet(indexes)) else None
  {
    if indexes == [] {
      return None;
    }
    var seen := {};
    for k := 0 to |indexes|
      invariant Within(indexes[..k], n)
      invariant seen == IndexSet(indexes[..k])
    {
      if indexes[k] < 0 || indexes[k] >= n {
        return None;
      }
      assert indexes[..k + 1] == indexes[..k] + [indexes[k]];
      seen := seen + {indexes[k]};
    }
    assert indexes[..|indexes|] == indexes;
    return Some(seen);
  }

  // ---------------------------------------------------------------- delete

  lemma PullSnoc<V>(m: map<int, V>, kept: seq<int>, prior: int)
    ensures Pull(m, kept + [prior]) == if prior in m then Pull(m, kept)[|kept| := m[prior]] else Pull(m, kept)
  {
    var longer := kept + [prior];
    assert forall j :: 0 <= j < |kept| ==> longer[j] == kept[j];
    assert longer[|kept|] == prior;
  }

  /** Carries one map's entry at `prior` over to `next`, when the entry is wanted. */
  method Carry<V>(m: map<int, V>, acc: map<int, V>, prior: int, next: nat, ghost kept: seq<int>)
    returns (r: map<int, V>)
    requires acc == Pull(m, kept) && next == |kept|
    ensures r == Pull(m, kept + [prior])
  {
    PullSnoc(m, kept, prior);
    r := acc;
    if prior in m {
      r := r[next := m[prior]];
    }
  }

  method CarryPositive(m: map<int, int>, acc: map<int, int>, prior: int, next: nat, ghost kept: seq<int>)
    returns (r: map<int, int>)
    requires acc == Pull(Positive(m), kept) && next == |kept|
    ensures r == Pull(Positive(m), kept + [prior])
  {
    PullSnoc(Positive(m), kept, prior);
    r := acc;
    if prior in m && m[prior] > 0 {
      r := r[next := m[prior]];
    }
  }

  method CarryStatus(m: map<int, int>, acc: map<int, int>, prior: int, next: nat, ghost kept: seq<int>)
    returns (r: map<int, int>)
    requires acc == Pull(Disabling(m), kept) && next == |kept|
    ensures r == Pull(Disabling(m), kept + [prior])
  {
    PullSnoc(Disabling(m), kept, prior);
    r := acc;
    if prior in m && m[prior] != ENABLED {
      r := r[next := m[prior]];
    }
  }

  method CarryKind(m: map<int, string>, acc: map<int, string>, prior: int, next: nat, ghost kept: seq<int>)
    returns (r: map<int, string>)
    requires acc == Pull(NormalKinds(m), kept) && next == |kept|
    ensures r == Pull(NormalKinds(m), kept + [prior])
  {
    hide KnownKind, NormalKind;
    PullSnoc(NormalKinds(m), kept, prior);
    r := acc;
    if prior in m && KnownKind(m[prior]) {
      r := r[next := NormalKind(m[prior])];
    }
  }

  /** Carries every entry of position `prior` over to position `next`. */
  method CarryOver(m: AccountMaps, acc: AccountMaps, prior: int, next: nat, ghost kept: seq<int>)
    returns (r: AccountMaps)
    requires acc == PullMaps(m, kept) && next == |kept|
    ensures r == PullMaps(m, kept + [prior])
  {
    hide Pull, Disabling, Positive, NormalKinds;
    var status := CarryStatus(m.status, acc.status, prior, next, kept);
    var time := Carry(m.time, acc.time, prior, next, kept);
    var reason := Carry(m.reason, acc.reason, prior, next, kept);
    var proxy := CarryPositive(m.proxy, acc.proxy, prior, next, kept);
    var kind := CarryKind(m.kind, acc.kind, prior, next, kept);
    var limit := CarryPositive(m.limit, acc.limit, prior, next, kept);
    var capability := Carry(m.capability, acc.capability, prior, next, kept);
    r := AccountMaps(status, reason, time, proxy, kind, limit, capability);
  }

  /** One pass over the keys builds the shorter list and all the renumbered maps. */
  method Renumber(keys: seq<string>, m: AccountMaps, doomed: set<int>)
    returns (remaining: seq<string>, maps: AccountMaps)
    ensures remaining == Gather(keys, Kept(|keys|, doomed))
    ensures maps == PullMaps(m, Kept(|keys|, doomed))
  {
    hide PullMaps;
    remaining := [];
    maps := AccountMaps(map[], map[], map[], map[], map[], map[], map[]);
    ghost var kept := [];
    PullNothing(m);
    for prior := 0 to |keys|
      invariant kept == Kept(prior, doomed)
      invariant Within(kept, |keys|)
      invariant remaining == Gather(keys, kept)
      invariant maps == PullMaps(m, kept)
    {
      if prior !in doomed {
        remaining := remaining + [keys[prior]];
        maps := CarryOver(m, maps, prior, |remaining| - 1, kept);
        kept := kept + [prior];
      }
    }
  }

  lemma PullNothing(m: AccountMaps)
    ensures PullMaps(m, []) == AccountMaps(map[], map[], map[], map[], map[], map[], map[])
  {
    hide NormalKinds;
  }

  // ---------------------------------------------------------------- import

  /** Trims, rewrites and deduplicates the submitted lines. */
  method NormalizeLines(lines: seq<string>, codec: Codec) returns (keys: seq<string>, inputs: nat, duplicates: nat)
    ensures keys == Dedup(InputKeys(lines, codec))
    ensures inputs == |InputKeys(lines, codec)| && duplicates == inputs - |keys|
  {
    hide TrimSpace, CanonicalLine;
    keys, inputs, duplicates := [], 0, 0;
    var seen: set<string> := {};
    for k := 0 to |lines|
      invariant keys == Dedup(InputKeys(lines[..k], codec))
      invariant seen == set x | x in keys
      invariant inputs == |InputKeys(lines[..k], codec)| && duplicates == inputs - |keys|
    {
      ghost var before := InputKeys(lines[..k], codec);
      assert lines[..k + 1][..k] == lines[..k];
      if TrimSpace(lines[k]) != "" {
        var key := CanonicalLine(lines[k], codec);
        assert InputKeys(lines[..k + 1], codec) == before + [key];
        assert (before + [key])[..|before|] == before;
        inputs := inputs + 1;
        if key in seen {
          duplicates := duplicates + 1;
        } else {
          seen := seen + {key};
          keys := keys + [key];
        }
      }
    }
    assert lines[..|lines|] == lines;
  }

  method CollectExisting(keys: seq<string>) returns (existing: set<string>)
    ensures existing == ExistingSet(keys)
  {
    hide TrimSpace;
    existing := {};
    for k := 0 to |keys|
      invariant existing == ExistingSet(keys[..k])
    {
      assert keys[..k + 1] == keys[..k] + [keys[k]];
      if TrimSpace(keys[k]) != "" {
        existing := existing + {TrimSpace(keys[k])};
      }
    }
    assert keys[..|keys|] == keys;
  }

  /** Picks what the channel does not hold; `None` when a known credential must not be skipped. */
  method PickNovel(unique: seq<string>, existing: set<string>, onlyNew: bool) returns (novel: Option<seq<string>>)
    requires Distinct(unique)
    ensures novel == if !onlyNew && (exists k :: k in unique && k in existing) then None
                     else Some(Without(unique, existing))
  {
    hide Without, Distinct, Elements;
    var seen := existing;
    var picked := [];
    NoElements(unique);
    WithoutEmpty(existing);
    for k := 0 to |unique|
      invariant picked == Without(unique[..k], existing)
      invariant seen == existing + Elements(unique[..k])
      invariant onlyNew || forall j :: 0 <= j < k ==> unique[j] !in existing
    {
      var key := unique[k];
      ElementsSnoc(unique, k);
      WithoutSnoc(unique, k, existing);
      if key in seen {
        if !onlyNew {
          return None;
        }
      } else {
        seen := seen + {key};
        picked := picked + [key];
      }
    }
    assert unique[..|unique|] == unique;
    return Some(picked);
  }

  method FindRejected(keys: seq<string>, codec: Codec) returns (found: bool)
    ensures found == exists k :: k in keys && !codec.accepts(k)
  {
    for k := 0 to |keys|
      invariant forall j :: 0 <= j < k ==> codec.accepts(keys[j])
    {
      if !codec.accepts(keys[k]) {
        return true;
      }
    }
    return false;
  }

  method FindCredential(keys: seq<string>, credential: string) returns (found: bool)
    ensures found == HoldsCredential(keys, credential)
  {
    hide TrimSpace;
    for k := 0 to |keys|
      invariant forall j :: 0 <= j < k ==> TrimSpace(keys[j]) != credential
    {
      if TrimSpace(keys[k]) == credential {
        return true;
      }
    }
    return false;
  }

  method FindOther(keys: seq<string>, i: int, credential: string) returns (found: bool)
    ensures found == HeldByOther(keys, i, credential)
  {
    hide TrimSpace;
    for k := 0 to |keys|
      invariant forall j :: 0 <= j < k && j != i ==> TrimSpace(keys[j]) != credential
    {
      if k != i && TrimSpace(keys[k]) == credential {
        return true;
      }
    }
    return false;
  }

  // ---------------------------------------------------------------- the record

  function Report(r: Reply): Option<Operation> {
    if r.Done? then Some(r.operation) else None
  }

  class Record {
    var keys: seq<string>
    var multi: bool
    var size: int
    var polling: int
    var mode: string
    var status: int
    var info: StatusInfo
    var maps: AccountMaps
    var ability: bool

    function State(): Channel
      reads this
    {
      Channel(keys, multi, size, polling, mode, status, info, maps, ability)
    }

    constructor (c: Channel)
      ensures State() == c
    {
      keys, multi, size, polling, mode := c.keys, c.multi, c.size, c.polling, c.mode;
      status, info, maps, ability := c.status, c.info, c.maps, c.ability;
    }

    method HasNoEnabled() returns (none: bool)
      ensures none == NoneEnabled(State())
    {
      var count := EnabledCount(maps, |keys|);
      none := count == 0;
    }

    /** Enables or disables the channel by the number of enabled accounts. */
    method FollowAccounts(now: int)
      modifies this`status, this`info
      ensures State() == Reconcile(old(State()), now)
    {
      hide AllDisabledReason;
      var none := HasNoEnabled();
      if none {
        status := AUTO_DISABLED;
        info := SetReason(info, ALL_DISABLED, now);
      } else if status == AUTO_DISABLED && AllDisabledReason(info) {
        status := ENABLED;
        info := ClearReason(info);
      }
    }

    /** Keeps only the accounts outside `doomed`. */
    method ShrinkTo(doomed: set<int>)
      modifies this
      ensures State() == Shrink(old(State()), doomed)
    {
      hide PullMaps, Kept;
      keys, maps := Renumber(keys, maps, doomed);
      multi, size := |keys| > 1, |keys|;
      if !multi {
        maps := maps.(status := map[], reason := map[], time := map[], limit := map[]);
      }
      if polling >= |keys| {
        polling := 0;
      }
      if |keys| == 0 {
        polling := 0;
      }
    }

    method DeleteAccounts(indexes: seq<int>, now: int) returns (op: Option<Operation>)
      modifies this
      ensures State() == Delete(old(State()), indexes, now).channel
      ensures op == Report(Delete(old(State()), indexes, now))
    {
      hide AllDisabledReason, Shrink, Reconcile, ValidIndexes;
      var at := NormalizeIndexes(indexes, |keys|);
      if at.None? {
        return None;
      }
      var doomed := at.value;
      var beforeStatus, beforeAllDisabled := status, status == AUTO_DISABLED && AllDisabledReason(info);
      ShrinkTo(doomed);
      FollowAccounts(now);
      ability := status == ENABLED;
      op := Some(Operation(|doomed|, 0, |doomed|, 0, 0, beforeAllDisabled && status == ENABLED,
                           beforeStatus == ENABLED && status == AUTO_DISABLED));
    }

    /** Lengthens the key list and cleans the maps, as import and restore both do. */
    method Lengthen(added: seq<string>, limit: int)
      modifies this
      ensures State() == Grow(old(State()), added, limit)
    {
      hide CleanMaps, Paint;
      var previous := |keys|;
      keys := keys + added;
      multi, size := |keys| > 1, |keys|;
      if multi && mode == "" {
        mode := "random";
      }
      if limit > 0 {
        var painted := PaintLimit(maps.limit, previous, |keys|, limit);
        maps := maps.(limit := painted);
      }
      maps := CleanupStatusMaps(maps, |keys|);
    }

    /** Writes a disabling entry for each new position. */
    method DisableNew(previous: nat, now: int)
      requires previous <= |keys|
      modifies this`maps
      ensures maps == DisableAt(old(maps), NewPositions(previous, |keys|), MANUALLY_DISABLED, MANUAL_REASON, now)
    {
      hide Paint;
      PaintNothing(maps.status, MANUALLY_DISABLED);
      PaintNothing(maps.reason, MANUAL_REASON);
      PaintNothing(maps.time, now);
      for i := previous to |keys|
        invariant maps == DisableAt(old(maps), NewPositions(previous, i), MANUALLY_DISABLED, MANUAL_REASON, now)
      {
        PaintMore(old(maps).status, NewPositions(previous, i), i, MANUALLY_DISABLED);
        PaintMore(old(maps).reason, NewPositions(previous, i), i, MANUAL_REASON);
        PaintMore(old(maps).time, NewPositions(previous, i), i, now);
        maps := maps.(status := maps.status[i := MANUALLY_DISABLED],
                      reason := maps.reason[i := MANUAL_REASON],
                      time := maps.time[i := now]);
      }
    }

    method ReconcileAdded(previous: nat, now: int)
      requires previous <= |keys|
      modifies this
      ensures State() == ReconcileImport(old(State()), previous, now)
    {
      hide Reconcile, DisableAt, DisabledReason, ReasonText;
      if |keys| == 1 {
        maps := maps.(status := map[], reason := map[], time := map[]);
        status := MANUALLY_DISABLED;
        info := SetReason(info, MANUAL_REASON, now);
        return;
      }
      if previous == 1 && status != ENABLED {
        var time := if 0 in maps.time && maps.time[0] != 0 then maps.time[0] else now;
        maps := maps.(status := maps.status[0 := MANUALLY_DISABLED],
                      reason := maps.reason[0 := DisabledReason(ReasonText(info))],
                      time := maps.time[0 := time]);
      }
      DisableNew(previous, now);
      FollowAccounts(now);
    }

    method ImportAccounts(lines: seq<string>, onlyNew: bool, limit: Option<int>, codec: Codec, now: int)
      returns (op: Option<Operation>)
      modifies this
      ensures State() == Import(old(State()), lines, onlyNew, limit, codec, now).channel
      ensures op == Report(Import(old(State()), lines, onlyNew, limit, codec, now))
    {
      hide AllDisabledReason, Grow, ReconcileImport, ExistingSet, InputKeys, Dedup, Without, MentionsExisting;
      var bound := if limit.Some? then limit.value else DEFAULT_IMPORT_LIMIT;
      if bound < 0 {
        return None;
      }
      var unique, inputs, duplicates := NormalizeLines(lines, codec);
      if unique == [] {
        assert InputKeys(lines, codec) == [] by {
          DedupEmpty(InputKeys(lines, codec));
        }
        return None;
      }
      var rejected := FindRejected(unique, codec);
      if rejected {
        return None;
      }
      var existing := CollectExisting(keys);
      MentionsUnique(State(), InputKeys(lines, codec));
      var novel := PickNovel(unique, existing, onlyNew);
      if novel.None? || novel.value == [] {
        return None;
      }
      var wasAllDisabled := status == AUTO_DISABLED && AllDisabledReason(info);
      var previous := |keys|;
      Lengthen(novel.value, bound);
      GrowLonger(old(State()), novel.value, bound);
      ReconcileAdded(previous, now);
      ability := status == ENABLED;
      op := Some(Operation(|novel.value|, |novel.value|, 0, |unique| - |novel.value|, duplicates,
                           wasAllDisabled && status == ENABLED, false));
    }

    method RestoreAccount(record: ArchiveRecord, mode': RestoreMode, codec: Codec, now: int)
      returns (op: Option<Operation>)
      modifies this
      ensures State() == Restore(old(State()), record, mode', codec, now).channel
      ensures op == Report(Restore(old(State()), record, mode', codec, now))
    {
      hide CleanMaps, WithLimit, KnownKind, NormalKind, TrimSpace, NewPositions, HoldsCredential;
      var credential := TrimSpace(record.credential);
      if credential == "" || !codec.accepts(credential) {
        return None;
      }
      var held := FindCredential(keys, credential);
      if held {
        return None;
      }
      var i := |keys|;
      Lengthen([credential], 0);
      if multi {
        maps := maps.(status := maps.status[i := RestoreStatus(mode')],
                      reason := maps.reason[i := RestoreReason(mode')],
                      time := maps.time[i := now]);
        DisableOne(Grow(old(State()), [credential], 0).maps, i, RestoreStatus(mode'), RestoreReason(mode'), now);
      } else {
        status := RestoreStatus(mode');
        info := SetReason(info, RestoreReason(mode'), now);
      }
      maps := AttachRecord(maps, i, record, codec);
      ability := status == ENABLED;
      op := Some(Operation(1, 1, 0, 0, 0, false, false));
    }

    // -------------------------------------------------------------- enable and disable

    method SwitchEach(at: set<int>, enabled: bool, reason: string, now: int)
      modifies this`maps
      ensures maps == if enabled then EnableAt(old(maps), at)
                      else DisableAt(old(maps), at, MANUALLY_DISABLED, reason, now)
    {
      hide EnableAt, DisableAt;
      SwitchNothing(maps, MANUALLY_DISABLED, reason, now);
      var todo := at;
      ghost var done := {};
      while todo != {}
        invariant done + todo == at
        invariant maps == if enabled then EnableAt(old(maps), done)
                          else DisableAt(old(maps), done, MANUALLY_DISABLED, reason, now)
        decreases todo
      {
        var i := Pick(todo);
        SwitchOneMore(old(maps), done, i, MANUALLY_DISABLED, reason, now);
        if enabled {
          maps := maps.(status := maps.status - {i}, reason := maps.reason - {i}, time := maps.time - {i});
        } else {
          maps := maps.(status := maps.status[i := MANUALLY_DISABLED],
                        reason := maps.reason[i := reason],
                        time := maps.time[i := now]);
        }
        todo, done := todo - {i}, done + {i};
      }
      assert done == at;
    }

    method SwitchAccounts(at: set<int>, enabled: bool, reason: string, now: int)
      modifies this
      ensures State() == SwitchMany(old(State()), at, enabled, reason, now)
    {
      hide AllDisabledReason, CleanMaps, EnableAt, DisableAt, EnabledSet;
      var beforeStatus := status;
      size := |keys|;
      maps := CleanupStatusMaps(maps, |keys|);
      SwitchEach(at, enabled, DisabledReason(reason), now);
      var none := HasNoEnabled();
      if none {
        if status == ENABLED || (status == AUTO_DISABLED && AllDisabledReason(info)) {
          status := AUTO_DISABLED;
          info := SetReason(info, ALL_DISABLED, now);
        }
      } else if status == AUTO_DISABLED && AllDisabledReason(info) {
        status := ENABLED;
        info := ClearReason(info);
      }
      if beforeStatus != status {
        ability := status == ENABLED;
      }
    }

    method UpdateAccountsStatus(indexes: seq<int>, enabled: bool, reason: string, now: int)
      returns (op: Option<Operation>)
      modifies this
      ensures State() == UpdateStatus(old(State()), indexes, enabled, reason, now).channel
      ensures op == Report(UpdateStatus(old(State()), indexes, enabled, reason, now))
    {
      hide AllDisabledReason, SwitchMany, ValidIndexes, DisabledReason;
      var at := NormalizeIndexes(indexes, |keys|);
      if at.None? {
        return None;
      }
      var before, beforeAllDisabled := status, status == AUTO_DISABLED && AllDisabledReason(info);
      if multi {
        SwitchAccounts(at.value, enabled, reason, now);
        return Some(Operation(|at.value|, 0, 0, 0, 0, beforeAllDisabled && status == ENABLED,
                              before == ENABLED && status == AUTO_DISABLED));
      }
      if at.value != {0} {
        return None;
      }
      if enabled {
        status := ENABLED;
        info := ClearReason(info);
      } else {
        status := MANUALLY_DISABLED;
        info := SetReason(info, DisabledReason(reason), now);
      }
      if before != status {
        ability := status == ENABLED;
      }
      op := Some(Operation(1, 0, 0, 0, 0, before != ENABLED && status == ENABLED,
                           before == ENABLED && status != ENABLED));
    }

    // -------------------------------------------------------------- credential and proxy edits

    method StoreCredential(i: int, credential: string, accountType: string)
      requires 0 <= i < |keys|
      modifies this
      ensures State() == ReplaceCredential(old(State()), i, credential, accountType)
    {
      keys := keys[i := credential];
      multi, size := |keys| > 1, |keys|;
      if accountType != "" {
        maps := maps.(kind := maps.kind[i := accountType]);
      } else {
        maps := maps.(kind := maps.kind - {i});
      }
    }

    /** The edited credential, unless its form, the channel or another account refuses it. */
    method CheckCredential(i: int, text: string, kind: string, codec: Codec) returns (edited: Option<(string, string)>)
      ensures edited == var e := EditedCredential(text, kind, codec);
                        if e.Some? && codec.accepts(e.value.0) && !HeldByOther(keys, i, e.value.0) then e else None
    {
      hide EditedCredential, HeldByOther;
      edited := EditedCredential(text, kind, codec);
      if edited.None? || !codec.accepts(edited.value.0) {
        return None;
      }
      var held := FindOther(keys, i, edited.value.0);
      if held {
        return None;
      }
    }

    method UpdateAccountCredential(i: int, text: string, kind: string, environment: Option<bool>, limit: Option<int>,
                                   codec: Codec) returns (op: Option<Operation>)
      modifies this
      ensures State() == UpdateCredential(old(State()), i, text, kind, environment, limit, codec).channel
      ensures op == Report(UpdateCredential(old(State()), i, text, kind, environment, limit, codec))
    {
      hide CleanMaps, EditedCredential, TrimSpace, HeldByOther, ReplaceCredential;
      var changes := TrimSpace(text) != "";
      if i < 0 || i >= |keys| || (!changes && environment.None? && limit.None?) {
        return None;
      }
      var edited: Option<(string, string)> := None;
      if changes {
        edited := CheckCredential(i, text, kind, codec);
        if edited.None? {
          return None;
        }
      }
      if environment == Some(false) || (limit.Some? && limit.value < 0) {
        return None;
      }
      ReplaceKeepsLength(State(), i, edited);
      if edited.Some? {
        StoreCredential(i, edited.value.0, edited.value.1);
      }
      if limit.Some? {
        maps := maps.(limit := if limit.value > 0 then maps.limit[i := limit.value] else maps.limit - {i});
      }
      maps := CleanupStatusMaps(maps, |keys|);
      ability := status == ENABLED;
      op := Some(Operation(1, 0, 0, 0, 0, false, false));
    }

    // -------------------------------------------------------------- the balance monitor

    /** Pauses (`enabled` false) or resumes one account of a multi-key channel for its balance. */
    method UpdateBalanceStatus(i: int, enabled: bool, now: int)
      modifies this
      ensures State() == if enabled then BalanceResume(old(State()), i, now) else BalancePause(old(State()), i, now)
    {
      hide AllDisabledReason, BalanceReason, EnabledSet, DisableAt;
      if !multi || i < 0 || i >= |keys| {
        return;
      }
      if enabled {
        if !(i in maps.reason && BalanceReason(maps.reason[i])) {
          return;
        }
        maps := maps.(status := maps.status - {i}, reason := maps.reason - {i}, time := maps.time - {i});
      } else {
        DisableOne(maps, i, AUTO_DISABLED, BALANCE_REASON, now);
        maps := maps.(status := maps.status[i := AUTO_DISABLED],
                      reason := maps.reason[i := BALANCE_REASON],
                      time := maps.time[i := now]);
      }
      var none := HasNoEnabled();
      if none {
        status := AUTO_DISABLED;
        info := info.(reason := Some(ALL_DISABLED), time := Some(now));
      } else if status == AUTO_DISABLED {
        if AllDisabledReason(info) {
          status := ENABLED;
          info := info.(reason := None, time := None);
        }
      }
      ability := !none;
    }

    /** Lifts every balance pause and reports how many there were. */
    method ClearBalancePauses() returns (cleared: nat, statusUpdated: bool)
      modifies this
      ensures State() == BalanceClear(old(State()))
      ensures cleared == if old(multi) && old(keys) != [] then |BalancePaused(old(maps))| else 0
      ensures statusUpdated <==> old(status) != status
    {
      hide AllDisabledReason, BalanceReason, EnabledSet, EnableAt;
      cleared, statusUpdated := 0, false;
      if !multi || keys == [] {
        return;
      }
      maps, cleared := LiftPaused(maps);
      if cleared == 0 {
        SwitchNothing(old(maps), MANUALLY_DISABLED, "", 0);
        return;
      }
      var none := HasNoEnabled();
      if !none && status == AUTO_DISABLED && (AllDisabledReason(info) || BalanceReason(ReasonText(info))) {
        status := ENABLED;
        info := info.(reason := None, time := None);
        statusUpdated := true;
      }
      if statusUpdated {
        ability := true;
      }
    }

    method UpdateAccountsProxy(indexes: seq<int>, proxy: int, allowed: bool) returns (op: Option<Operation>)
      modifies this`maps
      ensures State() == UpdateProxy(old(State()), indexes, proxy, allowed).channel
      ensures op == Report(UpdateProxy(old(State()), indexes, proxy, allowed))
    {
      hide CleanMaps, ValidIndexes, Paint;
      var at := NormalizeIndexes(indexes, |keys|);
      if at.None? || (proxy > 0 && !allowed) {
        return None;
      }
      var clean := CleanupStatusMaps(maps, |keys|);
      var bound := BindEach(clean.proxy, at.value, proxy);
      maps := clean.(proxy := bound);
      op := Some(Operation(|at.value|, 0, 0, 0, 0, false, false));
    }
  }

  method BindEach(m: map<int, int>, at: set<int>, proxy: int) returns (r: map<int, int>)
    ensures r == if proxy > 0 then Paint(m, at, proxy) else m - at
  {
    hide Paint;
    PaintNothing(m, proxy);
    r := m;
    assert m - {} == m;
    var todo := at;
    ghost var done := {};
    while todo != {}
      invariant done + todo == at
      invariant r == if proxy > 0 then Paint(m, done, proxy) else m - done
      decreases todo
    {
      var i := Pick(todo);
      PaintMore(m, done, i, proxy);
      EraseMore(m, done, i);
      if proxy > 0 {
        r := r[i := proxy];
      } else {
        r := r - {i};
      }
      todo, done := todo - {i}, done + {i};
    }
    assert done == at;
  }

  lemma ReplaceKeepsLength(c: Channel, i: int, edited: Option<(string, string)>)
    requires 0 <= i < |c.keys|
    ensures edited.Some? ==> |ReplaceCredential(c, i, edited.value.0, edited.value.1).keys| == |c.keys|
  {
  }

  lemma PausedMore(reasons: map<int, string>, among: set<int>, i: int)
    requires i in reasons && i !in among
    ensures BalanceReason(reasons[i]) ==> PausedAmong(reasons, among + {i}) == PausedAmong(reasons, among) + {i}
    ensures BalanceReason(reasons[i]) ==> |PausedAmong(reasons, among + {i})| == |PausedAmong(reasons, among)| + 1
    ensures !BalanceReason(reasons[i]) ==> PausedAmong(reasons, among + {i}) == PausedAmong(reasons, among)
  {
    hide BalanceReason;
  }

  /** Erases the entries of one account if it was paused for its balance. */
  method LiftIfPaused(m: AccountMaps, r: AccountMaps, count: nat, i: int, ghost seen: set<int>)
    returns (r': AccountMaps, count': nat)
    requires i in m.reason && i !in seen
    requires r == EnableAt(m, PausedAmong(m.reason, seen)) && count == |PausedAmong(m.reason, seen)|
    ensures r' == EnableAt(m, PausedAmong(m.reason, seen + {i})) && count' == |PausedAmong(m.reason, seen + {i})|
  {
    hide EnableAt, DisableAt, BalanceReason, PausedAmong;
    PausedMore(m.reason, seen, i);
    r', count' := r, count;
    if BalanceReason(m.reason[i]) {
      SwitchOneMore(m, PausedAmong(m.reason, seen), i, MANUALLY_DISABLED, "", 0);
      r' := r.(status := r.status - {i}, reason := r.reason - {i}, time := r.time - {i});
      count' := count + 1;
    }
  }

  /** Walks the disabling reasons and erases the entries of every account paused for its balance. */
  method LiftPaused(m: AccountMaps) returns (r: AccountMaps, cleared: nat)
    ensures r == EnableAt(m, BalancePaused(m)) && cleared == |BalancePaused(m)|
  {
    hide EnableAt, DisableAt, PausedAmong, Elements;
    r, cleared := m, 0;
    var order := SomeOrder(m.reason.Keys);
    SwitchNothing(m, MANUALLY_DISABLED, "", 0);
    assert PausedAmong(m.reason, {}) == {};
    NoElements(order);
    for k := 0 to |order|
      invariant r == EnableAt(m, PausedAmong(m.reason, Elements(order[..k])))
      invariant cleared == |PausedAmong(m.reason, Elements(order[..k]))|
    {
      ElementsSnoc(order, k);
      AmongElements(order, k);
      r, cleared := LiftIfPaused(m, r, cleared, order[k], Elements(order[..k]));
    }
    assert order[..|order|] == order;
  }

  lemma NoElements<T>(s: seq<T>)
    ensures Elements(s[..0]) == {}
  {
  }

  lemma AmongElements<T>(s: seq<T>, k: nat)
    requires k < |s|
    ensures s[k] in Elements(s)
  {
  }

  lemma SwitchNothing(m: AccountMaps, status: int, reason: string, now: int)
    ensures EnableAt(m, {}) == m && DisableAt(m, {}, status, reason, now) == m
  {
    hide Paint;
    PaintNothing(m.status, status);
    PaintNothing(m.reason, reason);
    PaintNothing(m.time, now);
    assert m.status - {} == m.status && m.reason - {} == m.reason && m.time - {} == m.time;
  }

  lemma EraseMore<V>(m: map<int, V>, at: set<int>, i: int)
    ensures m - (at + {i}) == m - at - {i}
  {
  }

  /** Switching one more account extends the batch by its position. */
  lemma SwitchOneMore(m: AccountMaps, at: set<int>, i: int, status: int, reason: string, now: int)
    ensures var off := DisableAt(m, at, status, reason, now);
            DisableAt(m, at + {i}, status, reason, now) ==
            off.(status := off.status[i := status], reason := off.reason[i := reason], time := off.time[i := now])
    ensures var on := EnableAt(m, at);
            EnableAt(m, at + {i}) ==
            on.(status := on.status - {i}, reason := on.reason - {i}, time := on.time - {i})
  {
    hide Paint;
    PaintMore(m.status, at, i, status);
    PaintMore(m.reason, at, i, reason);
    PaintMore(m.time, at, i, now);
    EraseMore(m.status, at, i);
    EraseMore(m.reason, at, i);
    EraseMore(m.time, at, i);
  }

  lemma DedupEmpty<T(!new)>(s: seq<T>)
    ensures s != [] ==> Dedup(s) != []
  {
    if s != [] {
      assert s[0] in Dedup(s);
    }
  }

  lemma MentionsUnique(c: Channel, input: seq<string>)
    ensures MentionsExisting(c, input) <==> exists k :: k in Dedup(input) && k in ExistingSet(c.keys)
  {
    hide ExistingSet;
  }

  lemma GrowLonger(c: Channel, added: seq<string>, limit: int)
    ensures |c.keys| <= |Grow(c, added, limit).keys|
  {
  }

  lemma PaintNothing<V>(m: map<int, V>, v: V)
    ensures Paint(m, {}, v) == m
  {
  }

  lemma PaintMore<V>(m: map<int, V>, at: set<int>, i: int, v: V)
    ensures Paint(m, at + {i}, v) == Paint(m, at, v)[i := v]
  {
  }

  /** Sets the concurrency limit of each new account. */
  method PaintLimit(m: map<int, int>, lo: nat, hi: nat, limit: int) returns (r: map<int, int>)
    requires lo <= hi
    ensures r == Paint(m, NewPositions(lo, hi), limit)
  {
    hide Paint;
    r := m;
    PaintNothing(m, limit);
    for i := lo to hi
      invariant r == Paint(m, NewPositions(lo, i), limit)
    {
      PaintMore(m, NewPositions(lo, i), i, limit);
      r := r[i := limit];
    }
  }

  lemma DisableOne(m: AccountMaps, i: int, status: int, reason: string, now: int)
    ensures DisableAt(m, {i}, status, reason, now) ==
            m.(status := m.status[i := status], reason := m.reason[i := reason], time := m.time[i := now])
  {
    hide Paint;
    assert {} + {i} == {i};
    PaintNothing(m.status, status);
    PaintNothing(m.reason, reason);
    PaintNothing(m.time, now);
    PaintMore(m.status, {}, i, status);
    PaintMore(m.reason, {}, i, reason);
    PaintMore(m.time, {}, i, now);
  }
}
