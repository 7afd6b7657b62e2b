/** Deletion renumbers every map: what survivors keep, and why two deletions are one. */
module PoolDeletion {
  import opened Text
  import opened Seqs
  import opened AccountPool
  import opened PoolInvariant
  import opened PoolAccounts
  import opened PoolAccess

  lemma PulledLookup<V>(m: map<int, V>, kept: seq<int>, j: nat)
    requires j < |kept|
    ensures Lookup(Pull(m, kept), j) == Lookup(m, kept[j])
  {
  }

  /** The pulled maps say at `j` what the former maps said at `kept[j]`. */
  lemma PulledAccount(m: AccountMaps, kept: seq<int>, j: nat)
    requires j < |kept|
    ensures View(PullMaps(m, kept), j) == View(m, kept[j])
  {
    hide KnownKind, NormalKind, Pull, NormalKinds;
    PulledLookup(Disabling(m.status), kept, j);
    PulledLookup(m.reason, kept, j);
    PulledLookup(m.time, kept, j);
    PulledLookup(Positive(m.proxy), kept, j);
    PulledLookup(NormalKinds(m.kind), kept, j);
    PulledLookup(Positive(m.limit), kept, j);
    PulledLookup(m.capability, kept, j);
    NormalKindsView(m.kind, kept[j]);
  }

  lemma NormalKindsView(m: map<int, string>, i: int)
    ensures var n := NormalKinds(m);
            (if i in n && KnownKind(n[i]) then NormalKind(n[i]) else "") ==
            if i in m && KnownKind(m[i]) then NormalKind(m[i]) else ""
    ensures i in NormalKinds(m) ==> KnownKind(NormalKinds(m)[i]) && NormalKind(NormalKinds(m)[i]) == NormalKinds(m)[i]
  {
    hide KnownKind, NormalKind;
    if i in m {
      NormalKindStable(m[i]);
      KnownKindStable(m[i]);
    }
  }

  /** With two or more survivors, each keeps its credential and everything recorded about it. */
  lemma SurvivorKeepsAccount(c: Channel, doomed: set<int>, now: int, j: nat)
    requires j < |Kept(|c.keys|, doomed)| && |Kept(|c.keys|, doomed)| >= 2
    ensures var c' := Remove(c, doomed, now);
            var p := Kept(|c.keys|, doomed)[j];
            && |c'.keys| == |Kept(|c.keys|, doomed)|
            && c'.keys[j] == c.keys[p] && View(c'.maps, j) == View(c.maps, p)
  {
    hide AllDisabledReason, Kept, Reconcile, PullMaps, View;
    PulledAccount(c.maps, Kept(|c.keys|, doomed), j);
    ReconcileFrame(Shrink(c, doomed), now);
  }

  /** Statuses survive a deletion exactly when it does not leave a lone disabled account behind. */
  lemma SurvivorsKeepStatusIff(c: Channel, doomed: set<int>, now: int)
    ensures var kept := Kept(|c.keys|, doomed);
            (forall j :: 0 <= j < |kept| ==>
               EffectiveStatus(Remove(c, doomed, now).maps, j) == EffectiveStatus(c.maps, kept[j]))
            <==> (|kept| != 1 || EffectiveStatus(c.maps, kept[0]) == ENABLED)
  {
    hide PullMaps, Reconcile, Kept;
    var kept := Kept(|c.keys|, doomed);
    ReconcileFrame(Shrink(c, doomed), now);
    forall j | 0 <= j < |kept|
      ensures EffectiveStatus(PullMaps(c.maps, kept), j) == EffectiveStatus(c.maps, kept[j])
    {
      PulledStatus(c.maps, kept, j);
    }
    if |kept| == 1 {
      assert EffectiveStatus(Remove(c, doomed, now).maps, 0) == ENABLED;
    }
  }

  /** A lone survivor loses its disabling entry and its concurrency limit, and keeps the rest. */
  function CollapsedView(v: AccountView): AccountView {
    v.(status := ENABLED, reason := None, time := None, limit := 0)
  }

  lemma DropWhenSingleView(m: AccountMaps, i: int)
    ensures View(DropWhenSingle(m, 1), i) == CollapsedView(View(m, i))
  {
    hide KnownKind, NormalKind;
  }

  lemma CollapseView(c: Channel, doomed: set<int>, now: int)
    requires |Kept(|c.keys|, doomed)| == 1
    ensures var c' := Remove(c, doomed, now);
            var p := Kept(|c.keys|, doomed)[0];
            c'.keys == [c.keys[p]] && View(c'.maps, 0) == CollapsedView(View(c.maps, p))
  {
    hide AllDisabledReason, Kept, Reconcile, PullMaps, View, DropWhenSingle;
    var kept := Kept(|c.keys|, doomed);
    PulledAccount(c.maps, kept, 0);
    DropWhenSingleView(PullMaps(c.maps, kept), 0);
    ReconcileFrame(Shrink(c, doomed), now);
  }

  /** The credential and the seven recorded values of every survivor are at its new position. */
  ghost predicate SurvivorsKeepAccounts(c: Channel, doomed: set<int>, c': Channel) {
    var kept := Kept(|c.keys|, doomed);
    && |c'.keys| == |kept|
    && forall j :: 0 <= j < |kept| ==> c'.keys[j] == c.keys[kept[j]] && View(c'.maps, j) == View(c.maps, kept[j])
  }

  /** Survivors keep everything exactly when none is left alone with something that the collapse drops. */
  lemma SurvivorsKeepAccountsIff(c: Channel, doomed: set<int>, now: int)
    ensures var kept := Kept(|c.keys|, doomed);
            SurvivorsKeepAccounts(c, doomed, Remove(c, doomed, now)) <==>
            (|kept| == 1 ==>
               var v := View(c.maps, kept[0]);
               v.status == ENABLED && v.reason == None && v.time == None && v.limit == 0)
  {
    hide Kept, Remove, View;
    var kept := Kept(|c.keys|, doomed);
    RemovedLength(c, doomed, now);
    if |kept| == 1 {
      CollapseView(c, doomed, now);
    } else {
      forall j | 0 <= j < |kept|
        ensures Remove(c, doomed, now).keys[j] == c.keys[kept[j]]
                && View(Remove(c, doomed, now).maps, j) == View(c.maps, kept[j])
      {
        SurvivorKeepsAccount(c, doomed, now, j);
      }
    }
  }

  lemma RemovedLength(c: Channel, doomed: set<int>, now: int)
    ensures |Remove(c, doomed, now).keys| == |Kept(|c.keys|, doomed)|
  {
    hide AllDisabledReason, Kept, PullMaps, EnabledSet;
  }

  /** Two accounts, both disabled, in a channel that was disabled for it. */
  const TWO_DISABLED := Channel(
    ["a", "b"], true, 2, 0, "random", AUTO_DISABLED, StatusInfo(None, None, None),
    AccountMaps(map[0 := MANUALLY_DISABLED, 1 := MANUALLY_DISABLED], map[], map[], map[], map[], map[], map[]), false)

  lemma TwoDisabledIsGood()
    ensures Good(TWO_DISABLED)
  {
    hide TrimSpace, AllDisabledReason;
    var keys := TWO_DISABLED.keys;
    assert Trimmed(keys[0]) && Trimmed(keys[1]);
    assert keys[0][0] != keys[1][0];
  }

  /** A deletion that leaves one account enables it, and lifts an automatic disable of the channel. */
  lemma CollapseEnables(c: Channel, doomed: set<int>, now: int)
    requires |Kept(|c.keys|, doomed)| == 1 && c.status == AUTO_DISABLED && AllDisabledReason(c.info)
    ensures var c' := Remove(c, doomed, now);
            |c'.keys| == 1 && c'.status == ENABLED && c'.ability && EnabledSet(c'.maps, 1) == {0}
  {
    hide Kept, PullMaps, AllDisabledReason;
    assert 0 in EnabledSet(Shrink(c, doomed).maps, 1);
  }

  /** Deleting one of two disabled accounts enables the other, and the channel with it. */
  lemma CollapseEnablesSurvivor()
    ensures Good(TWO_DISABLED) && NoneEnabled(TWO_DISABLED)
    ensures Remove(TWO_DISABLED, {0}, 5).status == ENABLED && Remove(TWO_DISABLED, {0}, 5).ability
  {
    hide TrimSpace, Remove;
    TwoDisabledIsGood();
    assert |Kept(2, {0})| == 1 by {
      assert Kept(1, {0}) == [];
    }
    CollapseEnables(TWO_DISABLED, {0}, 5);
  }

  // ---------------------------------------------------------------- two deletions are one

  lemma PullTwice<V>(m: map<int, V>, first: seq<int>, second: seq<int>)
    requires Within(second, |first|)
    ensures Pull(Pull(m, first), second) == Pull(m, Gather(first, second))
  {
  }

  lemma FiltersStable(m: map<int, int>, kept: seq<int>)
    ensures Disabling(Pull(Disabling(m), kept)) == Pull(Disabling(m), kept)
    ensures Positive(Pull(Positive(m), kept)) == Pull(Positive(m), kept)
  {
  }

  lemma KindsStable(m: map<int, string>, kept: seq<int>)
    ensures NormalKinds(Pull(NormalKinds(m), kept)) == Pull(NormalKinds(m), kept)
  {
    hide KnownKind, NormalKind;
    forall k | k in m
      ensures NormalKind(NormalKind(m[k])) == NormalKind(m[k])
      ensures KnownKind(NormalKind(m[k])) <==> KnownKind(m[k])
    {
      NormalKindStable(m[k]);
      KnownKindStable(m[k]);
    }
  }

  lemma PullMapsTwice(m: AccountMaps, first: seq<int>, second: seq<int>)
    requires Within(second, |first|)
    ensures PullMaps(PullMaps(m, first), second) == PullMaps(m, Gather(first, second))
  {
    hide Pull, Gather, Disabling, Positive, NormalKinds;
    FiltersStable(m.status, first);
    FiltersStable(m.proxy, first);
    FiltersStable(m.limit, first);
    KindsStable(m.kind, first);
    PullTwice(Disabling(m.status), first, second);
    PullTwice(m.reason, first, second);
    PullTwice(m.time, first, second);
    PullTwice(Positive(m.proxy), first, second);
    PullTwice(NormalKinds(m.kind), first, second);
    PullTwice(Positive(m.limit), first, second);
    PullTwice(m.capability, first, second);
  }

  lemma ShrinkTwice(c: Channel, doomed: set<int>, batch: set<int>)
    requires forall j :: j in batch ==> 0 <= j < |Kept(|c.keys|, doomed)|
    requires |Kept(|Kept(|c.keys|, doomed)|, batch)| >= 2
    ensures Shrink(Shrink(c, doomed), batch) == Shrink(c, doomed + Original(Kept(|c.keys|, doomed), batch))
  {
    hide Kept, PullMaps;
    var first := Kept(|c.keys|, doomed);
    var second := Kept(|first|, batch);
    KeptTwice(|c.keys|, doomed, batch);
    PullMapsTwice(c.maps, first, second);
    assert Gather(Gather(c.keys, first), second) == Gather(c.keys, Gather(first, second));
  }

  /** An account enabled after the second deletion was enabled after the first. */
  lemma SecondShrinkEnables(c: Channel, batch: set<int>)
    requires !NoneEnabled(Shrink(c, batch)) && |Kept(|c.keys|, batch)| >= 2
    ensures !NoneEnabled(c)
  {
    hide Kept, PullMaps;
    var kept := Kept(|c.keys|, batch);
    var j :| j in EnabledSet(Shrink(c, batch).maps, |kept|);
    PulledStatus(c.maps, kept, j);
    assert kept[j] in EnabledSet(c.maps, |c.keys|);
  }

  /** Equal but for the `pause_type` note. */
  ghost predicate SameButPause(a: Channel, b: Channel) {
    a.(info := a.info.(pause := None)) == b.(info := b.info.(pause := None))
  }

  lemma ShrinkOther(c: Channel, status: int, info: StatusInfo, ability: bool, batch: set<int>)
    ensures Shrink(c.(status := status, info := info, ability := ability), batch) ==
            Shrink(c, batch).(status := status, info := info, ability := ability)
    ensures Shrink(c, batch).status == c.status && Shrink(c, batch).info == c.info
  {
    hide Kept, PullMaps;
  }

  lemma ReconcileTwice(c: Channel, batch: set<int>, t1: int, t2: int)
    requires !NoneEnabled(Shrink(c, batch)) ==> !NoneEnabled(c)
    ensures var twice := Remove(SaveAbility(Reconcile(c, t1)), batch, t2);
            var once := SaveAbility(Reconcile(Shrink(c, batch), t2));
            && SameButPause(twice, once)
            && ((c.status == AUTO_DISABLED && AllDisabledReason(c.info) ==> NoneEnabled(c)) ==> twice == once)
  {
    hide Shrink, AllDisabledReason, EnabledSet;
    var c1 := SaveAbility(Reconcile(c, t1));
    ShrinkOther(c, c1.status, c1.info, c1.ability, batch);
    ReconcileFollows(c, t1);
  }

  /** Deleting a batch and then a second batch, numbered as the first deletion left it, saves the
      channel that deleting both batches at once saves. */
  lemma DeleteTwice(c: Channel, doomed: set<int>, batch: set<int>, t1: int, t2: int)
    requires forall j :: j in batch ==> 0 <= j < |Kept(|c.keys|, doomed)|
    requires |Kept(|Kept(|c.keys|, doomed)|, batch)| >= 2
    ensures var twice := Remove(Remove(c, doomed, t1), batch, t2);
            var once := Remove(c, doomed + Original(Kept(|c.keys|, doomed), batch), t2);
            SameButPause(twice, once) && (Good(c) ==> twice == once)
  {
    hide Reconcile, SameButPause, AllDisabledReason, NoneEnabled, Kept, PullMaps;
    var c1 := Shrink(c, doomed);
    ShrinkTwice(c, doomed, batch);
    if !NoneEnabled(Shrink(c1, batch)) {
      SecondShrinkEnables(c1, batch);
    }
    if !NoneEnabled(c1) {
      SecondShrinkEnables(c, doomed);
    }
    ReconcileTwice(c1, batch, t1, t2);
  }

  // ---------------------------------------------------------------- deletion undoes import

  lemma KeptPrefix(n: nat, hi: nat)
    requires n <= hi
    ensures Kept(hi, NewPositions(n, hi)) == seq(n, i => i)
  {
    var kept, first := Kept(hi, NewPositions(n, hi)), seq(n, i => i);
    forall j | 0 <= j < |kept| ensures kept[j] in first {
      assert first[kept[j]] == kept[j];
    }
    AscendingUnique(kept, first);
  }

  /** The channel after what an import appended is deleted again. */
  function Undone(c: Channel, imported: Channel, now: int): Channel {
    Remove(imported, NewPositions(|c.keys|, |imported.keys|), now)
  }

  /** Deleting what was just imported brings back the credentials and everything recorded about each account of a
      channel with several. A sole account is left alone twice: its disabling entry and its limit go. */
  lemma ImportThenDelete(c: Channel, lines: seq<string>, onlyNew: bool, limit: Option<int>, codec: Codec,
                         t1: int, t2: int, i: nat)
    requires Good(c)
    ensures var r := Import(c, lines, onlyNew, limit, codec, t1);
            var back := Undone(c, r.channel, t2);
            r.Done? ==>
              && back.keys == c.keys
              && (i < |c.keys| ==>
                    View(back.maps, i) == if |c.keys| == 1 then CollapsedView(View(c.maps, i)) else View(c.maps, i))
  {
    hide View, Import, AllDisabledReason, Kept, NovelKeys, InputKeys, Remove, MapsInRange, OnlyDisablingEntries,
         DistinctKeys,
         EnabledSet, DisabledReason, ReasonText;
    if Import(c, lines, onlyNew, limit, codec, t1).Done? {
      var imported := Import(c, lines, onlyNew, limit, codec, t1).channel;
      var doomed := NewPositions(|c.keys|, |imported.keys|);
      ImportView(c, lines, onlyNew, limit, codec, t1, i);
      ImportLonger(c, lines, onlyNew, limit, codec, t1);
      KeptPrefix(|c.keys|, |imported.keys|);
      RemovedLength(imported, doomed, t2);
      if |c.keys| == 1 {
        CollapseView(imported, doomed, t2);
      } else {
        forall j | 0 <= j < |c.keys|
          ensures Undone(c, imported, t2).keys[j] == c.keys[j]
                  && View(Undone(c, imported, t2).maps, j) == View(imported.maps, j)
        {
          SurvivorKeepsAccount(imported, doomed, t2, j);
        }
      }
    }
  }

  lemma ImportLonger(c: Channel, lines: seq<string>, onlyNew: bool, limit: Option<int>, codec: Codec, now: int)
    ensures var r := Import(c, lines, onlyNew, limit, codec, now);
            r.Done? ==> |r.channel.keys| > |c.keys|
  {
    hide AllDisabledReason, NovelKeys, InputKeys, Dedup, EnabledSet, CleanMaps, WithLimit, DisableAt, KeepSoleDisabled;
  }

  /** Every account comes back as it was, exactly when none was alone with a reason, a time or a limit. */
  lemma ImportThenDeleteIff(c: Channel, lines: seq<string>, onlyNew: bool, limit: Option<int>, codec: Codec,
                            t1: int, t2: int)
    requires Good(c)
    ensures var r := Import(c, lines, onlyNew, limit, codec, t1);
            var back := Undone(c, r.channel, t2);
            r.Done? ==>
              ((back.keys == c.keys && forall i :: 0 <= i < |c.keys| ==> View(back.maps, i) == View(c.maps, i)) <==>
               (|c.keys| == 1 ==>
                  View(c.maps, 0).reason == None && View(c.maps, 0).time == None && View(c.maps, 0).limit == 0))
  {
    hide View, Import, Remove, AllDisabledReason, EnabledSet, DistinctKeys;
    var r := Import(c, lines, onlyNew, limit, codec, t1);
    forall i | 0 <= i < |c.keys| && r.Done?
      ensures var back := Undone(c, r.channel, t2);
              View(back.maps, i) == if |c.keys| == 1 then CollapsedView(View(c.maps, i)) else View(c.maps, i)
    {
      ImportThenDelete(c, lines, onlyNew, limit, codec, t1, t2, i);
    }
    ImportThenDelete(c, lines, onlyNew, limit, codec, t1, t2, 0);
    ViewStatus(c.maps, 0);
  }

  lemma MultiHasTwo(c: Channel)
    requires Good(c) && c.multi
    ensures |c.keys| >= 2
  {
  }

  lemma ReconcileQuiet(c: Channel, now: int)
    requires c.status == AUTO_DISABLED && AllDisabledReason(c.info) ==> NoneEnabled(c)
    ensures var c' := Reconcile(c, now);
            if NoneEnabled(c) then c'.status == AUTO_DISABLED else c'.status == c.status && c'.info == c.info
  {
    hide AllDisabledReason, EnabledSet;
  }

  /** Import into a good channel with several accounts moves its status only when none was enabled. */
  lemma ImportedManyStatus(c: Channel, lines: seq<string>, onlyNew: bool, limit: Option<int>, codec: Codec, now: int)
    requires Good(c) && c.multi
    ensures var r := Import(c, lines, onlyNew, limit, codec, now);
            var c' := r.channel;
            r.Done? ==>
              && |c'.keys| > |c.keys|
              && (NoneEnabled(c') <==> NoneEnabled(c))
              && if NoneEnabled(c) then c'.status == AUTO_DISABLED else c'.status == c.status && c'.info == c.info
  {
    hide AllDisabledReason, NovelKeys, InputKeys, Dedup, EnabledSet, CleanMaps, WithLimit, DisableAt, Reconcile,
         DistinctKeys,
         MapsInRange, OnlyDisablingEntries, ReconcileImport;
    if Import(c, lines, onlyNew, limit, codec, now).Done? {
      var novel := NovelKeys(c, InputKeys(lines, codec));
      var bound := if limit.Some? then limit.value else DEFAULT_IMPORT_LIMIT;
      var g := Grow(c, novel, bound);
      GrowKeepsEnabled(c, novel, bound);
      ImportManyEnabled(g, |c.keys|, now);
      ImportManyIsReconcile(g, |c.keys|, now);
      var off := g.(maps := DisableAt(g.maps, NewPositions(|c.keys|, |g.keys|), MANUALLY_DISABLED, MANUAL_REASON, now));
      ReconcileFrame(off, now);
      ReconcileQuiet(off, now);
    }
  }

  lemma ImportManyIsReconcile(c: Channel, previous: nat, now: int)
    requires |c.keys| > 1 && previous != 1
    ensures ReconcileImport(c, previous, now) ==
            Reconcile(c.(maps := DisableAt(c.maps, NewPositions(previous, |c.keys|),
                                            MANUALLY_DISABLED, MANUAL_REASON, now)), now)
  {
    hide DisableAt, Reconcile;
  }

  lemma SameViewsSameEnabled(a: Channel, b: Channel)
    requires |a.keys| == |b.keys|
    requires forall i :: 0 <= i < |a.keys| ==> EffectiveStatus(a.maps, i) == EffectiveStatus(b.maps, i)
    ensures NoneEnabled(a) <==> NoneEnabled(b)
  {
    assert EnabledSet(a.maps, |a.keys|) == EnabledSet(b.maps, |b.keys|);
  }

  lemma NoAccountsLeft(c: Channel, now: int)
    requires c.keys == []
    ensures Reconcile(c, now).status == AUTO_DISABLED
  {
    hide AllDisabledReason;
  }

  lemma UndoneManyStatus(c: Channel, lines: seq<string>, onlyNew: bool, limit: Option<int>, codec: Codec,
                         t1: int, t2: int)
    requires Good(c) && c.multi
    ensures var r := Import(c, lines, onlyNew, limit, codec, t1);
            r.Done? ==> (Undone(c, r.channel, t2).status == c.status <==> !NoneEnabled(c) || c.status == AUTO_DISABLED)
  {
    hide View, Import, AllDisabledReason, Kept, EnabledSet, Shaped, Shrink, Reconcile;
    if Import(c, lines, onlyNew, limit, codec, t1).Done? {
      var imported := Import(c, lines, onlyNew, limit, codec, t1).channel;
      var doomed := NewPositions(|c.keys|, |imported.keys|);
      var short := Shrink(imported, doomed);
      ImportedManyStatus(c, lines, onlyNew, limit, codec, t1);
      ShrinkFrame(imported, doomed);
      ReconcileFrame(short, t2);
      MultiHasTwo(c);
      ImportThenDelete(c, lines, onlyNew, limit, codec, t1, t2, 0);
      forall i | 0 <= i < |c.keys| ensures EffectiveStatus(short.maps, i) == EffectiveStatus(c.maps, i) {
        ImportThenDelete(c, lines, onlyNew, limit, codec, t1, t2, i);
        ViewStatus(short.maps, i);
        ViewStatus(c.maps, i);
      }
      SameViewsSameEnabled(short, c);
      ReconcileQuiet(short, t2);
    }
  }

  /** A sole account makes its channel enabled or, when the channel was off, disabled for having no enabled account. */
  lemma ImportedSoleStatus(c: Channel, lines: seq<string>, onlyNew: bool, limit: Option<int>, codec: Codec, now: int)
    requires Good(c) && |c.keys| == 1
    ensures var r := Import(c, lines, onlyNew, limit, codec, now);
            r.Done? ==> if c.status == ENABLED then r.channel.status == ENABLED
                        else r.channel.status == AUTO_DISABLED && AllDisabledReason(r.channel.info)
  {
    hide AllDisabledReason, NovelKeys, InputKeys, Dedup, EnabledSet, CleanMaps, WithLimit, DisableAt, DistinctKeys,
         MapsInRange, OnlyDisablingEntries, KeepSoleDisabled;
    if Import(c, lines, onlyNew, limit, codec, now).Done? {
      var novel := NovelKeys(c, InputKeys(lines, codec));
      var bound := if limit.Some? then limit.value else DEFAULT_IMPORT_LIMIT;
      var g := Grow(c, novel, bound);
      GrowKeepsEnabled(c, novel, bound);
      ImportManyEnabled(g, 1, now);
      AllDisabledIsRecognised(g.info, now);
    }
  }

  /** A sole account always ends enabled in an enabled channel, whoever had disabled the channel. */
  lemma UndoneSoleEnables(c: Channel, lines: seq<string>, onlyNew: bool, limit: Option<int>, codec: Codec,
                          t1: int, t2: int)
    requires Good(c) && |c.keys| == 1
    ensures var r := Import(c, lines, onlyNew, limit, codec, t1);
            var back := Undone(c, r.channel, t2);
            r.Done? ==> back.status == ENABLED && back.ability && EnabledSet(back.maps, 1) == {0}
  {
    hide View, Import, AllDisabledReason, Kept, Shaped, StatusFollows, Pull, PullMaps;
    if Import(c, lines, onlyNew, limit, codec, t1).Done? {
      var imported := Import(c, lines, onlyNew, limit, codec, t1).channel;
      var doomed := NewPositions(1, |imported.keys|);
      ImportedSoleStatus(c, lines, onlyNew, limit, codec, t1);
      ImportLonger(c, lines, onlyNew, limit, codec, t1);
      KeptPrefix(1, |imported.keys|);
      assert 0 in EnabledSet(Shrink(imported, doomed).maps, 1);
    }
  }

  /** Of a channel with several accounts the status comes back unless none was enabled and it was off for another
      reason, which import overwrites; of a channel with one it comes back only if it was enabled. */
  lemma ImportThenDeleteStatusIff(c: Channel, lines: seq<string>, onlyNew: bool, limit: Option<int>, codec: Codec,
                                  t1: int, t2: int)
    requires Good(c)
    ensures var r := Import(c, lines, onlyNew, limit, codec, t1);
            r.Done? ==>
              (Undone(c, r.channel, t2).status == c.status <==>
               if |c.keys| == 1 then c.status == ENABLED else !NoneEnabled(c) || c.status == AUTO_DISABLED)
  {
    hide View, Import, AllDisabledReason, EnabledSet, Shrink, Reconcile, DistinctKeys, MapsInRange,
         OnlyDisablingEntries;
    var r := Import(c, lines, onlyNew, limit, codec, t1);
    if c.multi {
      UndoneManyStatus(c, lines, onlyNew, limit, codec, t1, t2);
    } else if |c.keys| == 1 {
      UndoneSoleEnables(c, lines, onlyNew, limit, codec, t1, t2);
    } else if r.Done? {
      ImportThenDelete(c, lines, onlyNew, limit, codec, t1, t2, 0);
      var short := Shrink(r.channel, NewPositions(0, |r.channel.keys|));
      ReconcileFrame(short, t2);
      NoAccountsLeft(short, t2);
      NoAccountsNoneEnabled(c.maps);
    }
  }

  /** One account, in a channel that was disabled by hand. */
  const SOLE_DISABLED := Channel(
    ["a"], false, 1, 0, "", MANUALLY_DISABLED, StatusInfo(Some(MANUAL_REASON), Some(1), None),
    AccountMaps(map[], map[], map[], map[], map[], map[0 := 4], map[]), false)

  /** A codec that takes every credential as it is. */
  const PLAIN := Codec(_ => None, _ => None, _ => true, s => s, s => Some(s), _ => "")

  lemma SoleDisabledIsGood()
    ensures Good(SOLE_DISABLED)
  {
    hide TrimSpace, AllDisabledReason;
    assert 0 in EnabledSet(SOLE_DISABLED.maps, 1);
  }

  /** One canonical credential that the channel does not hold is imported. */
  lemma PlainLineImports(c: Channel, key: string, now: int)
    requires Canonical(key) && key !in ExistingSet(c.keys)
    ensures Import(c, [key], false, None, PLAIN, now).Done?
  {
    hide TrimSpace, ReconcileImport, Grow, ExistingSet, Dedup, Without, AllDisabledReason;
    PlainInput(key);
    var novel := NovelKeys(c, [key]);
    assert key in Dedup([key]) && key in novel;
  }

  lemma PlainInput(key: string)
    requires Canonical(key)
    ensures InputKeys([key], PLAIN) == [key]
  {
    hide TrimSpace;
    assert [key][..0] == [];
    assert InputKeys([], PLAIN) == [];
  }

  lemma OtherLetter()
    ensures Canonical("b") && "b" !in ExistingSet(SOLE_DISABLED.keys)
  {
    hide TrimSpace;
    assert Trimmed("a") && "a"[0] != "b"[0];
  }

  /** Importing an account and deleting it again switches on what was disabled by hand, and drops the limit. */
  lemma ImportThenDeleteEnablesSole()
    ensures Good(SOLE_DISABLED) && SOLE_DISABLED.status == MANUALLY_DISABLED && View(SOLE_DISABLED.maps, 0).limit == 4
    ensures var r := Import(SOLE_DISABLED, ["b"], false, None, PLAIN, 2);
            var back := Undone(SOLE_DISABLED, r.channel, 3);
            && r.Done? && back.keys == SOLE_DISABLED.keys
            && back.status == ENABLED && back.ability && View(back.maps, 0).limit == 0
  {
    hide Good, Import, Remove;
    SoleDisabledIsGood();
    OtherLetter();
    PlainLineImports(SOLE_DISABLED, "b", 2);
    UndoneSoleEnables(SOLE_DISABLED, ["b"], false, None, PLAIN, 2, 3);
    ImportThenDelete(SOLE_DISABLED, ["b"], false, None, PLAIN, 2, 3, 0);
  }

  lemma ViewStatus(m: AccountMaps, i: int)
    ensures View(m, i).status == EffectiveStatus(m, i)
  {
    hide KnownKind, NormalKind;
  }

  lemma ShrinkFrame(c: Channel, doomed: set<int>)
    ensures Shrink(c, doomed).status == c.status && Shrink(c, doomed).info == c.info
  {
  }
}
