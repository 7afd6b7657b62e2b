/** Which accounts may serve requests: what import can switch on, and when the ability rows agree
    with the channel status. */
module PoolAccess {
  import opened Text
  import opened Seqs
  import opened AccountPool
  import opened PoolInvariant

  /** The credentials that are enabled in an enabled channel. */
  ghost function Usable(c: Channel): set<string> {
    if c.status != ENABLED then {} else
      set i | i in EnabledSet(c.maps, |c.keys|) :: c.keys[i]
  }

  // ---------------------------------------------------------------- import

  lemma GrowKeepsEnabled(c: Channel, added: seq<string>, limit: int)
    ensures EnabledSet(Grow(c, added, limit).maps, |c.keys|) == EnabledSet(c.maps, |c.keys|)
  {
    hide KnownKind;
  }

  /** Of several accounts, import leaves enabled exactly those that were, but for a sole account
      whose channel was off. */
  lemma ImportManyEnabled(c: Channel, previous: nat, now: int)
    requires 1 < |c.keys| && previous < |c.keys|
    ensures var c' := ReconcileImport(c, previous, now);
            && c'.keys == c.keys
            && EnabledSet(c'.maps, |c.keys|) ==
                 if previous == 1 && c.status != ENABLED then {} else EnabledSet(c.maps, previous)
  {
    hide Reconcile, KeepSoleDisabled;
    var maps := KeepSoleDisabled(c, previous, now);
    KeepSoleEnabled(c, previous, now);
    var off := DisableAt(maps, NewPositions(previous, |c.keys|), MANUALLY_DISABLED, MANUAL_REASON, now);
    assert EnabledSet(off, |c.keys|) == EnabledSet(maps, previous);
    ReconcileFrame(c.(maps := off), now);
  }

  lemma KeepSoleEnabled(c: Channel, previous: nat, now: int)
    ensures EnabledSet(KeepSoleDisabled(c, previous, now), previous) ==
            if previous == 1 && c.status != ENABLED then {} else EnabledSet(c.maps, previous)
  {
    hide DisabledReason, ReasonText;
  }

  ghost predicate ImportEnables(c: Channel) {
    && |c.keys| >= 2 && EnabledSet(c.maps, |c.keys|) != {}
    && c.status == AUTO_DISABLED && AllDisabledReason(c.info)
  }

  lemma ImportedStatus(c: Channel, added: seq<string>, limit: int, now: int)
    requires added != []
    requires c.status == ENABLED ==> !NoneEnabled(c)
    ensures var c' := ReconcileImport(Grow(c, added, limit), |c.keys|, now);
            && (c'.status == ENABLED <==> c.status == ENABLED || ImportEnables(c))
            && (c'.status == ENABLED ==> EnabledSet(c'.maps, |c'.keys|) == EnabledSet(c.maps, |c.keys|))
            && c'.keys == c.keys + added
  {
    hide AllDisabledReason, CleanMaps, WithLimit, DisableAt, KeepSoleDisabled, EnabledSet, Reconcile;
    var g := Grow(c, added, limit);
    GrowKeepsEnabled(c, added, limit);
    if |g.keys| > 1 {
      ImportManyEnabled(g, |c.keys|, now);
      ReconcileImportStatus(g, |c.keys|, now);
    }
    if |c.keys| == 0 {
      NoAccountsNoneEnabled(c.maps);
    }
  }

  lemma NoAccountsNoneEnabled(m: AccountMaps)
    ensures EnabledSet(m, 0) == {}
  {
  }

  lemma ReconcileImportStatus(c: Channel, previous: nat, now: int)
    requires |c.keys| > 1 && previous < |c.keys|
    ensures var c' := ReconcileImport(c, previous, now);
            c'.status == ENABLED <==>
            EnabledSet(c'.maps, |c.keys|) != {}
            && (c.status == ENABLED || (c.status == AUTO_DISABLED && AllDisabledReason(c.info)))
  {
    hide AllDisabledReason, DisableAt, KeepSoleDisabled, EnabledSet;
  }

  /** Import reports a restored channel exactly when the channel was off for having no enabled account
      while it had one, which no good channel is. */
  lemma ImportRestoresIff(c: Channel, lines: seq<string>, onlyNew: bool, limit: Option<int>, codec: Codec, now: int)
    ensures var r := Import(c, lines, onlyNew, limit, codec, now);
            r.Done? ==> (r.operation.restored <==> ImportEnables(c))
    ensures Good(c) ==> !ImportEnables(c)
  {
    hide AllDisabledReason, ReconcileImport, Grow, EnabledSet, DistinctKeys, MapsInRange, OnlyDisablingEntries;
    var r := Import(c, lines, onlyNew, limit, codec, now);
    if r.Done? && c.status == AUTO_DISABLED {
      var bound := if limit.Some? then limit.value else DEFAULT_IMPORT_LIMIT;
      ImportedStatus(c, NovelKeys(c, InputKeys(lines, codec)), bound, now);
    }
  }

  /** Import never makes an account usable, nor takes one away: the usable credentials stay the same. */
  lemma ImportKeepsUsable(c: Channel, lines: seq<string>, onlyNew: bool, limit: Option<int>, codec: Codec, now: int)
    requires Good(c)
    ensures Usable(Import(c, lines, onlyNew, limit, codec, now).channel) == Usable(c)
    ensures var r := Import(c, lines, onlyNew, limit, codec, now); r.Done? ==> !r.operation.restored
  {
    hide AllDisabledReason, ReconcileImport, Grow, EnabledSet, DistinctKeys, MapsInRange, OnlyDisablingEntries;
    ImportRestoresIff(c, lines, onlyNew, limit, codec, now);
    var r := Import(c, lines, onlyNew, limit, codec, now);
    if r.Done? {
      var bound := if limit.Some? then limit.value else DEFAULT_IMPORT_LIMIT;
      ImportedStatus(c, NovelKeys(c, InputKeys(lines, codec)), bound, now);
      UsableStays(c, r.channel);
    }
  }

  lemma UsableStays(c: Channel, c': Channel)
    requires c'.status == ENABLED <==> c.status == ENABLED
    requires c'.status == ENABLED ==> EnabledSet(c'.maps, |c'.keys|) == EnabledSet(c.maps, |c.keys|)
    requires c.keys <= c'.keys
    ensures Usable(c') == Usable(c)
  {
    hide EffectiveStatus;
  }

  // ---------------------------------------------------------------- the ability rows

  ghost predicate Aligned(c: Channel) {
    c.ability <==> c.status == ENABLED
  }

  predicate WritesAbilityFromCount(s: Step) {
    s.BalancePauseStep? || s.BalanceResumeStep?
  }

  lemma ApplyKeepsAbility(c: Channel, e: Event, codec: Codec)
    requires Aligned(c) && !WritesAbilityFromCount(e.step)
    ensures Aligned(Apply(c, e, codec))
  {
    hide AllDisabledReason, BalanceReason, EnabledSet, ReconcileImport, Reconcile, Shrink, Grow,
         NovelKeys, InputKeys, Dedup, EditedCredential, CleanMaps, AttachRecord, CanRestore, MentionsExisting,
         HeldByOther, TrimSpace;
  }

  /** Over every run of other steps the ability rows say whether the channel is enabled. */
  lemma {:induction false} RunKeepsAbility(c: Channel, events: seq<Event>, codec: Codec)
    requires Aligned(c)
    requires forall k :: 0 <= k < |events| ==> !WritesAbilityFromCount(events[k].step)
    ensures Aligned(Run(c, events, codec))
  {
    hide Apply;
    if events != [] {
      RunKeepsAbility(c, events[..|events| - 1], codec);
      ApplyKeepsAbility(Run(c, events[..|events| - 1], codec), events[|events| - 1], codec);
    }
  }

  /** The balance monitor breaks that agreement exactly when it leaves some account enabled in a
      channel that is off for another reason. */
  lemma BalanceAbilityIff(c: Channel, i: nat, now: int)
    requires c.multi && i < |c.keys|
    ensures Aligned(BalancePause(c, i, now)) <==>
            || EnabledSet(c.maps, |c.keys|) <= {i}
            || c.status == ENABLED || (c.status == AUTO_DISABLED && AllDisabledReason(c.info))
    ensures i in c.maps.reason && BalanceReason(c.maps.reason[i]) ==>
            (Aligned(BalanceResume(c, i, now)) <==>
             c.status == ENABLED || (c.status == AUTO_DISABLED && AllDisabledReason(c.info)))
  {
    hide AllDisabledReason, BalanceReason, EnabledSet, DisableAt, EnableAt;
    SwitchOneEnabled(c.maps, i, AUTO_DISABLED, BALANCE_REASON, now, |c.keys|);
  }

  // ---------------------------------------------------------------- channels disabled by hand

  lemma StatusStepKeepsManual(c: Channel, e: Event, codec: Codec)
    requires c.multi && c.status == MANUALLY_DISABLED && e.step.StatusStep?
    ensures var c' := Apply(c, e, codec); c'.multi && c'.status == MANUALLY_DISABLED && c'.keys == c.keys
  {
    hide AllDisabledReason, EnabledSet, CleanMaps;
  }

  /** Switching accounts on and off never lifts a manual disable of the channel. */
  lemma {:induction false} ManualDisableStays(c: Channel, events: seq<Event>, codec: Codec)
    requires c.multi && c.status == MANUALLY_DISABLED
    requires forall k :: 0 <= k < |events| ==> events[k].step.StatusStep?
    ensures Run(c, events, codec).multi && Run(c, events, codec).status == MANUALLY_DISABLED
  {
    hide Apply;
    if events != [] {
      ManualDisableStays(c, events[..|events| - 1], codec);
      StatusStepKeepsManual(Run(c, events[..|events| - 1], codec), events[|events| - 1], codec);
    }
  }

  /** Deleting accounts does: a manual disable survives exactly when an enabled account does. */
  lemma DeleteKeepsManualIff(c: Channel, doomed: set<int>, now: int)
    requires c.status == MANUALLY_DISABLED
    ensures Remove(c, doomed, now).status == MANUALLY_DISABLED <==>
            var kept := Kept(|c.keys|, doomed);
            |kept| == 1 || exists j :: 0 <= j < |kept| && EffectiveStatus(c.maps, kept[j]) == ENABLED
  {
    hide PullMaps, AllDisabledReason, Kept;
    var kept := Kept(|c.keys|, doomed);
    var m := Shrink(c, doomed).maps;
    assert |kept| == 1 ==> 0 in EnabledSet(m, 1);
    forall j | 0 <= j < |kept| && |kept| > 1
      ensures j in EnabledSet(m, |kept|) <==> EffectiveStatus(c.maps, kept[j]) == ENABLED
    {
      PulledStatus(c.maps, kept, j);
    }
  }

  /** Import keeps a manual disable exactly when some account of several is enabled, or when it adds the first account
      and no other. */
  lemma ImportKeepsManualIff(c: Channel, lines: seq<string>, onlyNew: bool, limit: Option<int>, codec: Codec, now: int)
    requires c.status == MANUALLY_DISABLED
    ensures var r := Import(c, lines, onlyNew, limit, codec, now);
            r.Done? ==>
              (r.channel.status == MANUALLY_DISABLED <==>
               if c.keys == [] then |NovelKeys(c, InputKeys(lines, codec))| == 1 else |c.keys| > 1 && !NoneEnabled(c))
  {
    hide AllDisabledReason, NovelKeys, InputKeys, Dedup, EnabledSet, CleanMaps, WithLimit, DisableAt, KeepSoleDisabled;
    if Import(c, lines, onlyNew, limit, codec, now).Done? {
      var novel := NovelKeys(c, InputKeys(lines, codec));
      var bound := if limit.Some? then limit.value else DEFAULT_IMPORT_LIMIT;
      var g := Grow(c, novel, bound);
      GrowKeepsEnabled(c, novel, bound);
      NoAccountsNoneEnabled(c.maps);
      NoAccountsNoneEnabled(g.maps);
      if |g.keys| > 1 {
        ImportManyEnabled(g, |c.keys|, now);
      }
    }
  }

  /** A balance pause keeps it exactly when another account is enabled; a resume always does. */
  lemma BalanceKeepsManualIff(c: Channel, i: nat, now: int)
    requires c.status == MANUALLY_DISABLED && c.multi && i < |c.keys|
    ensures BalancePause(c, i, now).status == MANUALLY_DISABLED <==> !(EnabledSet(c.maps, |c.keys|) <= {i})
    ensures BalanceResume(c, i, now).status == MANUALLY_DISABLED
  {
    hide AllDisabledReason, BalanceReason, EnabledSet, DisableAt, EnableAt;
    SwitchOneEnabled(c.maps, i, AUTO_DISABLED, BALANCE_REASON, now, |c.keys|);
  }

  /** The steps that replace a manual disable of the channel, told from the channel before the step. */
  ghost predicate LiftsManual(c: Channel, s: Step, codec: Codec) {
    match s
    case DeleteStep(indexes) =>
      var kept := Kept(|c.keys|, IndexSet(indexes));
      && ValidIndexes(indexes, |c.keys|) && |kept| != 1
      && forall j :: 0 <= j < |kept| ==> EffectiveStatus(c.maps, kept[j]) != ENABLED
    case ImportStep(lines, onlyNew, limit) =>
      && Import(c, lines, onlyNew, limit, codec, 0).Done?
      && if c.keys == [] then |NovelKeys(c, InputKeys(lines, codec))| > 1 else |c.keys| == 1 || NoneEnabled(c)
    case RestoreStep(record, mode) => c.keys == [] && CanRestore(c, record, codec) && mode.ForReauthorization?
    case StatusStep(indexes, enabled, _) =>
      !c.multi && ValidIndexes(indexes, |c.keys|) && IndexSet(indexes) == {0} && enabled
    case CredentialStep(_, _, _, _, _) => false
    case ProxyStep(_, _, _) => false
    case BalancePauseStep(i) => c.multi && 0 <= i < |c.keys| && EnabledSet(c.maps, |c.keys|) <= {i}
    case BalanceResumeStep(_) => false
    case BalanceClearStep => false
  }

  lemma ImportRefusal(c: Channel, lines: seq<string>, onlyNew: bool, limit: Option<int>, codec: Codec, t1: int, t2: int)
    ensures Import(c, lines, onlyNew, limit, codec, t1).Done? <==> Import(c, lines, onlyNew, limit, codec, t2).Done?
    ensures Import(c, lines, onlyNew, limit, codec, t1).Refused? ==>
            Import(c, lines, onlyNew, limit, codec, t1).channel == c
    ensures Import(c, lines, onlyNew, limit, codec, t1).Done? ==> |NovelKeys(c, InputKeys(lines, codec))| >= 1
  {
    hide ReconcileImport, Grow, NovelKeys, InputKeys, Dedup, AllDisabledReason;
  }

  /** Exactly these steps do. */
  lemma StepKeepsManualIff(c: Channel, e: Event, codec: Codec)
    requires c.status == MANUALLY_DISABLED
    ensures Apply(c, e, codec).status == MANUALLY_DISABLED <==> !LiftsManual(c, e.step, codec)
  {
    hide AllDisabledReason, BalanceReason, EnabledSet, Import, Remove, EditedCredential, CleanMaps, AttachRecord,
         CanRestore,
         HeldByOther, TrimSpace, Kept, InputKeys, NovelKeys, BalancePause, BalanceResume, EffectiveStatus;
    match e.step
    case DeleteStep(indexes) => DeleteKeepsManualIff(c, IndexSet(indexes), e.now);
    case ImportStep(lines, onlyNew, limit) =>
      ImportRefusal(c, lines, onlyNew, limit, codec, e.now, 0);
      ImportKeepsManualIff(c, lines, onlyNew, limit, codec, e.now);
    case BalancePauseStep(i) =>
      OutOfRange(c, i, e.now);
      if c.multi && 0 <= i < |c.keys| { BalanceKeepsManualIff(c, i, e.now); }
    case BalanceResumeStep(i) =>
      OutOfRange(c, i, e.now);
      if c.multi && 0 <= i < |c.keys| { BalanceKeepsManualIff(c, i, e.now); }
    case _ =>
  }

  lemma OutOfRange(c: Channel, i: int, now: int)
    ensures !(c.multi && 0 <= i < |c.keys|) ==> BalancePause(c, i, now) == c && BalanceResume(c, i, now) == c
  {
    hide AllDisabledReason, BalanceReason, EnabledSet;
  }

  /** Over every run, the channel is disabled by hand throughout exactly when no step of the run lifts that. */
  lemma {:induction false} RunKeepsManualIff(c: Channel, events: seq<Event>, codec: Codec)
    requires c.status == MANUALLY_DISABLED
    ensures (forall k :: 0 <= k <= |events| ==> Run(c, events[..k], codec).status == MANUALLY_DISABLED) <==>
            (forall k :: 0 <= k < |events| ==> !LiftsManual(Run(c, events[..k], codec), events[k].step, codec))
  {
    hide Apply, LiftsManual;
    if forall k :: 0 <= k < |events| ==> !LiftsManual(Run(c, events[..k], codec), events[k].step, codec) {
      for k := 0 to |events|
        invariant forall j :: 0 <= j <= k ==> Run(c, events[..j], codec).status == MANUALLY_DISABLED
      {
        RunOneMore(c, events, k, codec);
        StepKeepsManualIff(Run(c, events[..k], codec), events[k], codec);
      }
    } else {
      var k :| 0 <= k < |events| && LiftsManual(Run(c, events[..k], codec), events[k].step, codec);
      if forall j :: 0 <= j <= |events| ==> Run(c, events[..j], codec).status == MANUALLY_DISABLED {
        RunOneMore(c, events, k, codec);
        StepKeepsManualIff(Run(c, events[..k], codec), events[k], codec);
        assert false;
      }
    }
  }

  lemma RunOneMore(c: Channel, events: seq<Event>, k: nat, codec: Codec)
    requires k < |events|
    ensures Run(c, events[..k + 1], codec) == Apply(Run(c, events[..k], codec), events[k], codec)
  {
    hide Apply;
    assert events[..k + 1][..k] == events[..k];
  }
}
