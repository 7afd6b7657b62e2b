/** What each step of the pool answers and leaves behind: when it goes ahead, what becomes of the channel status, which
    credentials can serve afterwards, and what is reported. */
module PoolOutcome {
  import opened Text
  import opened Seqs
  import opened AccountPool
  import opened PoolInvariant
  import opened PoolAccounts
  import opened PoolAccess
  import opened PoolDeletion

  // ---------------------------------------------------------------- when a step goes ahead

  ghost predicate AllPositions(indexes: seq<int>, n: nat) {
    |indexes| > 0 && forall j :: 0 <= j < |indexes| ==> 0 <= indexes[j] < n
  }

  /** A deletion needs positions, all of them in the list. */
  lemma DeleteProceedsIff(c: Channel, indexes: seq<int>, now: int)
    ensures var r := Delete(c, indexes, now);
            (r.Done? <==> AllPositions(indexes, |c.keys|)) && (r.Refused? ==> r.channel == c)
  {
    hide Remove, AllDisabledReason;
  }

  /** Import needs a limit that is not negative and only credentials the channel type accepts, one of them new; a known
      one stops it unless only new ones were asked for. */
  lemma ImportProceedsIff(c: Channel, lines: seq<string>, onlyNew: bool, limit: Option<int>, codec: Codec, now: int)
    requires codec.Lawful()
    ensures var r := Import(c, lines, onlyNew, limit, codec, now);
            var input := InputKeys(lines, codec);
            && (r.Refused? ==> r.channel == c)
            && (r.Done? <==>
                && (limit == None || limit.value >= 0)
                && (forall k :: k in input ==> codec.accepts(k))
                && (exists k :: k in input && !HoldsCredential(c.keys, k))
                && (onlyNew || forall k :: k in input ==> !HoldsCredential(c.keys, k)))
  {
    hide ReconcileImport, Grow, AllDisabledReason, InputKeys, Dedup, Without, ExistingSet, HoldsCredential;
    var input := InputKeys(lines, codec);
    forall k | k in input ensures k in ExistingSet(c.keys) <==> HoldsCredential(c.keys, k) {
      HeldIsExisting(c.keys, k);
    }
    var novel := NovelKeys(c, input);
    assert novel == [] <==> forall k :: k in input ==> k in ExistingSet(c.keys) by {
      if novel != [] {
        assert novel[0] in novel;
      }
    }
  }

  lemma HeldIsExisting(keys: seq<string>, k: string)
    requires Canonical(k)
    ensures k in ExistingSet(keys) <==> HoldsCredential(keys, k)
  {
    hide TrimSpace;
  }

  /** What a line stands for: the trimmed text, with an exported card and a JSON object each put into their
      short form. */
  lemma LineCredential(line: string, codec: Codec)
    ensures var text := TrimSpace(line);
            && (codec.card(text) == None && codec.compact(text) == None ==> CanonicalLine(line, codec) == text)
            && (codec.card(text) == None && codec.compact(text).Some? ==>
                  Some(CanonicalLine(line, codec)) == codec.compact(text))
            && (codec.card(text).Some? ==>
                  var short := codec.card(text).value;
                  CanonicalLine(line, codec) ==
                    if codec.compact(short).Some? then codec.compact(short).value else short)
  {
    hide TrimSpace;
  }

  /** Lines are read one by one: each that is not blank gives one credential, in order. */
  lemma {:induction false} LinesAreRead(lines: seq<string>, more: seq<string>, codec: Codec)
    ensures InputKeys(lines + more, codec) == InputKeys(lines, codec) + InputKeys(more, codec)
    ensures |more| == 1 ==>
            InputKeys(more, codec) == if TrimSpace(more[0]) == "" then [] else [CanonicalLine(more[0], codec)]
  {
    hide TrimSpace, CanonicalLine;
    if more == [] {
      assert lines + more == lines;
    } else {
      var init := more[..|more| - 1];
      LinesAreRead(lines, init, codec);
      assert (lines + more)[..|lines + more| - 1] == lines + init;
      if |more| == 1 {
        assert init == [];
      }
    }
  }

  /** A restore needs a credential that is not blank, that the channel type accepts and that the channel does
      not hold. */
  lemma RestoreProceedsIff(c: Channel, record: ArchiveRecord, mode: RestoreMode, codec: Codec, now: int)
    ensures var r := Restore(c, record, mode, codec, now);
            var credential := TrimSpace(record.credential);
            && (r.Refused? ==> r.channel == c)
            && (r.Done? <==> && credential != "" && codec.accepts(credential)
                             && forall j :: 0 <= j < |c.keys| ==> TrimSpace(c.keys[j]) != credential)
  {
    hide Grow, DisableAt, AttachRecord, TrimSpace;
  }

  lemma StatusProceedsIff(c: Channel, indexes: seq<int>, enabled: bool, reason: string, now: int)
    ensures var r := UpdateStatus(c, indexes, enabled, reason, now);
            && (r.Refused? ==> r.channel == c)
            && (r.Done? <==> AllPositions(indexes, |c.keys|)
                             && (c.multi || forall j :: 0 <= j < |indexes| ==> indexes[j] == 0))
  {
    hide SwitchMany, SwitchSole, AllDisabledReason;
    var at := IndexSet(indexes);
    if AllPositions(indexes, |c.keys|) {
      SoleIndex(indexes);
    }
  }

  lemma SoleIndex(indexes: seq<int>)
    requires |indexes| > 0
    ensures IndexSet(indexes) == {0} <==> forall j :: 0 <= j < |indexes| ==> indexes[j] == 0
  {
    if IndexSet(indexes) == {0} {
      forall j | 0 <= j < |indexes| ensures indexes[j] == 0 {
        assert indexes[j] in IndexSet(indexes);
      }
    } else if forall j :: 0 <= j < |indexes| ==> indexes[j] == 0 {
      assert indexes[0] in indexes;
    }
  }

  /** The text an edit stores: its JSON form when the type is detected or asks for JSON, the text itself for an
      API key. */
  lemma EditedTextIff(text: string, kind: string, codec: Codec)
    ensures var e := EditedCredential(text, kind, codec);
            var wanted := NormalKind(kind);
            var credential := TrimSpace(text);
            var json := codec.compact(credential);
            && (e.Some? <==>
                || wanted in {"", "auto"}
                || (wanted == "api_key" && !("{" <= credential) && !("[" <= credential))
                || (wanted in {"json_auth", "oauth_account", "token_key", "session_cookie", "composite"} && json.Some?))
            && (e.Some? && wanted != "api_key" && json.Some? ==> e.value.0 == json.value)
            && (e.Some? && (wanted == "api_key" || json.None?) ==> e.value.0 == credential)
  {
    hide TrimSpace, NormalKind;
  }

  /** An edit needs a position, something to change, a credential of the right form that is accepted and not held
      elsewhere, an environment that may be used and a limit that is not negative. */
  lemma CredentialProceedsIff(c: Channel, i: int, text: string, kind: string, environment: Option<bool>,
                              limit: Option<int>, codec: Codec)
    ensures var r := UpdateCredential(c, i, text, kind, environment, limit, codec);
            var e := EditedCredential(text, kind, codec);
            && (r.Refused? ==> r.channel == c)
            && (r.Done? <==>
                && 0 <= i < |c.keys|
                && (TrimSpace(text) != "" || environment.Some? || limit.Some?)
                && (TrimSpace(text) != "" ==>
                      && e.Some? && codec.accepts(e.value.0)
                      && forall j :: 0 <= j < |c.keys| && j != i ==> TrimSpace(c.keys[j]) != e.value.0)
                && environment != Some(false)
                && (limit.Some? ==> limit.value >= 0))
  {
    hide EditedCredential, ReplaceCredential, SetLimit, CleanMaps, TrimSpace;
  }

  lemma ProxyProceedsIff(c: Channel, indexes: seq<int>, proxy: int, allowed: bool)
    ensures var r := UpdateProxy(c, indexes, proxy, allowed);
            (r.Done? <==> AllPositions(indexes, |c.keys|) && (proxy <= 0 || allowed)) && (r.Refused? ==> r.channel == c)
  {
    hide CleanMaps, Paint;
  }

  // ---------------------------------------------------------------- what becomes of the status

  /** Off merely for having no enabled account. */
  ghost predicate OffForNone(c: Channel) {
    c.status == AUTO_DISABLED && AllDisabledReason(c.info)
  }

  ghost predicate Willing(c: Channel) {
    c.status == ENABLED || OffForNone(c)
  }

  ghost predicate FallsBack(c: Channel, c': Channel, now: int) {
    c'.status == 3 && c'.info == c.info.(reason := Some("All keys are disabled"), time := Some(now))
  }

  ghost predicate Lifted(c': Channel) {
    c'.status == 1 && c'.info.reason == None && c'.info.time == None
  }

  ghost predicate Stays(c: Channel, c': Channel) {
    c'.status == c.status && c'.info == c.info
  }

  /** Deletion disables a channel with no enabled survivor, lifts a disable that was merely for that, and leaves any
      other status and reason. The polling position starts over when it is past the end. */
  lemma DeleteOutcome(c: Channel, doomed: set<int>, now: int)
    ensures var kept := Kept(|c.keys|, doomed);
            var c' := Remove(c, doomed, now);
            var some := |kept| == 1 || exists j :: 0 <= j < |kept| && EffectiveStatus(c.maps, kept[j]) == ENABLED;
            && (!some ==> FallsBack(c, c', now))
            && (some && OffForNone(c) ==> Lifted(c') && c'.info.pause == None)
            && (some && !OffForNone(c) ==> Stays(c, c'))
            && (c'.ability <==> c'.status == 1) && c'.mode == c.mode
            && c'.polling == if kept != [] && c.polling < |kept| then c.polling else 0
  {
    hide PullMaps, AllDisabledReason, Kept;
    var kept := Kept(|c.keys|, doomed);
    var m := Shrink(c, doomed).maps;
    assert |kept| == 1 ==> 0 in EnabledSet(m, 1);
    forall j | 0 <= j < |kept| && |kept| > 1
      ensures j in EnabledSet(m, |kept|) <==> EffectiveStatus(c.maps, kept[j]) == ENABLED
    {
      PulledStatus(c.maps, kept, j);
    }
  }

  /** Import into a good channel that then has several accounts leaves its status if one was enabled, and otherwise
      disables it for having none. */
  lemma ImportOutcome(c: Channel, lines: seq<string>, onlyNew: bool, limit: Option<int>, codec: Codec, now: int)
    requires Good(c)
    ensures var r := Import(c, lines, onlyNew, limit, codec, now);
            var some := if |c.keys| == 1 then c.status == ENABLED else !NoneEnabled(c);
            r.Done? ==>
              && (|r.channel.keys| > 1 ==> if some then Stays(c, r.channel) else FallsBack(c, r.channel, now))
              && (r.channel.ability <==> r.channel.status == 1)
              && r.channel.polling == c.polling
              && r.channel.mode == if |r.channel.keys| > 1 && c.mode == "" then "random" else c.mode
  {
    hide AllDisabledReason, NovelKeys, InputKeys, Dedup, EnabledSet, CleanMaps, WithLimit, DisableAt, DistinctKeys,
         MapsInRange, OnlyDisablingEntries, KeepSoleDisabled;
    if Import(c, lines, onlyNew, limit, codec, now).Done? {
      var novel := NovelKeys(c, InputKeys(lines, codec));
      var bound := if limit.Some? then limit.value else DEFAULT_IMPORT_LIMIT;
      var g := Grow(c, novel, bound);
      GrowKeepsEnabled(c, novel, bound);
      NoAccountsNoneEnabled(g.maps);
      NoAccountsNoneEnabled(c.maps);
      if |g.keys| > 1 {
        ImportManyEnabled(g, |c.keys|, now);
      }
    }
  }

  lemma RestoreOutcome(c: Channel, record: ArchiveRecord, mode: RestoreMode, codec: Codec, now: int)
    ensures var r := Restore(c, record, mode, codec, now);
            r.Done? ==>
              && (r.channel.ability <==> r.channel.status == 1)
              && r.channel.polling == c.polling
              && r.channel.mode == (if c.keys != [] && c.mode == "" then "random" else c.mode)
              && if c.keys != [] then Stays(c, r.channel)
                 else
                   && r.channel.status == (if mode.ByAdministrator? then 2 else 3)
                   && r.channel.info.reason == Some(if mode.ByAdministrator? then "restored_from_invalid_pool"
                                                    else "auth_reauthorization_pending")
                   && r.channel.info.time == Some(now) && r.channel.info.pause == c.info.pause
  {
    hide CleanMaps, DisableAt, AttachRecord, CanRestore, TrimSpace;
  }

  /** Is some account enabled once the listed ones are switched? */
  ghost predicate SomeAfterSwitch(c: Channel, at: set<int>, enabled: bool) {
    exists i :: 0 <= i < |c.keys| && if i in at then enabled else EffectiveStatus(c.maps, i) == ENABLED
  }

  lemma SwitchedEnabled(c: Channel, at: set<int>, enabled: bool, reason: string, now: int)
    ensures var c' := SwitchMany(c, at, enabled, reason, now);
            && c'.keys == c.keys
            && forall i :: 0 <= i < |c.keys| ==>
                 (i in EnabledSet(c'.maps, |c.keys|) <==>
                  if i in at then enabled else EffectiveStatus(c.maps, i) == ENABLED)
  {
    hide View, SwitchMany, EffectiveStatus;
    var c' := SwitchMany(c, at, enabled, reason, now);
    forall i | 0 <= i < |c.keys|
      ensures EffectiveStatus(c'.maps, i) == ENABLED <==>
              if i in at then enabled else EffectiveStatus(c.maps, i) == ENABLED
    {
      SwitchManyView(c, at, enabled, reason, now, i);
      ViewStatus(c'.maps, i);
      ViewStatus(c.maps, i);
    }
    if c.keys != [] {
      SwitchManyView(c, at, enabled, reason, now, 0);
    } else {
      SwitchKeepsKeys(c, at, enabled, reason, now);
    }
  }

  lemma SwitchKeepsKeys(c: Channel, at: set<int>, enabled: bool, reason: string, now: int)
    ensures var c' := SwitchMany(c, at, enabled, reason, now);
            c'.keys == c.keys && c'.polling == c.polling && c'.mode == c.mode
  {
    hide AllDisabledReason, EnabledSet, CleanMaps, EnableAt, DisableAt;
  }

  /** Switching accounts of several moves the channel only between being on and being off for having none. */
  lemma SwitchOutcome(c: Channel, at: set<int>, enabled: bool, reason: string, now: int)
    ensures var c' := SwitchMany(c, at, enabled, reason, now);
            var some := SomeAfterSwitch(c, at, enabled);
            && (!some && Willing(c) ==> FallsBack(c, c', now))
            && (some && OffForNone(c) ==> Lifted(c') && c'.info.pause == None)
            && (!(!some && Willing(c)) && !(some && OffForNone(c)) ==> Stays(c, c'))
            && c'.ability == if c'.status != c.status then c'.status == 1 else c.ability
  {
    hide AllDisabledReason, EnabledSet, CleanMaps, EnableAt, DisableAt, EffectiveStatus;
    var clean := CleanMaps(c.maps, |c.keys|);
    var m := if enabled then EnableAt(clean, at)
             else DisableAt(clean, at, MANUALLY_DISABLED, DisabledReason(reason), now);
    SwitchedEnabled(c, at, enabled, reason, now);
    assert SwitchMany(c, at, enabled, reason, now).maps == m;
    if SomeAfterSwitch(c, at, enabled) {
      var i :| 0 <= i < |c.keys| && if i in at then enabled else EffectiveStatus(c.maps, i) == ENABLED;
      assert i in EnabledSet(m, |c.keys|);
    } else {
      NoneIn(m, |c.keys|);
    }
  }

  lemma NoneIn(m: AccountMaps, n: nat)
    requires forall i :: 0 <= i < n ==> i !in EnabledSet(m, n)
    ensures EnabledSet(m, n) == {}
  {
  }

  /** A sole account is its channel: switching it writes status, reason and time there. */
  lemma SwitchSoleOutcome(c: Channel, enabled: bool, reason: string, now: int)
    requires Good(c) && |c.keys| == 1
    ensures var r := UpdateStatus(c, [0], enabled, reason, now);
            && r.Done? && r.channel.keys == c.keys && r.channel.maps == c.maps
            && (enabled ==> Lifted(r.channel) && r.channel.info.pause == None)
            && (!enabled ==>
                  && r.channel.status == 2 && r.channel.info.time == Some(now) && r.channel.info.pause == c.info.pause
                  && r.channel.info.reason ==
                     Some(if TrimSpace(reason) == "" then "manual_disabled" else TrimSpace(reason)))
            && Usable(r.channel) == if enabled then {c.keys[0]} else {}
  {
    hide TrimSpace, AllDisabledReason, DistinctKeys;
    SoleIndex([0]);
    assert EnabledSet(c.maps, 1) == {0};
  }

  lemma EditOutcome(c: Channel, i: int, text: string, kind: string, environment: Option<bool>, limit: Option<int>,
                    codec: Codec)
    ensures var r := UpdateCredential(c, i, text, kind, environment, limit, codec);
            r.Done? ==>
              && Stays(c, r.channel) && r.channel.polling == c.polling && r.channel.mode == c.mode
              && (r.channel.ability <==> r.channel.status == 1)
  {
    hide EditedCredential, CleanMaps, HeldByOther, TrimSpace;
  }

  /** A balance pause records its reason on the one account; the channel falls back when no other account is enabled. */
  lemma PauseOutcome(c: Channel, i: nat, now: int, k: nat)
    requires c.multi && i < |c.keys| && k < |c.keys|
    ensures var c' := BalancePause(c, i, now);
            var others := exists j :: 0 <= j < |c.keys| && j != i && EffectiveStatus(c.maps, j) == ENABLED;
            && c'.keys == c.keys && c'.polling == c.polling && c'.mode == c.mode
            && View(c'.maps, k) ==
                 (if k == i then View(c.maps, i).(status := 3, reason := Some("balance_insufficient"),
                                                  time := Some(now))
                  else View(c.maps, k))
            && (!others ==> FallsBack(c, c', now))
            && (others && OffForNone(c) ==> Lifted(c') && c'.info.pause == c.info.pause)
            && (others && !OffForNone(c) ==> Stays(c, c'))
            && (c'.ability <==> others)
  {
    hide AllDisabledReason, View, DisableAt, EnabledSet, EffectiveStatus;
    DisableAtView(c.maps, {i}, AUTO_DISABLED, BALANCE_REASON, now, k);
    SwitchOneEnabled(c.maps, i, AUTO_DISABLED, BALANCE_REASON, now, |c.keys|);
    OthersEnabled(c.maps, i, |c.keys|);
  }

  lemma OthersEnabled(m: AccountMaps, i: nat, n: nat)
    requires i < n
    ensures EnabledSet(m, n) - {i} != {} <==> exists j :: 0 <= j < n && j != i && EffectiveStatus(m, j) == ENABLED
  {
    hide EffectiveStatus;
    if j :| 0 <= j < n && j != i && EffectiveStatus(m, j) == ENABLED {
      assert j in EnabledSet(m, n) - {i};
    }
  }

  /** A resume touches an account only if it is paused for its balance. */
  lemma ResumeOutcome(c: Channel, i: nat, now: int, k: nat)
    requires c.multi && i < |c.keys| && k < |c.keys|
    ensures var c' := BalanceResume(c, i, now);
            if i in c.maps.reason && BalanceReason(c.maps.reason[i]) then
              && c'.keys == c.keys && c'.polling == c.polling && c'.mode == c.mode && c'.ability
              && View(c'.maps, k) ==
                   (if k == i then View(c.maps, i).(status := 1, reason := None, time := None) else View(c.maps, k))
              && (if OffForNone(c) then Lifted(c') && c'.info.pause == c.info.pause else Stays(c, c'))
            else c' == c
  {
    hide AllDisabledReason, View, EnableAt, EnabledSet, BalanceReason;
    EnableAtView(c.maps, {i}, k);
    SwitchOneEnabled(c.maps, i, AUTO_DISABLED, BALANCE_REASON, now, |c.keys|);
  }

  ghost predicate PausedAt(c: Channel, k: int) {
    k in c.maps.reason && BalanceReason(c.maps.reason[k])
  }

  /** Lifting the pauses also lifts an automatic disable of the channel, for having none or for the balance; if no
      account is paused nothing happens at all. */
  lemma ClearOutcome(c: Channel)
    requires c.multi && MapsInRange(c.maps, |c.keys|) && c.keys != []
    ensures var c' := BalanceClear(c);
            if exists k :: 0 <= k < |c.keys| && PausedAt(c, k) then
              && c'.keys == c.keys && c'.polling == c.polling && c'.mode == c.mode
              && if c.status == 3 && (AllDisabledReason(c.info) || BalanceReason(ReasonText(c.info)))
                 then Lifted(c') && c'.info.pause == c.info.pause && c'.ability
                 else Stays(c, c') && c'.ability == c.ability
            else c' == c
  {
    hide AllDisabledReason, BalanceReason, EnableAt, EnabledSet, ReasonText;
    var paused := BalancePaused(c.maps);
    if k :| 0 <= k < |c.keys| && PausedAt(c, k) {
      assert k in paused;
      EnableAtEnables(c.maps, paused, k, |c.keys|);
    } else {
      forall k ensures k !in paused {
        assert PausedAt(c, k) ==> 0 <= k < |c.keys|;
      }
    }
  }

  lemma EnableAtEnables(m: AccountMaps, at: set<int>, k: int, n: nat)
    requires k in at && 0 <= k < n
    ensures k in EnabledSet(EnableAt(m, at), n)
  {
  }


  /** A reason counts as a balance pause exactly when it is the fixed word, in any case and with space around it, or
      mentions the four characters anywhere. */
  lemma BalanceReasonIff(reason: string)
    ensures BalanceReason(reason) <==>
            ToLower(TrimSpace(reason)) == "balance_insufficient" || Contains(reason, BALANCE_WORDS)
  {
    hide TrimSpace, ToLower, LowerRune, Contains, IsSpace;
    MentionsIff(reason);
  }

  lemma MentionsIff(reason: string)
    ensures Contains(ToLower(TrimSpace(reason)), BALANCE_WORDS) <==> Contains(reason, BALANCE_WORDS)
  {
    hide TrimSpace;
    var a, b := TrimSpaceDrops(reason);
    var text := TrimSpace(reason);
    var low := ToLower(text);
    if i :| 0 <= i <= |low| && BALANCE_WORDS <= low[i..] {
      forall k | 0 <= k < 4 ensures BALANCE_WORDS[k] == reason[a + i..][k] {
        assert low[i..][k] == BALANCE_WORDS[k] && low[i + k] == LowerRune(text[i + k]);
      }
      assert BALANCE_WORDS <= reason[a + i..];
    }
    if i :| 0 <= i <= |reason| && BALANCE_WORDS <= reason[i..] {
      assert reason[i..][0] == BALANCE_WORDS[0] && reason[i..][3] == BALANCE_WORDS[3];
      assert !IsSpace(reason[i]) && !IsSpace(reason[i + 3]);
      assert a <= i && i + 3 < b;
      forall k | 0 <= k < 4 ensures BALANCE_WORDS[k] == low[i - a..][k] {
        assert reason[i..][k] == BALANCE_WORDS[k] && text[i - a + k] == reason[i + k];
      }
      assert BALANCE_WORDS <= low[i - a..];
    }
  }

  /** New credentials are appended in the order in which the lines first name them. */
  lemma NovelInOrder(c: Channel, input: seq<string>, k: nat)
    requires k <= |input|
    ensures NovelKeys(c, input[..k]) <= NovelKeys(c, input)
  {
    hide Dedup, Without, ExistingSet;
    DedupPrefix(input, k);
    var all, part := Dedup(input), Dedup(input[..k]);
    WithoutPrefix(all, |part|, ExistingSet(c.keys));
    assert all[..|part|] == part;
  }

  /** The remaining reports: a restore adds one account, an edit touches one, a proxy change as many as were listed.
      None of them says anything about the channel. */
  lemma OtherReports(c: Channel, record: ArchiveRecord, mode: RestoreMode, i: int, text: string, kind: string,
                     environment: Option<bool>, limit: Option<int>, indexes: seq<int>, proxy: int, allowed: bool,
                     codec: Codec, now: int)
    ensures var r := Restore(c, record, mode, codec, now);
            r.Done? ==> r.operation == Operation(1, |r.channel.keys| - |c.keys|, 0, 0, 0, false, false)
    ensures var r := UpdateCredential(c, i, text, kind, environment, limit, codec);
            r.Done? ==> r.operation == Operation(1, 0, 0, 0, 0, false, false)
    ensures var r := UpdateProxy(c, indexes, proxy, allowed);
            r.Done? ==> r.operation == Operation(|set k | k in indexes|, 0, 0, 0, 0, false, false)
  {
    hide CleanMaps, DisableAt, AttachRecord, CanRestore, TrimSpace, EditedCredential, HeldByOther, ReplaceCredential,
         SetLimit, Paint;
  }
}
