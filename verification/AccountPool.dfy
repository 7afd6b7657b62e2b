/** A channel's account pool: the ordered credentials, the maps keyed by credential position, and the
    channel status that has to follow them. Every operation is given here as a function from the saved
    channel to the next saved channel; the class in `ChannelRecord` performs the same work in place. */
module AccountPool {
  import opened Text
  import opened Seqs

  const ENABLED := 1
  const MANUALLY_DISABLED := 2
  const AUTO_DISABLED := 3

  const ALL_DISABLED := "All keys are disabled"
  const MANUAL_REASON := "manual_disabled"
  const RESTORED_REASON := "restored_from_invalid_pool"
  const REAUTHORIZATION_REASON := "auth_reauthorization_pending"
  const BALANCE_REASON := "balance_insufficient"
  const BALANCE_WORDS := ['\U{4F59}', '\U{989D}', '\U{4E0D}', '\U{8DB3}']
  const DEFAULT_IMPORT_LIMIT := 6

  /** The per-position maps. A Go nil map and an empty map are the same value here. */
  datatype AccountMaps = AccountMaps(
    status: map<int, int>,
    reason: map<int, string>,
    time: map<int, int>,
    proxy: map<int, int>,
    kind: map<int, string>,
    limit: map<int, int>,
    capability: map<int, string>)

  /** The three entries of the channel's `other_info` that the pool reads or writes. */
  datatype StatusInfo = StatusInfo(reason: Option<string>, time: Option<int>, pause: Option<string>)

  datatype Channel = Channel(
    keys: seq<string>,
    multi: bool,
    size: int,
    polling: int,
    mode: string,
    status: int,
    info: StatusInfo,
    maps: AccountMaps,
    ability: bool)

  /** The report handed back to the administrator. */
  datatype Operation = Operation(
    affected: nat,
    added: nat,
    deleted: nat,
    skippedExisting: nat,
    skippedDuplicate: nat,
    restored: bool,
    disabled: bool)

  /** The saved channel after a call; a refused call saves nothing. */
  datatype Reply = Done(channel: Channel, operation: Operation) | Refused(channel: Channel)

  /** JSON work on credentials and capabilities. `compact` and `card` rewrite a credential line,
      `accepts` is the channel type's validation, `snapshot` and `parse` store a capability, and
      `infer` reads an account type off a credential. */
  datatype Codec = Codec(
    compact: string -> Option<string>,
    card: string -> Option<string>,
    accepts: string -> bool,
    snapshot: string -> string,
    parse: string -> Option<string>,
    infer: string -> string)
  {
    /** Serialised JSON objects are never blank and carry no outer space. */
    ghost predicate Lawful() {
      && (forall s :: compact(s).Some? ==> Canonical(compact(s).value))
      && (forall s :: card(s).Some? ==> Canonical(card(s).value))
    }
  }

  // ---------------------------------------------------------------- reading the channel

  function EffectiveStatus(m: AccountMaps, i: int): int {
    if i in m.status then m.status[i] else ENABLED
  }

  function EnabledSet(m: AccountMaps, n: nat): set<int> {
    set i | 0 <= i < n && EffectiveStatus(m, i) == ENABLED
  }

  predicate NoneEnabled(c: Channel) {
    EnabledSet(c.maps, |c.keys|) == {}
  }

  function ReasonText(info: StatusInfo): string {
    if info.reason.Some? then info.reason.value else ""
  }

  predicate AllDisabledReason(info: StatusInfo) {
    TrimSpace(ReasonText(info)) == "" || TrimSpace(ReasonText(info)) == ALL_DISABLED
  }

  predicate BalanceReason(reason: string) {
    var normalized := ToLower(TrimSpace(reason));
    normalized == BALANCE_REASON || Contains(normalized, BALANCE_WORDS)
  }

  function NormalKind(kind: string): string {
    ToLower(TrimSpace(kind))
  }

  predicate KnownKind(kind: string) {
    NormalKind(kind) in {"api_key", "json_auth", "oauth_account", "token_key", "session_cookie", "composite"}
  }

  function DisabledReason(reason: string): string {
    if TrimSpace(reason) == "" then MANUAL_REASON else TrimSpace(reason)
  }

  function IndexSet(indexes: seq<int>): set<int> {
    set i | i in indexes
  }

  predicate ValidIndexes(indexes: seq<int>, n: int) {
    indexes != [] && Within(indexes, n)
  }

  // ---------------------------------------------------------------- writing the status

  function SetReason(info: StatusInfo, reason: string, now: int): StatusInfo {
    info.(reason := Some(reason), time := Some(now))
  }

  function ClearReason(info: StatusInfo): StatusInfo {
    StatusInfo(None, None, None)
  }

  function AutoDisable(c: Channel, now: int): Channel {
    c.(status := AUTO_DISABLED, info := SetReason(c.info, ALL_DISABLED, now))
  }

  /** The rule shared by delete and by import of several accounts. */
  function Reconcile(c: Channel, now: int): Channel {
    if NoneEnabled(c) then AutoDisable(c, now)
    else if c.status == AUTO_DISABLED && AllDisabledReason(c.info) then
      c.(status := ENABLED, info := ClearReason(c.info))
    else c
  }

  function SaveAbility(c: Channel): Channel {
    c.(ability := c.status == ENABLED)
  }

  /** The entries at positions below `n`. */
  function Clip<V>(m: map<int, V>, n: int): map<int, V> {
    map i | i in m && 0 <= i < n :: m[i]
  }

  function Disabling(m: map<int, int>): map<int, int> {
    map i | i in m && m[i] != ENABLED :: m[i]
  }

  function Positive(m: map<int, int>): map<int, int> {
    map i | i in m && m[i] > 0 :: m[i]
  }

  function Known(m: map<int, string>): map<int, string> {
    map i | i in m && KnownKind(m[i]) :: m[i]
  }

  function CleanMaps(m: AccountMaps, n: int): AccountMaps {
    AccountMaps(Clip(Disabling(m.status), n), Clip(m.reason, n), Clip(m.time, n), Clip(Positive(m.proxy), n),
                Clip(Known(m.kind), n), Clip(Positive(m.limit), n), Clip(m.capability, n))
  }

  /** The same entry at every position of a batch. */
  function Paint<V>(m: map<int, V>, at: set<int>, v: V): map<int, V> {
    m + (map i | i in at :: v)
  }

  /** Disabling entries for a batch of positions. */
  function DisableAt(m: AccountMaps, at: set<int>, status: int, reason: string, now: int): AccountMaps {
    m.(status := Paint(m.status, at, status), reason := Paint(m.reason, at, reason), time := Paint(m.time, at, now))
  }

  function EnableAt(m: AccountMaps, at: set<int>): AccountMaps {
    m.(status := m.status - at, reason := m.reason - at, time := m.time - at)
  }

  // ---------------------------------------------------------------- delete

  /** What position `kept[j]` held moves to position `j`. */
  function Pull<V>(m: map<int, V>, kept: seq<int>): map<int, V> {
    map j | 0 <= j < |kept| && kept[j] in m :: m[kept[j]]
  }

  function NormalKinds(m: map<int, string>): map<int, string> {
    map i | i in m && KnownKind(m[i]) :: NormalKind(m[i])
  }

  function PullMaps(m: AccountMaps, kept: seq<int>): AccountMaps {
    AccountMaps(Pull(Disabling(m.status), kept), Pull(m.reason, kept), Pull(m.time, kept),
                Pull(Positive(m.proxy), kept),
                Pull(NormalKinds(m.kind), kept), Pull(Positive(m.limit), kept), Pull(m.capability, kept))
  }

  /** A single-key channel carries no per-position status and no concurrency limit. */
  function DropWhenSingle(m: AccountMaps, n: nat): AccountMaps {
    m.(status := if n > 1 then m.status else map[],
       reason := if n > 1 then m.reason else map[],
       time := if n > 1 then m.time else map[],
       limit := if n > 1 then m.limit else map[])
  }

  /** The channel holding only the kept accounts, before its status is reconciled. */
  function Shrink(c: Channel, doomed: set<int>): Channel {
    var kept := Kept(|c.keys|, doomed);
    c.(keys := Gather(c.keys, kept),
       multi := |kept| > 1,
       size := |kept|,
       polling := if c.polling >= |kept| || |kept| == 0 then 0 else c.polling,
       maps := DropWhenSingle(PullMaps(c.maps, kept), |kept|))
  }

  function Remove(c: Channel, doomed: set<int>, now: int): Channel {
    SaveAbility(Reconcile(Shrink(c, doomed), now))
  }

  function Delete(c: Channel, indexes: seq<int>, now: int): Reply {
    if !ValidIndexes(indexes, |c.keys|) then Refused(c) else
      var doomed := IndexSet(indexes);
      var c' := Remove(c, doomed, now);
      Done(c', Operation(|doomed|, 0, |doomed|, 0, 0,
                         c.status == AUTO_DISABLED && AllDisabledReason(c.info) && c'.status == ENABLED,
                         c.status == ENABLED && c'.status == AUTO_DISABLED))
  }

  // ---------------------------------------------------------------- import

  function CanonicalLine(line: string, codec: Codec): string {
    var key := TrimSpace(line);
    var carded := match codec.card(key) case Some(k) => k case None => key;
    match codec.compact(carded) case Some(k) => k case None => carded
  }

  /** The non-blank lines, rewritten. */
  function InputKeys(lines: seq<string>, codec: Codec): (r: seq<string>)
    ensures codec.Lawful() ==> forall k :: k in r ==> Canonical(k)
  {
    if lines == [] then [] else
      var r := InputKeys(lines[..|lines| - 1], codec);
      var line := lines[|lines| - 1];
      if TrimSpace(line) == "" then r else r + [CanonicalLine(line, codec)]
  }

  function ExistingSet(keys: seq<string>): set<string> {
    set k | k in keys && TrimSpace(k) != "" :: TrimSpace(k)
  }

  function NovelKeys(c: Channel, input: seq<string>): seq<string> {
    Without(Dedup(input), ExistingSet(c.keys))
  }

  predicate MentionsExisting(c: Channel, input: seq<string>) {
    exists k :: k in input && k in ExistingSet(c.keys)
  }

  function NewPositions(lo: nat, hi: nat): (r: set<int>)
    ensures forall i :: i in r <==> lo <= i < hi
    decreases hi
  {
    if lo >= hi then {} else NewPositions(lo, hi - 1) + {hi - 1}
  }

  function WithLimit(m: AccountMaps, at: set<int>, limit: int): AccountMaps {
    m.(limit := if limit > 0 then Paint(m.limit, at, limit) else m.limit)
  }

  function FillMode(multi: bool, mode: string): string {
    if multi && mode == "" then "random" else mode
  }

  /** The longer key list, with limits set and the maps cleaned. */
  function Grow(c: Channel, novel: seq<string>, limit: int): Channel {
    var keys := c.keys + novel;
    c.(keys := keys,
       multi := |keys| > 1,
       size := |keys|,
       mode := FillMode(|keys| > 1, c.mode),
       maps := CleanMaps(WithLimit(c.maps, NewPositions(|c.keys|, |keys|), limit), |keys|))
  }

  /** A sole account that was off because its channel was off gets its own disabling entry. */
  function KeepSoleDisabled(c: Channel, previous: nat, now: int): AccountMaps {
    if previous == 1 && c.status != ENABLED then
      c.maps.(status := c.maps.status[0 := MANUALLY_DISABLED],
              reason := c.maps.reason[0 := DisabledReason(ReasonText(c.info))],
              time := c.maps.time[0 := if 0 in c.maps.time && c.maps.time[0] != 0 then c.maps.time[0] else now])
    else c.maps
  }

  function ReconcileImport(c: Channel, previous: nat, now: int): Channel {
    if |c.keys| == 1 then
      c.(maps := c.maps.(status := map[], reason := map[], time := map[]),
         status := MANUALLY_DISABLED,
         info := SetReason(c.info, MANUAL_REASON, now))
    else
      var maps := KeepSoleDisabled(c, previous, now);
      Reconcile(c.(maps := DisableAt(maps, NewPositions(previous, |c.keys|),
                                    MANUALLY_DISABLED, MANUAL_REASON, now)), now)
  }

  function Import(c: Channel, lines: seq<string>, onlyNew: bool, limit: Option<int>, codec: Codec, now: int): Reply {
    var bound := if limit.Some? then limit.value else DEFAULT_IMPORT_LIMIT;
    var input := InputKeys(lines, codec);
    var unique := Dedup(input);
    var novel := NovelKeys(c, input);
    if bound < 0 || input == [] || (exists k :: k in unique && !codec.accepts(k)) then Refused(c)
    else if (!onlyNew && MentionsExisting(c, input)) || novel == [] then Refused(c)
    else
      var c' := SaveAbility(ReconcileImport(Grow(c, novel, bound), |c.keys|, now));
      Done(c', Operation(|novel|, |novel|, 0, |unique| - |novel|, DedupShorter(input); |input| - |unique|,
                         c.status == AUTO_DISABLED && AllDisabledReason(c.info) && c'.status == ENABLED, false))
  }

  lemma {:induction false} DedupShorter<T(!new)>(s: seq<T>)
    ensures |Dedup(s)| <= |s|
  {
    if s != [] { DedupShorter(s[..|s| - 1]); }
  }

  // ---------------------------------------------------------------- restore from the invalid pool

  datatype ArchiveRecord = ArchiveRecord(
    channelId: int,
    position: int,
    credential: string,
    kind: string,
    proxy: int,
    snapshot: string,
    reason: string,
    note: string)

  /** The two callers of the restore routine. */
  datatype RestoreMode = ByAdministrator | ForReauthorization

  function RestoreStatus(mode: RestoreMode): int {
    if mode.ByAdministrator? then MANUALLY_DISABLED else AUTO_DISABLED
  }

  function RestoreReason(mode: RestoreMode): string {
    if mode.ByAdministrator? then RESTORED_REASON else REAUTHORIZATION_REASON
  }

  predicate HoldsCredential(keys: seq<string>, credential: string) {
    exists k :: k in keys && TrimSpace(k) == credential
  }

  predicate CanRestore(c: Channel, record: ArchiveRecord, codec: Codec) {
    var credential := TrimSpace(record.credential);
    credential != "" && codec.accepts(credential) && !HoldsCredential(c.keys, credential)
  }

  function AttachRecord(m: AccountMaps, i: int, record: ArchiveRecord, codec: Codec): AccountMaps {
    var capability := if TrimSpace(record.snapshot) != "" then codec.parse(record.snapshot) else None;
    m.(kind := if KnownKind(record.kind) then m.kind[i := NormalKind(record.kind)] else m.kind,
       proxy := if record.proxy > 0 then m.proxy[i := record.proxy] else m.proxy,
       capability := if capability.Some? then m.capability[i := capability.value] else m.capability)
  }

  function Restore(c: Channel, record: ArchiveRecord, mode: RestoreMode, codec: Codec, now: int): Reply {
    if !CanRestore(c, record, codec) then Refused(c) else
      var i := |c.keys|;
      var grown := Grow(c, [TrimSpace(record.credential)], 0);
      var off := if grown.multi
                 then grown.(maps := DisableAt(grown.maps, {i}, RestoreStatus(mode), RestoreReason(mode), now))
                 else grown.(status := RestoreStatus(mode), info := SetReason(grown.info, RestoreReason(mode), now));
      Done(SaveAbility(off.(maps := AttachRecord(off.maps, i, record, codec))),
           Operation(1, 1, 0, 0, 0, false, false))
  }

  // ---------------------------------------------------------------- enable and disable

  /** The multi-key rule: a channel disabled by hand, or for another reason, is left as it is. */
  function ReconcileGuarded(c: Channel, now: int): Channel {
    if NoneEnabled(c) then
      if c.status == ENABLED || (c.status == AUTO_DISABLED && AllDisabledReason(c.info))
      then AutoDisable(c, now) else c
    else if c.status == AUTO_DISABLED && AllDisabledReason(c.info) then
      c.(status := ENABLED, info := ClearReason(c.info))
    else c
  }

  /** The abilities are rewritten only when the channel status moved. */
  function SaveAbilityIfMoved(before: Channel, c: Channel): Channel {
    if before.status != c.status then SaveAbility(c) else c
  }

  function SwitchMany(c: Channel, at: set<int>, enabled: bool, reason: string, now: int): Channel {
    var clean := CleanMaps(c.maps, |c.keys|);
    var maps := if enabled then EnableAt(clean, at)
                else DisableAt(clean, at, MANUALLY_DISABLED, DisabledReason(reason), now);
    SaveAbilityIfMoved(c, ReconcileGuarded(c.(size := |c.keys|, maps := maps), now))
  }

  function SwitchSole(c: Channel, enabled: bool, reason: string, now: int): Channel {
    SaveAbilityIfMoved(c,
      if enabled then c.(status := ENABLED, info := ClearReason(c.info))
      else c.(status := MANUALLY_DISABLED, info := SetReason(c.info, DisabledReason(reason), now)))
  }

  function UpdateStatus(c: Channel, indexes: seq<int>, enabled: bool, reason: string, now: int): Reply {
    if !ValidIndexes(indexes, |c.keys|) then Refused(c) else
      var at := IndexSet(indexes);
      if c.multi then
        var c' := SwitchMany(c, at, enabled, reason, now);
        Done(c', Operation(|at|, 0, 0, 0, 0,
                           c.status == AUTO_DISABLED && AllDisabledReason(c.info) && c'.status == ENABLED,
                           c.status == ENABLED && c'.status == AUTO_DISABLED))
      else if at != {0} then Refused(c)
      else
        var c' := SwitchSole(c, enabled, reason, now);
        Done(c', Operation(1, 0, 0, 0, 0,
                           c.status != ENABLED && c'.status == ENABLED,
                           c.status == ENABLED && c'.status != ENABLED))
  }

  // ---------------------------------------------------------------- credential and proxy edits

  /** The credential to store and the account type to record, or nothing when the form is wrong. */
  function EditedCredential(text: string, kind: string, codec: Codec): Option<(string, string)> {
    var credential := TrimSpace(text);
    var wanted := NormalKind(kind);
    var compacted := codec.compact(credential);
    if wanted == "" || wanted == "auto" then
      Some((if compacted.Some? then compacted.value else credential, ""))
    else if wanted == "api_key" then
      if "{" <= credential || "[" <= credential then None else Some((credential, wanted))
    else if KnownKind(kind) && compacted.Some? then Some((compacted.value, wanted))
    else None
  }

  predicate HeldByOther(keys: seq<string>, i: int, credential: string) {
    exists j :: 0 <= j < |keys| && j != i && TrimSpace(keys[j]) == credential
  }

  function ReplaceCredential(c: Channel, i: int, credential: string, kind: string): Channel
    requires 0 <= i < |c.keys|
  {
    c.(keys := c.keys[i := credential],
       multi := |c.keys| > 1,
       size := |c.keys|,
       maps := c.maps.(kind := if kind != "" then c.maps.kind[i := kind] else c.maps.kind - {i}))
  }

  function SetLimit(m: AccountMaps, i: int, limit: int): AccountMaps {
    m.(limit := if limit > 0 then m.limit[i := limit] else m.limit - {i})
  }

  /** `environment` is `None` when the form leaves the Codex environment alone, and otherwise says
      whether the chosen environment may be used. */
  function UpdateCredential(c: Channel, i: int, text: string, kind: string,
                            environment: Option<bool>, limit: Option<int>, codec: Codec): Reply
  {
    var edited := EditedCredential(text, kind, codec);
    var changes := TrimSpace(text) != "";
    if !(0 <= i < |c.keys|) || (!changes && environment.None? && limit.None?) then Refused(c)
    else if changes && (edited.None? || !codec.accepts(edited.value.0) || HeldByOther(c.keys, i, edited.value.0)) then
      Refused(c)
    else if environment == Some(false) || (limit.Some? && limit.value < 0) then Refused(c)
    else
      var c1 := if changes then ReplaceCredential(c, i, edited.value.0, edited.value.1) else c;
      var m := if limit.Some? then SetLimit(c1.maps, i, limit.value) else c1.maps;
      Done(SaveAbility(c1.(maps := CleanMaps(m, |c.keys|))), Operation(1, 0, 0, 0, 0, false, false))
  }

  /** `allowed` is the outcome of the proxy lookup and of the proxy reuse policy. */
  function UpdateProxy(c: Channel, indexes: seq<int>, proxy: int, allowed: bool): Reply {
    if !ValidIndexes(indexes, |c.keys|) || (proxy > 0 && !allowed) then Refused(c) else
      var at := IndexSet(indexes);
      var m := CleanMaps(c.maps, |c.keys|);
      Done(c.(maps := m.(proxy := if proxy > 0 then Paint(m.proxy, at, proxy) else m.proxy - at)),
           Operation(|at|, 0, 0, 0, 0, false, false))
  }

  // ---------------------------------------------------------------- the balance monitor

  /** The balance monitor raises a channel with no usable account without asking who disabled it, and
      writes the abilities from the number of enabled accounts. */
  function ReconcileBalance(c: Channel, now: int): Channel {
    (if NoneEnabled(c) then AutoDisable(c, now)
     else if c.status == AUTO_DISABLED && AllDisabledReason(c.info) then
       c.(status := ENABLED, info := c.info.(reason := None, time := None))
     else c).(ability := !NoneEnabled(c))
  }

  function BalancePause(c: Channel, i: int, now: int): Channel {
    if !c.multi || !(0 <= i < |c.keys|) then c
    else ReconcileBalance(c.(maps := DisableAt(c.maps, {i}, AUTO_DISABLED, BALANCE_REASON, now)), now)
  }

  function BalanceResume(c: Channel, i: int, now: int): Channel {
    if !c.multi || !(0 <= i < |c.keys|) then c
    else if !(i in c.maps.reason && BalanceReason(c.maps.reason[i])) then c
    else ReconcileBalance(c.(maps := EnableAt(c.maps, {i})), now)
  }

  function PausedAmong(reasons: map<int, string>, among: set<int>): (r: set<int>)
    ensures r <= among
  {
    set i | i in among && i in reasons && BalanceReason(reasons[i])
  }

  function BalancePaused(m: AccountMaps): set<int> {
    PausedAmong(m.reason, m.reason.Keys)
  }

  function BalanceClear(c: Channel): Channel {
    var paused := BalancePaused(c.maps);
    if !c.multi || c.keys == [] || paused == {} then c else
      var c1 := c.(maps := EnableAt(c.maps, paused));
      if !NoneEnabled(c1) && c1.status == AUTO_DISABLED
         && (AllDisabledReason(c1.info) || BalanceReason(ReasonText(c1.info)))
      then c1.(status := ENABLED, info := c1.info.(reason := None, time := None), ability := true)
      else c1
  }

  // ---------------------------------------------------------------- runs

  datatype Step =
    | DeleteStep(indexes: seq<int>)
    | ImportStep(lines: seq<string>, onlyNew: bool, limit: Option<int>)
    | RestoreStep(record: ArchiveRecord, mode: RestoreMode)
    | StatusStep(indexes: seq<int>, enabled: bool, reason: string)
    | CredentialStep(i: int, text: string, kind: string, environment: Option<bool>, limit: Option<int>)
    | ProxyStep(indexes: seq<int>, proxy: int, allowed: bool)
    | BalancePauseStep(i: int)
    | BalanceResumeStep(i: int)
    | BalanceClearStep

  /** A step and the clock reading it uses. */
  datatype Event = Event(step: Step, now: int)

  function Apply(c: Channel, e: Event, codec: Codec): Channel {
    match e.step
    case DeleteStep(indexes) => Delete(c, indexes, e.now).channel
    case ImportStep(lines, onlyNew, limit) => Import(c, lines, onlyNew, limit, codec, e.now).channel
    case RestoreStep(record, mode) => Restore(c, record, mode, codec, e.now).channel
    case StatusStep(indexes, enabled, reason) => UpdateStatus(c, indexes, enabled, reason, e.now).channel
    case CredentialStep(i, text, kind, environment, limit) =>
      UpdateCredential(c, i, text, kind, environment, limit, codec).channel
    case ProxyStep(indexes, proxy, allowed) => UpdateProxy(c, indexes, proxy, allowed).channel
    case BalancePauseStep(i) => BalancePause(c, i, e.now)
    case BalanceResumeStep(i) => BalanceResume(c, i, e.now)
    case BalanceClearStep => BalanceClear(c)
  }

  function Run(c: Channel, events: seq<Event>, codec: Codec): Channel {
    if events == [] then c else Apply(Run(c, events[..|events| - 1], codec), events[|events| - 1], codec)
  }
}
