/** The Codex environment of each account, which older records key by list position and newer ones by account.
    Every operation first migrates the old map into the new one. Go ranges over the old map in an arbitrary
    order, so the migration takes the order as an argument and the results hold for each order. */
module CodexEnvironment {
  import opened Text
  import opened Seqs

  datatype Environments = Environments(keys: seq<string>, legacy: map<int, int>, byAccount: map<string, int>)

  /** The trimmed account key of a credential; it may be blank. */
  type Identity = string -> string

  function UniqueAt(s: Environments, id: Identity, i: int): (u: string)
    ensures Trimmed(u)
  {
    if 0 <= i < |s.keys| then TrimSpace(id(s.keys[i])) else ""
  }

  function Positive<K>(m: map<K, int>, k: K): nat {
    if k in m && m[k] > 0 then m[k] else 0
  }

  /** The environment in force for the account at a position; 0 is none. */
  function Lookup(s: Environments, id: Identity, i: int): nat {
    var u := UniqueAt(s, id, i);
    if i < 0 then 0
    else if u != "" && Positive(s.byAccount, u) > 0 then Positive(s.byAccount, u)
    else Positive(s.legacy, i)
  }

  // ---------------------------------------------------------------- migration and cleanup

  /** One round of the migration loop. */
  function MigrateOne(s: Environments, id: Identity, held: map<string, int>, i: int): map<string, int> {
    var u := UniqueAt(s, id, i);
    if u != "" && Positive(s.legacy, i) > 0 && Positive(held, u) == 0 then held[u := s.legacy[i]] else held
  }

  function Migrate(s: Environments, id: Identity, order: seq<int>): map<string, int> {
    if order == [] then s.byAccount else
      MigrateOne(s, id, Migrate(s, id, order[..|order| - 1]), order[|order| - 1])
  }

  predicate IsAccount(s: Environments, id: Identity, u: string) {
    u != "" && exists i :: 0 <= i < |s.keys| && UniqueAt(s, id, i) == u
  }

  /** The positive entries of accounts still in the list. */
  function Prune(s: Environments, id: Identity, held: map<string, int>): map<string, int> {
    map u | u in held && TrimSpace(u) != "" && held[u] > 0 && IsAccount(s, id, u) :: held[u]
  }

  function Cleanup(s: Environments, id: Identity, order: seq<int>): Environments {
    Environments(s.keys, map[], Prune(s, id, Migrate(s, id, order)))
  }

  ghost predicate IsOrder(s: Environments, order: seq<int>) {
    Distinct(order) && Elements(order) == s.legacy.Keys
  }

  /** The first environment, in the order read, that the old map offers an account key; 0 is none. */
  function FirstOffer(s: Environments, id: Identity, order: seq<int>, u: string): nat {
    if order == [] then 0 else
      var r := FirstOffer(s, id, order[..|order| - 1], u);
      var i := order[|order| - 1];
      if r > 0 then r else if UniqueAt(s, id, i) == u then Positive(s.legacy, i) else 0
  }

  /** The migration keeps an entry the account already has, and otherwise takes the first offer. */
  lemma {:induction false} MigrateFinds(s: Environments, id: Identity, order: seq<int>, u: string)
    requires u != ""
    ensures Positive(Migrate(s, id, order), u) ==
            if Positive(s.byAccount, u) > 0 then Positive(s.byAccount, u) else FirstOffer(s, id, order, u)
  {
    hide UniqueAt;
    if order != [] {
      MigrateFinds(s, id, order[..|order| - 1], u);
    }
  }

  /** A positive first offer comes from a position of that account. */
  lemma {:induction false} OfferHasSource(s: Environments, id: Identity, order: seq<int>, u: string) returns (k: nat)
    requires FirstOffer(s, id, order, u) > 0
    ensures k < |order| && UniqueAt(s, id, order[k]) == u && Positive(s.legacy, order[k]) == FirstOffer(s, id, order, u)
  {
    hide UniqueAt;
    k := |order| - 1;
    if FirstOffer(s, id, order[..k], u) > 0 {
      k := OfferHasSource(s, id, order[..k], u);
    }
  }

  /** A position of the account with an environment makes an offer. */
  lemma {:induction false} SourceMakesOffer(s: Environments, id: Identity, order: seq<int>, u: string, k: nat)
    requires k < |order| && UniqueAt(s, id, order[k]) == u && Positive(s.legacy, order[k]) > 0
    ensures FirstOffer(s, id, order, u) > 0
  {
    hide UniqueAt;
    if k < |order| - 1 {
      SourceMakesOffer(s, id, order[..|order| - 1], u, k);
    }
  }

  lemma PositionInOrder(s: Environments, order: seq<int>, i: int) returns (k: nat)
    requires IsOrder(s, order) && i in s.legacy
    ensures k < |order| && order[k] == i
  {
    assert i in Elements(order);
    k :| k < |order| && order[k] == i;
  }

  lemma NonemptyHasElements<T>(s: seq<T>)
    ensures s != [] ==> Elements(s) != {}
  {
    if s != [] {
      assert s[0] in Elements(s);
    }
  }

  /** An account whose key is blank keeps no environment; accounts that share a key, and have no entry under it,
      must agree on theirs. */
  ghost predicate MigrationSafe(s: Environments, id: Identity) {
    && (forall i :: 0 <= i < |s.keys| && UniqueAt(s, id, i) == "" ==> Positive(s.legacy, i) == 0)
    && (forall i, j :: 0 <= i < j < |s.keys| && UniqueAt(s, id, i) == UniqueAt(s, id, j) != ""
                       && Positive(s.byAccount, UniqueAt(s, id, i)) == 0 ==>
          Positive(s.legacy, i) == Positive(s.legacy, j))
  }

  lemma CleanupLookup(s: Environments, id: Identity, order: seq<int>, i: int)
    requires 0 <= i < |s.keys|
    ensures var u := UniqueAt(s, id, i);
            Lookup(Cleanup(s, id, order), id, i) == if u == "" then 0 else Positive(Migrate(s, id, order), u)
  {
    hide TrimSpace, Migrate;
    var u := UniqueAt(s, id, i);
    assert UniqueAt(Cleanup(s, id, order), id, i) == u;
    assert TrimSpace(u) == u;
  }

  lemma CleanupKeepsOne(s: Environments, id: Identity, order: seq<int>, i: int)
    requires IsOrder(s, order) && MigrationSafe(s, id) && 0 <= i < |s.keys|
    ensures Lookup(Cleanup(s, id, order), id, i) == Lookup(s, id, i)
  {
    hide Cleanup, Migrate, UniqueAt, FirstOffer;
    var u := UniqueAt(s, id, i);
    CleanupLookup(s, id, order, i);
    if u != "" && Positive(s.byAccount, u) == 0 {
      MigrateFinds(s, id, order, u);
      if Positive(s.legacy, i) > 0 {
        var k := PositionInOrder(s, order, i);
        SourceMakesOffer(s, id, order, u, k);
      }
      if FirstOffer(s, id, order, u) > 0 {
        var k := OfferHasSource(s, id, order, u);
        UniqueInRange(s, id, order[k]);
      }
    } else if u != "" {
      MigrateFinds(s, id, order, u);
    }
  }

  lemma UniqueInRange(s: Environments, id: Identity, i: int)
    ensures UniqueAt(s, id, i) != "" ==> 0 <= i < |s.keys|
  {
  }

  /** Migration and cleanup leave every account's environment as it was, in whatever order the old map is read,
      exactly when the migration is safe. */
  lemma CleanupKeepsLookupIff(s: Environments, id: Identity, order: seq<int>)
    requires IsOrder(s, order)
    ensures (forall i :: 0 <= i < |s.keys| ==> Lookup(Cleanup(s, id, order), id, i) == Lookup(s, id, i))
            <==> MigrationSafe(s, id)
  {
    hide Cleanup, Migrate, TrimSpace, UniqueAt;
    if MigrationSafe(s, id) {
      forall i | 0 <= i < |s.keys| ensures Lookup(Cleanup(s, id, order), id, i) == Lookup(s, id, i) {
        CleanupKeepsOne(s, id, order, i);
      }
    }
    forall i | 0 <= i < |s.keys|
      ensures var u := UniqueAt(s, id, i);
              Lookup(Cleanup(s, id, order), id, i) == if u == "" then 0 else Positive(Migrate(s, id, order), u)
    {
      CleanupLookup(s, id, order, i);
    }
  }

  /** Distinct, non-blank account keys make every migration safe. */
  lemma DistinctAccountsAreSafe(s: Environments, id: Identity)
    requires forall i :: 0 <= i < |s.keys| ==> UniqueAt(s, id, i) != ""
    requires forall i, j :: 0 <= i < j < |s.keys| ==> UniqueAt(s, id, i) != UniqueAt(s, id, j)
    ensures MigrationSafe(s, id)
  {
    hide UniqueAt;
  }

  /** Two accounts behind one account key with different position-keyed environments: whichever is read first wins. */
  lemma TwinsDisagree(s: Environments, id: Identity, order: seq<int>, i: nat, j: nat)
    requires IsOrder(s, order) && i < j < |s.keys| && UniqueAt(s, id, i) == UniqueAt(s, id, j) != ""
    requires Positive(s.byAccount, UniqueAt(s, id, i)) == 0 && Positive(s.legacy, i) != Positive(s.legacy, j)
    ensures exists k :: 0 <= k < |s.keys| && Lookup(Cleanup(s, id, order), id, k) != Lookup(s, id, k)
  {
    hide Cleanup, UniqueAt, Lookup;
    CleanupKeepsLookupIff(s, id, order);
  }

  /** A concrete pair. */
  lemma SharedKeyMigrationChanges(order: seq<int>)
    requires IsOrder(Environments(["a", "b"], map[0 := 5, 1 := 7], map[]), order)
    ensures var s := Environments(["a", "b"], map[0 := 5, 1 := 7], map[]);
            var id: Identity := _ => "shared";
            exists i :: 0 <= i < 2 && Lookup(Cleanup(s, id, order), id, i) != Lookup(s, id, i)
  {
    hide Cleanup, TrimSpace, Lookup;
    var s := Environments(["a", "b"], map[0 := 5, 1 := 7], map[]);
    var id: Identity := _ => "shared";
    assert Trimmed("shared");
    TwinsDisagree(s, id, order, 0, 1);
  }

  /** A second cleanup changes nothing. */
  lemma CleanupIdempotent(s: Environments, id: Identity, order: seq<int>, again: seq<int>)
    requires IsOrder(Cleanup(s, id, order), again)
    ensures Cleanup(Cleanup(s, id, order), id, again) == Cleanup(s, id, order)
  {
    hide TrimSpace, Migrate, IsAccount;
    var clean := Cleanup(s, id, order);
    NonemptyHasElements(again);
    NothingToMigrate(clean, id);
    SameAccounts(s, clean, id);
  }

  lemma NothingToMigrate(s: Environments, id: Identity)
    ensures Migrate(s, id, []) == s.byAccount
  {
  }

  lemma SameAccounts(s: Environments, t: Environments, id: Identity)
    requires s.keys == t.keys
    ensures forall u :: IsAccount(s, id, u) <==> IsAccount(t, id, u)
  {
    hide TrimSpace;
    forall i ensures UniqueAt(s, id, i) == UniqueAt(t, id, i) {
    }
  }

  // ---------------------------------------------------------------- deletion

  /** Deletion migrates, shortens the list and prunes. */
  function Delete(s: Environments, id: Identity, doomed: set<int>, order: seq<int>): Environments {
    var clean := Cleanup(s, id, order);
    Cleanup(clean.(keys := Gather(s.keys, Kept(|s.keys|, doomed))), id, [])
  }

  lemma KeptUnique(s: Environments, id: Identity, kept: seq<int>, j: nat)
    requires Within(kept, |s.keys|) && j < |kept|
    ensures UniqueAt(s.(keys := Gather(s.keys, kept)), id, j) == UniqueAt(s, id, kept[j])
  {
    hide TrimSpace;
  }

  /** Shortening and pruning leave each survivor's environment as the migration left it. */
  lemma SurvivorKeepsMigrated(s: Environments, id: Identity, doomed: set<int>, order: seq<int>, j: nat)
    requires j < |Kept(|s.keys|, doomed)|
    ensures Lookup(Delete(s, id, doomed, order), id, j) == Lookup(Cleanup(s, id, order), id, Kept(|s.keys|, doomed)[j])
  {
    hide TrimSpace, Migrate, Kept, UniqueAt, Prune;
    var clean := Cleanup(s, id, order);
    var kept := Kept(|s.keys|, doomed);
    var short := clean.(keys := Gather(s.keys, kept));
    KeptUnique(clean, id, kept, j);
    NothingToMigrate(short, id);
    CleanupLookup(short, id, [], j);
  }

  /** Deleting accounts leaves every survivor's environment unchanged. */
  lemma DeleteKeepsEnvironments(s: Environments, id: Identity, doomed: set<int>, order: seq<int>, j: nat)
    requires IsOrder(s, order) && MigrationSafe(s, id) && j < |Kept(|s.keys|, doomed)|
    ensures Lookup(Delete(s, id, doomed, order), id, j) == Lookup(s, id, Kept(|s.keys|, doomed)[j])
  {
    hide Lookup, MigrationSafe, Kept, Delete, Cleanup;
    SurvivorKeepsMigrated(s, id, doomed, order, j);
    CleanupKeepsOne(s, id, order, Kept(|s.keys|, doomed)[j]);
  }

  lemma PruneNested(s: Environments, t: Environments, id: Identity, held: map<string, int>)
    requires forall u :: IsAccount(t, id, u) ==> IsAccount(s, id, u)
    ensures Prune(t, id, Prune(s, id, held)) == Prune(t, id, held)
  {
    hide IsAccount, TrimSpace;
  }

  lemma FewerAccounts(s: Environments, t: Environments, id: Identity, kept: seq<int>)
    requires Within(kept, |s.keys|) && t.keys == Gather(s.keys, kept)
    ensures forall u :: IsAccount(t, id, u) ==> IsAccount(s, id, u)
  {
    hide TrimSpace;
    forall u | IsAccount(t, id, u) ensures IsAccount(s, id, u) {
      var j :| 0 <= j < |t.keys| && UniqueAt(t, id, j) == u;
      assert UniqueAt(s, id, kept[j]) == u;
    }
  }

  lemma DeletedEnvironments(s: Environments, id: Identity, doomed: set<int>, order: seq<int>)
    ensures var keys := Gather(s.keys, Kept(|s.keys|, doomed));
            Delete(s, id, doomed, order) ==
            Environments(keys, map[], Prune(Environments(keys, map[], map[]), id, Migrate(s, id, order)))
  {
    hide TrimSpace, Migrate, Kept, IsAccount, Prune;
    var clean := Cleanup(s, id, order);
    var short := clean.(keys := Gather(s.keys, Kept(|s.keys|, doomed)));
    var bare := Environments(short.keys, map[], map[]);
    NothingToMigrate(short, id);
    FewerAccounts(s, short, id, Kept(|s.keys|, doomed));
    PruneNested(s, short, id, Migrate(s, id, order));
    PruneSame(short, bare, id, Migrate(s, id, order));
  }

  lemma PruneSame(s: Environments, t: Environments, id: Identity, held: map<string, int>)
    requires s.keys == t.keys
    ensures Prune(s, id, held) == Prune(t, id, held)
  {
    hide IsAccount, TrimSpace;
    SameAccounts(s, t, id);
  }

  /** Deleting in two batches leaves the environments that deleting both at once leaves. */
  lemma DeleteTwice(s: Environments, id: Identity, doomed: set<int>, batch: set<int>, order: seq<int>)
    requires forall j :: j in batch ==> 0 <= j < |Kept(|s.keys|, doomed)|
    ensures Delete(Delete(s, id, doomed, order), id, batch, []) ==
            Delete(s, id, doomed + Original(Kept(|s.keys|, doomed), batch), order)
  {
    hide TrimSpace, Migrate, Kept, IsAccount, Prune, Delete;
    var first := Kept(|s.keys|, doomed);
    var one := Delete(s, id, doomed, order);
    DeletedEnvironments(s, id, doomed, order);
    DeletedEnvironments(one, id, batch, []);
    DeletedEnvironments(s, id, doomed + Original(first, batch), order);
    KeptTwice(|s.keys|, doomed, batch);
    var second := Kept(|first|, batch);
    assert Gather(one.keys, second) == Gather(s.keys, Gather(first, second));
    NothingToMigrate(one, id);
    var t := Environments(Gather(one.keys, second), map[], map[]);
    var mid := Environments(one.keys, map[], map[]);
    FewerAccounts(mid, t, id, second);
    PruneNested(mid, t, id, Migrate(s, id, order));
  }

  /** After cleanup nothing is keyed by position, and the entries are the positive ones of accounts in the list. */
  lemma CleanupHolds(s: Environments, id: Identity, order: seq<int>, u: string)
    ensures var t := Cleanup(s, id, order);
            && t.keys == s.keys && t.legacy == map[]
            && (u in t.byAccount ==>
                  t.byAccount[u] > 0 && u != "" && exists i :: 0 <= i < |s.keys| && TrimSpace(id(s.keys[i])) == u)
  {
    hide TrimSpace, Migrate;
    var t := Cleanup(s, id, order);
    if u in t.byAccount {
      var i :| 0 <= i < |s.keys| && UniqueAt(s, id, i) == u;
      assert TrimSpace(id(s.keys[i])) == u;
    }
  }

  /** A deleted account is forgotten: if its credential comes back later, it has no environment, unless an account that
      stayed has the same account key. */
  lemma DeletedIsForgotten(s: Environments, id: Identity, doomed: set<int>, order: seq<int>, credential: string)
    requires var t := Delete(s, id, doomed, order);
             forall j :: 0 <= j < |t.keys| ==> UniqueAt(t, id, j) != TrimSpace(id(credential))
    ensures var t := Delete(s, id, doomed, order);
            Lookup(t.(keys := t.keys + [credential]), id, |t.keys|) == 0
  {
    hide TrimSpace, Migrate, Cleanup, Kept;
    var u := TrimSpace(id(credential));
    var short := Cleanup(s, id, order).(keys := Gather(s.keys, Kept(|s.keys|, doomed)));
    CleanupHolds(short, id, [], u);
    var t := Delete(s, id, doomed, order);
    assert t == Cleanup(short, id, []);
    forall i | 0 <= i < |t.keys| ensures TrimSpace(id(t.keys[i])) != u {
      assert UniqueAt(t, id, i) != u;
    }
  }

  // ---------------------------------------------------------------- setting one environment

  /** A positive environment is bound to the account; zero clears it. */
  function Set(s: Environments, id: Identity, i: nat, environment: int, order: seq<int>): Environments {
    var u := UniqueAt(s, id, i);
    if environment > 0 && u == "" then s.(legacy := s.legacy[i := environment])
    else
      var held := if u == "" then s.byAccount
                  else if environment > 0 then s.byAccount[u := environment] else s.byAccount - {u};
      Cleanup(Environments(s.keys, s.legacy - {i}, held), id, order)
  }

  /** What was set is what is looked up. */
  lemma SetThenLookup(s: Environments, id: Identity, i: nat, environment: int, order: seq<int>)
    requires i < |s.keys| && environment > 0
    ensures Lookup(Set(s, id, i, environment, order), id, i) == environment
  {
    hide TrimSpace, Cleanup, Migrate;
    var u := UniqueAt(s, id, i);
    if u != "" {
      var t := Environments(s.keys, s.legacy - {i}, s.byAccount[u := environment]);
      assert UniqueAt(t, id, i) == u;
      CleanupLookup(t, id, order, i);
      MigrateFinds(t, id, order, u);
    }
  }

  /** Accounts under the same account key share what was set. */
  lemma SetReachesTwins(s: Environments, id: Identity, i: nat, j: nat, environment: int, order: seq<int>)
    requires i < |s.keys| && j < |s.keys| && UniqueAt(s, id, i) == UniqueAt(s, id, j) != "" && environment > 0
    ensures Lookup(Set(s, id, i, environment, order), id, j) == environment
  {
    hide TrimSpace, Cleanup, Migrate;
    var u := UniqueAt(s, id, i);
    var t := Environments(s.keys, s.legacy - {i}, s.byAccount[u := environment]);
    UniqueFrame(s, t, id, j);
    CleanupLookup(t, id, order, j);
    MigrateFinds(t, id, order, u);
  }

  /** Setting or clearing one account's environment leaves the environments of all accounts with other account keys,
      if the migration that comes with it is safe. */
  lemma SetKeepsOthers(s: Environments, id: Identity, i: nat, j: nat, environment: int, order: seq<int>)
    requires i < |s.keys| && j < |s.keys| && i != j
             && (UniqueAt(s, id, i) != UniqueAt(s, id, j) || UniqueAt(s, id, j) == "")
    requires MigrationSafe(s, id) && IsOrder(s.(legacy := s.legacy - {i}), order)
    ensures Lookup(Set(s, id, i, environment, order), id, j) == Lookup(s, id, j)
  {
    hide TrimSpace, Cleanup, Migrate, UniqueAt, FirstOffer;
    var u, v := UniqueAt(s, id, i), UniqueAt(s, id, j);
    if environment > 0 && u == "" {
      UniqueFrame(s, s.(legacy := s.legacy[i := environment]), id, j);
    } else {
      var held := if u == "" then s.byAccount
                  else if environment > 0 then s.byAccount[u := environment] else s.byAccount - {u};
      var t := Environments(s.keys, s.legacy - {i}, held);
      forall k ensures UniqueAt(t, id, k) == UniqueAt(s, id, k) {
        UniqueFrame(s, t, id, k);
      }
      OrderFrame(s.(legacy := s.legacy - {i}), t, order);
      CleanupLookup(t, id, order, j);
      if v != "" {
        MigrateFinds(t, id, order, v);
        assert Positive(t.byAccount, v) == Positive(s.byAccount, v);
        OfferIsOwn(s, t, id, order, i, j);
      }
    }
  }

  /** Without an entry under its key, an account is offered its own old environment, wherever the offer comes from. */
  lemma OfferIsOwn(s: Environments, t: Environments, id: Identity, order: seq<int>, i: nat, j: nat)
    requires MigrationSafe(s, id) && t.keys == s.keys && t.legacy == s.legacy - {i} && IsOrder(t, order)
    requires i < |s.keys| && j < |s.keys| && UniqueAt(s, id, j) != "" && UniqueAt(s, id, i) != UniqueAt(s, id, j)
    ensures Positive(s.byAccount, UniqueAt(s, id, j)) == 0 ==>
            FirstOffer(t, id, order, UniqueAt(s, id, j)) == Positive(s.legacy, j)
  {
    hide TrimSpace, UniqueAt, FirstOffer;
    var v := UniqueAt(s, id, j);
    forall k ensures UniqueAt(t, id, k) == UniqueAt(s, id, k) {
      UniqueFrame(s, t, id, k);
    }
    if Positive(s.byAccount, v) == 0 {
      if Positive(t.legacy, j) > 0 {
        var k := PositionInOrder(t, order, j);
        SourceMakesOffer(t, id, order, v, k);
      }
      if FirstOffer(t, id, order, v) > 0 {
        var k := OfferHasSource(t, id, order, v);
        UniqueInRange(t, id, order[k]);
      }
    }
  }

  ghost predicate InheritsFromTwin(s: Environments, id: Identity, i: nat) {
    exists j :: 0 <= j < |s.keys| && j != i && UniqueAt(s, id, j) == UniqueAt(s, id, i) != ""
                && Positive(s.legacy, j) > 0
  }

  /** Clearing an environment takes effect unless another account under the same account key still has an old
      position-keyed one, which the migration then hands to both. */
  lemma ClearTakesEffectIff(s: Environments, id: Identity, i: nat, order: seq<int>)
    requires i < |s.keys|
    requires IsOrder(s.(legacy := s.legacy - {i}), order)
    ensures Lookup(Set(s, id, i, 0, order), id, i) == 0 <==> !InheritsFromTwin(s, id, i)
  {
    hide TrimSpace, Cleanup, Migrate;
    var u := UniqueAt(s, id, i);
    var t := Environments(s.keys, s.legacy - {i}, if u == "" then s.byAccount else s.byAccount - {u});
    forall k ensures UniqueAt(t, id, k) == UniqueAt(s, id, k) { }
    CleanupLookup(t, id, order, i);
    if u != "" {
      MigrateFinds(t, id, order, u);
      if InheritsFromTwin(s, id, i) {
        var j :| 0 <= j < |s.keys| && j != i && UniqueAt(s, id, j) == u && Positive(s.legacy, j) > 0;
        var k := PositionInOrder(t, order, j);
        SourceMakesOffer(t, id, order, u, k);
      }
      if FirstOffer(t, id, order, u) > 0 {
        var k := OfferHasSource(t, id, order, u);
        UniqueInRange(t, id, order[k]);
      }
    }
  }

  // ---------------------------------------------------------------- the record

  method AccountKeys(s: Environments, id: Identity) returns (valid: set<string>)
    ensures forall u :: u in valid <==> IsAccount(s, id, u)
  {
    hide UniqueAt;
    valid := {};
    for i := 0 to |s.keys|
      invariant forall u :: u in valid <==> u != "" && exists k :: 0 <= k < i && UniqueAt(s, id, k) == u
    {
      var u := UniqueAt(s, id, i);
      if u != "" {
        valid := valid + {u};
      }
    }
  }

  /** Erases, entry by entry, what is blank, not positive or no longer an account. */
  method PruneEach(s: Environments, id: Identity, held: map<string, int>) returns (r: map<string, int>)
    ensures r == Prune(s, id, held)
  {
    hide TrimSpace, IsAccount;
    var valid := AccountKeys(s, id);
    r := held;
    var todo := held.Keys;
    while todo != {}
      invariant todo <= held.Keys
      invariant r == map u | u in held && (u in todo || (TrimSpace(u) != "" && held[u] > 0 && IsAccount(s, id, u)))
                    :: held[u]
      decreases todo
    {
      var u := Pick(todo);
      if TrimSpace(u) == "" || held[u] <= 0 || u !in valid {
        r := r - {u};
      }
      todo := todo - {u};
    }
  }

  class Mappings {
    var keys: seq<string>
    var legacy: map<int, int>
    var byAccount: map<string, int>
    const id: Identity

    function State(): Environments
      reads this
    {
      Environments(keys, legacy, byAccount)
    }

    constructor (s: Environments, id: Identity)
      ensures State() == s && this.id == id
    {
      keys, legacy, byAccount := s.keys, s.legacy, s.byAccount;
      this.id := id;
    }

    method CleanUp() returns (ghost order: seq<int>)
      modifies this`legacy, this`byAccount
      ensures IsOrder(old(State()), order) && State() == Cleanup(old(State()), id, order)
    {
      hide UniqueAt, Prune;
      var some := SomeOrder(legacy.Keys);
      order := some;
      for k := 0 to |some|
        invariant legacy == old(legacy) && byAccount == Migrate(old(State()), id, some[..k])
      {
        assert some[..k + 1][..k] == some[..k];
        var i := some[k];
        var u := UniqueAt(State(), id, i);
        UniqueFrame(old(State()), State(), id, i);
        if u != "" && Positive(legacy, i) > 0 {
          if Positive(byAccount, u) <= 0 {
            byAccount := byAccount[u := legacy[i]];
          }
        }
      }
      assert some[..|some|] == some;
      legacy := map[];
      PruneSame(old(State()), State(), id, byAccount);
      byAccount := PruneEach(State(), id, byAccount);
    }

    method SetEnvironment(i: nat, environment: int) returns (ghost order: seq<int>)
      modifies this
      ensures State() == Set(old(State()), id, i, environment, order)
      ensures environment <= 0 || UniqueAt(old(State()), id, i) != "" ==>
              IsOrder(old(State()).(legacy := old(legacy) - {i}), order)
    {
      hide UniqueAt, Cleanup, IsOrder;
      order := [];
      var u := UniqueAt(State(), id, i);
      if environment > 0 && u == "" {
        legacy := legacy[i := environment];
        return;
      }
      if u != "" {
        if environment > 0 {
          byAccount := byAccount[u := environment];
        } else {
          byAccount := byAccount - {u};
        }
      }
      legacy := legacy - {i};
      ghost var before := State();
      order := CleanUp();
      OrderFrame(before, old(State()).(legacy := before.legacy), order);
    }

    method DeleteAccounts(doomed: set<int>) returns (ghost order: seq<int>)
      modifies this
      ensures IsOrder(old(State()), order)
      ensures State() == Delete(old(State()), id, doomed, order)
    {
      hide Kept, Prune, Migrate;
      order := CleanUp();
      keys := Gather(keys, Kept(|keys|, doomed));
      ghost var none := CleanUp();
      NonemptyHasElements(none);
    }
  }

  lemma UniqueFrame(s: Environments, t: Environments, id: Identity, i: int)
    requires s.keys == t.keys
    ensures UniqueAt(s, id, i) == UniqueAt(t, id, i)
  {
  }

  lemma OrderFrame(s: Environments, t: Environments, order: seq<int>)
    requires s.legacy == t.legacy && IsOrder(s, order)
    ensures IsOrder(t, order)
  {
  }
}
