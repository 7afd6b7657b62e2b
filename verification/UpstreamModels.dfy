/** Reconciling a channel's model list with the models its upstream offers: detection of pending additions and
    removals, and the ledger that applies, ignores or keeps them. */
module UpstreamModels {
  import opened Text
  import opened Seqs
  import opened ListText

  // ---------------------------------------------------------------- ordered sets of model names

  function Names(s: seq<string>): set<string> {
    set x | x in s
  }

  /** Trimmed, not blank and without repetition. */
  predicate Normal(s: seq<string>) {
    Distinct(s) && forall k :: 0 <= k < |s| ==> Canonical(s[k])
  }

  function TrimNonBlank(models: seq<string>): (r: seq<string>)
    ensures forall k :: 0 <= k < |r| ==> Canonical(r[k])
  {
    if models == [] then [] else
      var r := TrimNonBlank(models[..|models| - 1]);
      var x := TrimSpace(models[|models| - 1]);
      if x == "" then r else r + [x]
  }

  function Normalize(models: seq<string>): (r: seq<string>)
    ensures Normal(r)
    ensures Normal(models) ==> r == models
  {
    var trimmed := TrimNonBlank(models);
    var r := Dedup(trimmed);
    assert forall k :: 0 <= k < |r| ==> r[k] in trimmed;
    assert Normal(models) ==> r == models by {
      if Normal(models) { TrimmedAlready(models); }
    }
    r
  }

  lemma {:induction false} TrimmedAlready(models: seq<string>)
    requires forall k :: 0 <= k < |models| ==> Canonical(models[k])
    ensures TrimNonBlank(models) == models
  {
    hide TrimSpace;
    if models != [] {
      TrimmedAlready(models[..|models| - 1]);
      assert Canonical(models[|models| - 1]);
    }
  }

  /** Normalising keeps exactly the names that are not blank, trimmed. */
  lemma NormalizeKeeps(models: seq<string>, x: string)
    ensures x in Normalize(models) <==> x != "" && exists k :: 0 <= k < |models| && TrimSpace(models[k]) == x
  {
    hide TrimSpace, Dedup;
    TrimmedNames(models, x);
  }

  lemma {:induction false} TrimmedNames(models: seq<string>, x: string)
    ensures x in TrimNonBlank(models) <==> x != "" && exists k :: 0 <= k < |models| && TrimSpace(models[k]) == x
  {
    hide TrimSpace;
    if models != [] {
      var last := |models| - 1;
      TrimmedNames(models[..last], x);
      assert models == models[..last] + [models[last]];
      if k :| 0 <= k < |models| && TrimSpace(models[k]) == x && k < last {
        assert models[..last][k] == models[k];
      }
    }
  }

  /** Names come in the order of their first occurrence. */
  lemma NormalizePrefix(models: seq<string>, k: nat)
    requires k <= |models|
    ensures Normalize(models[..k]) <= Normalize(models)
  {
    hide TrimSpace, Dedup;
    TrimmedPrefix(models, k);
    var all, part := TrimNonBlank(models), TrimNonBlank(models[..k]);
    DedupPrefix(all, |part|);
    assert all[..|part|] == part;
  }

  lemma {:induction false} TrimmedPrefix(models: seq<string>, k: nat)
    requires k <= |models|
    ensures TrimNonBlank(models[..k]) <= TrimNonBlank(models)
  {
    hide TrimSpace;
    if k == |models| {
      assert models[..k] == models;
    } else {
      TrimmedPrefix(models[..|models| - 1], k);
      assert models[..|models| - 1][..k] == models[..k];
    }
  }

  /** Base first, then what is new. */
  function Merge(base: seq<string>, appended: seq<string>): (r: seq<string>)
    ensures Normal(r) && Names(r) == Names(Normalize(base)) + Names(Normalize(appended))
  {
    var b, a := Normalize(base), Normalize(appended);
    MergeNormal(b, a);
    b + Without(a, Names(b))
  }

  function Subtract(base: seq<string>, removed: seq<string>): (r: seq<string>)
    ensures Normal(r) && Names(r) == Names(Normalize(base)) - Names(Normalize(removed))
  {
    WithoutNormal(Normalize(base), Names(Normalize(removed)));
    Without(Normalize(base), Names(Normalize(removed)))
  }

  function Intersect(base: seq<string>, allowed: seq<string>): (r: seq<string>)
    ensures Normal(r) && Names(r) == Names(Normalize(base)) * Names(Normalize(allowed))
  {
    var b := Normalize(base);
    WithoutNormal(b, Names(b) - Names(Normalize(allowed)));
    Without(b, Names(b) - Names(Normalize(allowed)))
  }

  lemma WithoutNormal(s: seq<string>, drop: set<string>)
    requires Normal(s)
    ensures Normal(Without(s, drop)) && Names(Without(s, drop)) == Names(s) - drop
  {
    var r := Without(s, drop);
    assert forall k :: 0 <= k < |r| ==> r[k] in s;
  }

  lemma MergeNormal(b: seq<string>, a: seq<string>)
    requires Normal(b) && Normal(a)
    ensures Normal(b + Without(a, Names(b))) && Names(b + Without(a, Names(b))) == Names(b) + Names(a)
  {
    var w := Without(a, Names(b));
    WithoutNormal(a, Names(b));
    var r := b + w;
    forall i, j | 0 <= i < j < |r| ensures r[i] != r[j] {
      if i < |b| <= j {
        assert w[j - |b|] in w;
        assert b[i] in Names(b);
      }
    }
  }

  /** A selected addition wins over a selected removal. */
  function ApplySelected(origin: seq<string>, add: seq<string>, remove: seq<string>): (r: seq<string>)
    ensures Normal(r)
    ensures Names(r) == (Names(Normalize(origin)) + Names(Normalize(add)))
            - (Names(Normalize(remove)) - Names(Normalize(add)))
  {
    var adding := Normalize(add);
    var removing := Subtract(Normalize(remove), adding);
    Subtract(Merge(origin, adding), removing)
  }

  // ---------------------------------------------------------------- detection

  /** The model redirections, sources to targets, and the regular expression engine. */
  datatype Rules = Rules(mapping: map<string, string>, matches: (string, string) -> bool)

  predicate IgnoresName(entry: string, rules: Rules, name: string) {
    if "regex:" <= entry then rules.matches(TrimSpace(entry[6..]), name) else entry == name
  }

  predicate Ignored(entries: set<string>, rules: Rules, name: string) {
    exists e :: e in entries && IgnoresName(e, rules, name)
  }

  function IgnoredNames(names: seq<string>, entries: set<string>, rules: Rules): set<string> {
    set x | x in names && Ignored(entries, rules, x)
  }

  /** Upstream models the channel neither lists, redirects to nor ignores. */
  function PendingAdd(local: seq<string>, upstream: seq<string>, ignored: seq<string>, rules: Rules): (r: seq<string>)
    ensures Normal(r)
  {
    var up := Normalize(upstream);
    var covered := Names(Normalize(local)) + rules.mapping.Values + IgnoredNames(up, Names(Normalize(ignored)), rules);
    WithoutNormal(up, covered);
    Without(up, covered)
  }

  /** Listed models upstream no longer offers, but for the sources of redirections. */
  function PendingRemove(local: seq<string>, upstream: seq<string>, rules: Rules): (r: seq<string>)
    ensures Normal(r)
  {
    var kept := rules.mapping.Keys + Names(Normalize(upstream));
    WithoutNormal(Normalize(local), kept);
    Without(Normalize(local), kept)
  }

  lemma PendingNames(local: seq<string>, upstream: seq<string>, ignored: seq<string>, rules: Rules)
    ensures var up := Normalize(upstream);
            Names(PendingAdd(local, upstream, ignored, rules)) ==
            Names(up) - Names(Normalize(local)) - rules.mapping.Values
            - IgnoredNames(up, Names(Normalize(ignored)), rules)
    ensures Names(PendingRemove(local, upstream, rules)) ==
            Names(Normalize(local)) - rules.mapping.Keys - Names(Normalize(upstream))
  {
    hide Normalize, IgnoredNames;
    var up := Normalize(upstream);
    WithoutNormal(up, Names(Normalize(local)) + rules.mapping.Values
                      + IgnoredNames(up, Names(Normalize(ignored)), rules));
    WithoutNormal(Normalize(local), rules.mapping.Keys + Names(up));
  }

  /** No model is pending both ways. */
  lemma PendingDisjoint(local: seq<string>, upstream: seq<string>, ignored: seq<string>, rules: Rules)
    ensures Names(PendingAdd(local, upstream, ignored, rules)) !! Names(PendingRemove(local, upstream, rules))
  {
    hide Normalize, PendingAdd, PendingRemove, IgnoredNames;
    PendingNames(local, upstream, ignored, rules);
  }

  // ---------------------------------------------------------------- the ledger

  datatype Ledger = Ledger(models: seq<string>, detected: seq<string>, removed: seq<string>,
    ignored: seq<string>, checked: int)

  datatype Applied = Applied(ledger: Ledger, added: seq<string>, dropped: seq<string>, changed: bool)

  function Apply(l: Ledger, add: seq<string>, ignore: seq<string>, remove: seq<string>, now: int): Applied {
    var pendingAdd, pendingRemove := Normalize(l.detected), Normalize(l.removed);
    var adding := Intersect(add, pendingAdd);
    var ignoring := Intersect(ignore, pendingAdd);
    var removing := Subtract(Intersect(remove, pendingRemove), adding);
    var origin := Normalize(l.models);
    var next := ApplySelected(origin, adding, removing);
    var merged := Merge(l.ignored, ignoring);
    Applied(
      Ledger(if origin != next then next else l.models,
             Subtract(pendingAdd, adding + ignoring),
             Subtract(pendingRemove, removing),
             if |adding| > 0 then Subtract(merged, adding) else merged,
             now),
      adding, removing, origin != next)
  }

  /** The ledger is exact, whatever the administrator selects. */
  lemma ApplyIsExact(l: Ledger, add: seq<string>, ignore: seq<string>, remove: seq<string>, now: int)
    ensures var r := Apply(l, add, ignore, remove, now);
            var pendingAdd, pendingRemove := Names(Normalize(l.detected)), Names(Normalize(l.removed));
            var ignoring := Names(Normalize(ignore)) * pendingAdd;
            // selections outside the pending lists have no effect
            && Names(r.added) == Names(Normalize(add)) * pendingAdd
            && Names(r.dropped) == Names(Normalize(remove)) * pendingRemove - Names(r.added)
            // the models become what was listed, with the additions and without the removals
            && Names(Normalize(r.ledger.models)) == Names(Normalize(l.models)) + Names(r.added) - Names(r.dropped)
            && (r.changed ==> Normal(r.ledger.models)) && (!r.changed ==> r.ledger.models == l.models)
            // every pending addition is added, ignored or still pending, and every removal removed or still pending
            && pendingAdd == Names(r.added) + ignoring + Names(r.ledger.detected)
            && Names(r.ledger.detected) !! Names(r.added) && Names(r.ledger.detected) !! ignoring
            && pendingRemove == Names(r.dropped) + Names(r.ledger.removed)
               && Names(r.dropped) !! Names(r.ledger.removed)
            // what is added is not ignored any more, even if it was selected for both
            && Names(Normalize(r.ledger.ignored)) == Names(Normalize(l.ignored)) + ignoring - Names(r.added)
  {
    hide Names, Normalize, Dedup, Without, Normal;
    var pendingAdd := Normalize(l.detected);
    var adding := Intersect(add, pendingAdd);
    var ignoring := Intersect(ignore, pendingAdd);
    NormalizeTwice(l.detected);
    NormalizeTwice(l.removed);
    NormalizeTwice(l.models);
    NormalStays(adding);
    NormalStays(ignoring);
    ConcatNames(adding, ignoring);
    EmptyNames(adding);
    var r := Apply(l, add, ignore, remove, now);
    NormalStays(r.dropped);
    NormalStays(ApplySelected(Normalize(l.models), adding, r.dropped));
    NormalStays(Intersect(remove, Normalize(l.removed)));
    NormalStays(Merge(l.ignored, ignoring));
    NormalStays(r.ledger.ignored);
  }

  lemma NormalStays(s: seq<string>)
    requires Normal(s)
    ensures Normalize(s) == s
  {
  }

  lemma NormalizeTwice(s: seq<string>)
    ensures Normalize(Normalize(s)) == Normalize(s)
  {
  }

  lemma EmptyNames(s: seq<string>)
    ensures |s| == 0 ==> Names(s) == {}
  {
  }

  /** Normalising a concatenation of normal lists keeps exactly their names. */
  lemma ConcatNames(a: seq<string>, b: seq<string>)
    requires Normal(a) && Normal(b)
    ensures Names(Normalize(a + b)) == Names(a) + Names(b)
  {
    var ab := a + b;
    assert forall k :: 0 <= k < |ab| ==> Canonical(ab[k]);
    TrimmedAlready(ab);
  }

  // ---------------------------------------------------------------- order

  lemma WithoutConcat(a: seq<string>, b: seq<string>, drop: set<string>)
    ensures Without(a + b, drop) == Without(a, drop) + Without(b, drop)
  {
    WithoutJoined(a, b, |b|, drop);
    assert b[..|b|] == b;
  }

  lemma {:induction false} WithoutJoined(a: seq<string>, b: seq<string>, k: nat, drop: set<string>)
    requires k <= |b|
    ensures Without(a + b[..k], drop) == Without(a, drop) + Without(b[..k], drop)
  {
    hide Without, Distinct;
    if k == 0 {
      assert a + b[..0] == a;
      WithoutEmpty(drop);
    } else {
      WithoutJoined(a, b, k - 1, drop);
      WithoutMore(b[..k - 1], b[k - 1], drop);
      WithoutMore(a + b[..k - 1], b[k - 1], drop);
      assert b[..k] == b[..k - 1] + [b[k - 1]];
      assert a + b[..k] == a + b[..k - 1] + [b[k - 1]];
    }
  }

  lemma WithoutMore(s: seq<string>, x: string, drop: set<string>)
    ensures Without(s + [x], drop) == Without(s, drop) + if x in drop then [] else [x]
  {
    assert (s + [x])[..|s|] == s;
  }

  lemma {:induction false} WithoutNone(s: seq<string>, drop: set<string>)
    requires Names(s) !! drop
    ensures Without(s, drop) == s
  {
    hide Without;
    if s == [] {
      WithoutEmpty(drop);
    } else {
      var last := |s| - 1;
      assert forall x :: x in s[..last] ==> x in Names(s);
      assert s[last] in Names(s);
      WithoutNone(s[..last], drop);
      WithoutSnoc(s, last, drop);
      assert s[..last + 1] == s && s == s[..last] + [s[last]];
    }
  }

  /** The models that stay keep their order, and the new ones follow in the order they were selected. */
  lemma ApplyKeepsOrder(l: Ledger, add: seq<string>, ignore: seq<string>, remove: seq<string>, now: int)
    ensures var r := Apply(l, add, ignore, remove, now);
            var origin := Normalize(l.models);
            r.changed ==>
              r.ledger.models == Without(origin, Names(r.dropped)) + Without(r.added, Names(origin))
  {
    hide Names, Normalize, Dedup, Without, Normal;
    var r := Apply(l, add, ignore, remove, now);
    var origin := Normalize(l.models);
    var extra := Without(r.added, Names(origin));
    ApplyIsExact(l, add, ignore, remove, now);
    NormalizeTwice(l.models);
    NormalizeTwice(l.removed);
    NormalStays(r.added);
    NormalStays(r.dropped);
    MergeNormal(origin, r.added);
    NormalStays(origin + extra);
    WithoutNormal(r.added, Names(origin));
    assert Names(r.dropped) - Names(r.added) == Names(r.dropped);
    NamesDetermine(r.dropped, r.added);
    WithoutConcat(origin, extra, Names(r.dropped));
    WithoutNone(extra, Names(r.dropped));
  }

  /** The models count as changed exactly when an addition was not listed or a removal was. */
  lemma ApplyChangesIff(l: Ledger, add: seq<string>, ignore: seq<string>, remove: seq<string>, now: int)
    ensures var r := Apply(l, add, ignore, remove, now);
            var listed := Names(Normalize(l.models));
            && r.ledger.checked == now
            && (r.changed <==> !(Names(r.added) <= listed) || !(listed !! Names(r.dropped)))
  {
    hide Normalize, Names, Without, Intersect, Subtract, Merge, ApplySelected;
    var r := Apply(l, add, ignore, remove, now);
    var origin := Normalize(l.models);
    ApplyIsExact(l, add, ignore, remove, now);
    NormalizeTwice(l.models);
    if r.changed {
      ApplyKeepsOrder(l, add, ignore, remove, now);
      if Names(r.added) <= Names(origin) && Names(origin) !! Names(r.dropped) {
        WithoutNone(origin, Names(r.dropped));
        WithoutAll(r.added, Names(origin));
        ChangedIsNew(l, add, ignore, remove, now);
      }
    }
  }

  lemma {:induction false} WithoutAll(s: seq<string>, drop: set<string>)
    requires Names(s) <= drop
    ensures Without(s, drop) == []
  {
    hide Without;
    if s == [] {
      WithoutEmpty(drop);
    } else {
      var last := |s| - 1;
      assert forall x :: x in s[..last] ==> x in Names(s);
      assert s[last] in Names(s);
      WithoutAll(s[..last], drop);
      WithoutSnoc(s, last, drop);
      assert s[..last + 1] == s;
    }
  }

  lemma ChangedIsNew(l: Ledger, add: seq<string>, ignore: seq<string>, remove: seq<string>, now: int)
    ensures var r := Apply(l, add, ignore, remove, now); r.changed ==> r.ledger.models != Normalize(l.models)
  {
    hide Normalize, Names, Without, Intersect, Subtract, Merge, ApplySelected;
  }

  /** Subtracting a disjoint list changes nothing. */
  lemma NamesDetermine(s: seq<string>, t: seq<string>)
    requires Normal(s) && Normal(t) && Names(s) !! Names(t)
    ensures Subtract(s, t) == s
  {
    hide Dedup, TrimNonBlank;
    WithoutNone(s, Names(t));
  }

  // ---------------------------------------------------------------- convergence

  function Detect(l: Ledger, upstream: seq<string>, rules: Rules, now: int): Ledger {
    l.(detected := PendingAdd(l.models, upstream, l.ignored, rules),
       removed := PendingRemove(l.models, upstream, rules),
       checked := now)
  }

  /** Every pending addition and removal is selected. */
  function ApplyAll(l: Ledger, now: int): Ledger {
    Apply(l, l.detected, [], l.removed, now).ledger
  }

  /** Check, apply everything that is pending, and check again against the same upstream list. */
  function Recheck(l: Ledger, upstream: seq<string>, rules: Rules, t1: int, t2: int, t3: int): Ledger {
    Check(ApplyAll(Check(l, Some(upstream), rules, false, t1), t2), Some(upstream), rules, false, t3)
  }

  lemma CheckDetects(l: Ledger, upstream: seq<string>, rules: Rules, now: int)
    ensures Check(l, Some(upstream), rules, false, now) == Detect(l, upstream, rules, now)
  {
  }

  /** An upstream model that an ignore entry hides stays hidden when the pending additions leave the ignore list. */
  ghost predicate StaysIgnored(l: Ledger, upstream: seq<string>, rules: Rules) {
    var add := Names(PendingAdd(l.models, upstream, l.ignored, rules));
    var entries := Names(Normalize(l.ignored));
    forall u :: (u in Normalize(upstream) && u !in Names(Normalize(l.models)) && u !in rules.mapping.Values
                 && Ignored(entries, rules, u)) ==> Ignored(entries - add, rules, u)
  }

  lemma NoNames(s: seq<string>)
    ensures Names(s) == {} <==> s == []
  {
    if s != [] {
      assert s[0] in Names(s);
    }
  }

  lemma AppliedNames(l: Ledger, upstream: seq<string>, rules: Rules, t1: int, t2: int)
    ensures var a := ApplyAll(Detect(l, upstream, rules, t1), t2);
            var add := Names(PendingAdd(l.models, upstream, l.ignored, rules));
            && Names(Normalize(a.models)) ==
                 Names(Normalize(l.models)) + add - Names(PendingRemove(l.models, upstream, rules))
            && Names(Normalize(a.ignored)) == Names(Normalize(l.ignored)) - add
  {
    hide Names, Normalize, Apply, PendingAdd, PendingRemove;
    var d := Detect(l, upstream, rules, t1);
    ApplyIsExact(d, d.detected, [], d.removed, t2);
    PendingDisjoint(l.models, upstream, l.ignored, rules);
    NormalStays(d.detected);
    NormalStays(d.removed);
    NothingNormal();
  }

  lemma NothingNormal()
    ensures Names(Normalize([])) == {}
  {
  }

  /** Detecting, applying everything and detecting again against the same upstream list leaves nothing to remove,
      and nothing to add exactly when the ignored models stay ignored. */
  lemma ConvergesIff(l: Ledger, upstream: seq<string>, rules: Rules, t1: int, t2: int, t3: int)
    ensures var d := Recheck(l, upstream, rules, t1, t2, t3);
            d.removed == [] && (d.detected == [] <==> StaysIgnored(l, upstream, rules))
  {
    CheckDetects(l, upstream, rules, t1);
    CheckDetects(ApplyAll(Detect(l, upstream, rules, t1), t2), upstream, rules, t3);
    hide Check, Normalize, ApplyAll, PendingAdd, PendingRemove, IgnoresName;
    var a := ApplyAll(Detect(l, upstream, rules, t1), t2);
    var d := Detect(a, upstream, rules, t3);
    AppliedNames(l, upstream, rules, t1, t2);
    PendingNames(l.models, upstream, l.ignored, rules);
    PendingNames(a.models, upstream, a.ignored, rules);
    NoNames(d.removed);
    NoNames(d.detected);
    ConvergesCore(l, a, upstream, rules);
    hide Names, IgnoredNames, Ignored;
  }

  lemma ConvergesCore(l: Ledger, a: Ledger, upstream: seq<string>, rules: Rules)
    requires var add := Names(PendingAdd(l.models, upstream, l.ignored, rules));
             && Names(Normalize(a.models)) ==
                  Names(Normalize(l.models)) + add - Names(PendingRemove(l.models, upstream, rules))
             && Names(Normalize(a.ignored)) == Names(Normalize(l.ignored)) - add
    ensures Names(PendingRemove(a.models, upstream, rules)) == {}
    ensures Names(PendingAdd(a.models, upstream, a.ignored, rules)) == {} <==> StaysIgnored(l, upstream, rules)
  {
    hide Normalize, PendingAdd, PendingRemove, IgnoresName;
    PendingNames(l.models, upstream, l.ignored, rules);
    PendingNames(a.models, upstream, a.ignored, rules);
    var up := Names(Normalize(upstream));
    var pending := Names(PendingAdd(a.models, upstream, a.ignored, rules));
    forall u | u in up
      ensures u in pending <==>
              u !in Names(Normalize(l.models)) && u !in rules.mapping.Values
              && Ignored(Names(Normalize(l.ignored)), rules, u) && !Ignored(Names(Normalize(a.ignored)), rules, u)
    {
    }
  }

  /** Without upstream names that read as regular expressions, reconciliation always converges. */
  lemma Converges(l: Ledger, upstream: seq<string>, rules: Rules, t1: int, t2: int, t3: int)
    requires forall u :: u in Normalize(upstream) ==> !("regex:" <= u)
    ensures var d := Recheck(l, upstream, rules, t1, t2, t3);
            d.removed == [] && d.detected == []
  {
    hide Normalize, ApplyAll, PendingAdd, PendingRemove, Detect;
    ConvergesIff(l, upstream, rules, t1, t2, t3);
    PendingNames(l.models, upstream, l.ignored, rules);
    var add := Names(PendingAdd(l.models, upstream, l.ignored, rules));
    var entries := Names(Normalize(l.ignored));
    forall u | u in Normalize(upstream) && Ignored(entries, rules, u) ensures Ignored(entries - add, rules, u) {
      var e :| e in entries && IgnoresName(e, rules, u);
      assert e !in add by {
        if e in Normalize(upstream) {
          assert IgnoresName(e, rules, e);
        }
      }
    }
  }

  /** An upstream model whose name is itself a regular-expression entry of the ignore list, and that the expression
      does not match: adding it drops the entry, and what the entry hid turns up. */
  lemma RegexNamedModel(entry: string, hidden: string, rules: Rules, t1: int, t2: int, t3: int)
    requires "regex:" <= entry && Canonical(entry) && Canonical(hidden) && entry != hidden && rules.mapping == map[]
    requires rules.matches(TrimSpace(entry[6..]), hidden) && !rules.matches(TrimSpace(entry[6..]), entry)
    ensures var l := Ledger([], [], [], [entry], 0);
            Recheck(l, [entry, hidden], rules, t1, t2, t3).detected != []
  {
    hide Detect, ApplyAll, TrimSpace;
    assert IgnoresName(entry, rules, hidden) && !IgnoresName(entry, rules, entry);
    HiddenTurnsUp(entry, hidden, rules, t1, t2, t3);
  }

  lemma HiddenTurnsUp(entry: string, hidden: string, rules: Rules, t1: int, t2: int, t3: int)
    requires Canonical(entry) && Canonical(hidden) && entry != hidden && rules.mapping == map[]
    requires IgnoresName(entry, rules, hidden) && !IgnoresName(entry, rules, entry)
    ensures var l := Ledger([], [], [], [entry], 0);
            Recheck(l, [entry, hidden], rules, t1, t2, t3).detected != []
  {
    hide ApplyAll, PendingAdd, PendingRemove, IgnoresName, Normalize;
    var l := Ledger([], [], [], [entry], 0);
    var upstream := [entry, hidden];
    NormalStays(upstream);
    NormalStays(l.ignored);
    NormalStays(l.models);
    ConvergesIff(l, upstream, rules, t1, t2, t3);
    PendingNames(l.models, upstream, l.ignored, rules);
    assert Names(l.ignored) == {entry} && Names(l.models) == {};
    assert upstream[0] == entry && upstream[1] == hidden;
    assert entry in Names(PendingAdd(l.models, upstream, l.ignored, rules));
    assert Ignored({entry}, rules, hidden) && !Ignored({}, rules, hidden);
  }

  /** A concrete case. */
  lemma RegexNamedModelDoesNotConverge()
    ensures var l := Ledger([], [], [], ["regex:^a$"], 0);
            var rules := Rules(map[], (p: string, name: string) => p == "^a$" && name == "a");
            Recheck(l, ["regex:^a$", "a"], rules, 1, 2, 3).detected != []
  {
    hide Detect, ApplyAll, TrimSpace;
    var rules := Rules(map[], (p: string, name: string) => p == "^a$" && name == "a");
    var entry := "regex:^a$";
    assert entry[6..] == "^a$" && Trimmed("^a$");
    assert |entry| != |"a"|;
    RegexNamedModel(entry, "a", rules, 1, 2, 3);
  }

  // ---------------------------------------------------------------- automatic synchronisation

  /** A check that may add what it finds; `offered` is the upstream list, if it could be fetched. */
  function Check(l: Ledger, offered: Option<seq<string>>, rules: Rules, auto: bool, now: int): Ledger {
    if offered.None? then l.(checked := now) else
      var d := Detect(l, offered.value, rules, now);
      if auto && |d.detected| > 0 then
        var merged := Merge(Normalize(l.models), d.detected);
        d.(models := if |merged| > |Normalize(l.models)| then merged else l.models, detected := [])
      else d
  }

  lemma MergedLonger(origin: seq<string>, add: seq<string>)
    requires Normal(origin) && Normal(add) && add != [] && Names(origin) !! Names(add)
    ensures |Merge(origin, add)| > |origin|
  {
    hide TrimNonBlank, Dedup;
    NormalStays(origin);
    NormalStays(add);
    WithoutNone(add, Names(origin));
  }

  /** A check records what the upstream offers that the channel neither lists, redirects to nor ignores, and what the
      channel lists that is neither offered nor the source of a redirection. With automatic synchronisation the first
      go straight to the end of the models. A failed fetch records only its time. */
  lemma CheckIsExact(l: Ledger, offered: Option<seq<string>>, rules: Rules, auto: bool, now: int)
    ensures var c := Check(l, offered, rules, auto, now);
            && c.checked == now && c.ignored == l.ignored
            && (offered.None? ==> c.models == l.models && c.detected == l.detected && c.removed == l.removed)
            && (offered.Some? ==>
                  var up, listed := Normalize(offered.value), Names(Normalize(l.models));
                  var fresh' := Names(up) - listed - rules.mapping.Values
                                - IgnoredNames(up, Names(Normalize(l.ignored)), rules);
                  && Normal(c.detected) && Normal(c.removed)
                  && Names(c.removed) == listed - rules.mapping.Keys - Names(up)
                  && (!auto ==> c.models == l.models && Names(c.detected) == fresh')
                  && (auto ==>
                        && c.detected == []
                        && Names(Normalize(c.models)) == listed + fresh'
                        && (if fresh' == {} then c.models == l.models else Normalize(l.models) <= c.models)))
  {
    hide Normalize, PendingAdd, PendingRemove, IgnoredNames, Normal;
    if offered.Some? {
      var add := PendingAdd(l.models, offered.value, l.ignored, rules);
      PendingNames(l.models, offered.value, l.ignored, rules);
      NormalizeTwice(l.models);
      NormalStays(add);
      NoNames(add);
      NothingIsNormal();
      if |add| > 0 {
        MergedLonger(Normalize(l.models), add);
        NormalStays(Merge(Normalize(l.models), add));
        BaseFirst(Normalize(l.models), add);
      }
    }
  }

  lemma NothingIsNormal()
    ensures Normal([])
  {
  }

  lemma BaseFirst(base: seq<string>, appended: seq<string>)
    requires Normal(base)
    ensures base <= Merge(base, appended)
  {
    NormalStays(base);
    hide Normalize, Without;
  }

  /** After an automatic addition nothing is left to add. */
  lemma AutoSyncConverges(l: Ledger, upstream: seq<string>, rules: Rules, auto: bool, t1: int, t2: int)
    ensures Check(Check(l, Some(upstream), rules, true, t1), Some(upstream), rules, auto, t2).detected == []
  {
    hide Normalize, PendingAdd, PendingRemove, IgnoredNames, Normal;
    var c := Check(l, Some(upstream), rules, true, t1);
    var add := PendingAdd(l.models, upstream, l.ignored, rules);
    PendingNames(l.models, upstream, l.ignored, rules);
    PendingNames(c.models, upstream, c.ignored, rules);
    NormalizeTwice(l.models);
    NormalStays(add);
    NoNames(add);
    if |add| > 0 {
      MergedLonger(Normalize(l.models), add);
      NormalStays(Merge(Normalize(l.models), add));
    }
    NoNames(PendingAdd(c.models, upstream, c.ignored, rules));
  }

  /** The stored comma-separated text reads back as the same list exactly when no name holds a comma. */
  lemma ModelsTextIff(models: seq<string>)
    requires Normal(models)
    ensures Parse(Join(models, ','), ',') == models <==> forall k :: 0 <= k < |models| ==> ',' !in models[k]
  {
    hide Parse, Join;
    ParseJoinIff(models, ',');
  }

  // ---------------------------------------------------------------- the loops

  method NameSet(models: seq<string>) returns (r: set<string>)
    ensures r == Names(models)
  {
    r := {};
    for k := 0 to |models|
      invariant r == Names(models[..k])
    {
      assert models[..k + 1] == models[..k] + [models[k]];
      r := r + {models[k]};
    }
    assert models[..|models|] == models;
  }

  method FilterOut(models: seq<string>, drop: set<string>) returns (r: seq<string>)
    ensures r == Without(models, drop)
  {
    hide Without;
    r := [];
    WithoutEmpty(drop);
    for k := 0 to |models|
      invariant r == Without(models[..k], drop)
    {
      WithoutSnoc(models, k, drop);
      if models[k] !in drop {
        r := r + [models[k]];
      }
    }
    assert models[..|models|] == models;
  }

  /** Trims, drops blanks and keeps first occurrences. */
  method NormalizeNames(models: seq<string>) returns (r: seq<string>)
    ensures r == Normalize(models)
  {
    hide TrimSpace;
    r := [];
    ghost var kept: seq<string> := [];
    for k := 0 to |models|
      invariant kept == TrimNonBlank(models[..k]) && r == Dedup(kept)
    {
      assert models[..k + 1][..k] == models[..k];
      var name := TrimSpace(models[k]);
      if name != "" {
        assert (kept + [name])[..|kept|] == kept;
        if name !in r {
          r := r + [name];
        }
        kept := kept + [name];
      }
    }
    assert models[..|models|] == models;
  }

  lemma NamesSnoc(s: seq<string>, k: nat)
    requires Distinct(s) && k < |s|
    ensures Names(s[..k + 1]) == Names(s[..k]) + {s[k]} && s[k] !in Names(s[..k])
  {
    assert s[..k + 1] == s[..k] + [s[k]];
  }

  method MergeNames(base: seq<string>, appended: seq<string>) returns (r: seq<string>)
    ensures r == Merge(base, appended)
  {
    hide Normalize, Names, Without, Distinct, Canonical;
    r := NormalizeNames(base);
    ghost var start := r;
    var seen := NameSet(r);
    var extra := NormalizeNames(appended);
    NoNames(extra[..0]);
    WithoutEmpty(Names(start));
    for k := 0 to |extra|
      invariant r == start + Without(extra[..k], Names(start))
      invariant seen == Names(start) + Names(extra[..k])
    {
      NamesSnoc(extra, k);
      WithoutSnoc(extra, k, Names(start));
      if extra[k] !in seen {
        r := r + [extra[k]];
      }
      seen := seen + {extra[k]};
    }
    assert extra[..|extra|] == extra;
  }

  method SubtractNames(base: seq<string>, removed: seq<string>) returns (r: seq<string>)
    ensures r == Subtract(base, removed)
  {
    hide Normalize, Without;
    var gone := NormalizeNames(removed);
    var drop := NameSet(gone);
    var kept := NormalizeNames(base);
    r := FilterOut(kept, drop);
  }

  method IntersectNames(base: seq<string>, allowed: seq<string>) returns (r: seq<string>)
    ensures r == Intersect(base, allowed)
  {
    hide Normalize, Without, Distinct, Canonical;
    var wanted := NormalizeNames(allowed);
    var keep := NameSet(wanted);
    var names := NormalizeNames(base);
    ghost var drop := Names(names) - Names(wanted);
    r := [];
    WithoutEmpty(drop);
    for k := 0 to |names|
      invariant r == Without(names[..k], drop)
    {
      WithoutSnoc(names, k, drop);
      assert names[k] in Names(names);
      if names[k] in keep {
        r := r + [names[k]];
      }
    }
    assert names[..|names|] == names;
  }

  method FindIgnored(entries: seq<string>, rules: Rules, name: string) returns (found: bool)
    ensures found == Ignored(Names(entries), rules, name)
  {
    hide IgnoresName;
    for k := 0 to |entries|
      invariant forall j :: 0 <= j < k ==> !IgnoresName(entries[j], rules, name)
    {
      if IgnoresName(entries[k], rules, name) {
        assert entries[k] in Names(entries);
        return true;
      }
    }
    return false;
  }

  method CollectPending(local: seq<string>, upstream: seq<string>, ignored: seq<string>, rules: Rules)
    returns (add: seq<string>, remove: seq<string>)
    ensures add == PendingAdd(local, upstream, ignored, rules)
    ensures remove == PendingRemove(local, upstream, rules)
  {
    hide Normalize, Ignored, Without, Names;
    var localNames := NormalizeNames(local);
    var up := NormalizeNames(upstream);
    var localSet := NameSet(localNames);
    var upSet := NameSet(up);
    var entries := NormalizeNames(ignored);
    var covered := localSet + rules.mapping.Values;
    add := [];
    ghost var drop := covered + IgnoredNames(up, Names(entries), rules);
    WithoutEmpty(drop);
    for k := 0 to |up|
      invariant add == Without(up[..k], drop)
    {
      WithoutSnoc(up, k, drop);
      var hidden := FindIgnored(entries, rules, up[k]);
      if up[k] !in covered && !hidden {
        add := add + [up[k]];
      }
    }
    assert up[..|up|] == up;
    remove := FilterOut(localNames, rules.mapping.Keys + upSet);
  }

  // ---------------------------------------------------------------- the record

  class LedgerRecord {
    var ledger: Ledger

    constructor (l: Ledger)
      ensures ledger == l
    {
      ledger := l;
    }

    method CheckUpstream(offered: Option<seq<string>>, rules: Rules, auto: bool, now: int)
      modifies this
      ensures ledger == Check(old(ledger), offered, rules, auto, now)
    {
      hide Normalize, Merge, PendingAdd, PendingRemove;
      if offered.None? {
        ledger := ledger.(checked := now);
        return;
      }
      var add, remove := CollectPending(ledger.models, offered.value, ledger.ignored, rules);
      if auto && |add| > 0 {
        var origin := NormalizeNames(ledger.models);
        var merged := MergeNames(origin, add);
        if |merged| > |origin| {
          ledger := ledger.(models := merged);
        }
        ledger := ledger.(detected := []);
      } else {
        ledger := ledger.(detected := add);
      }
      ledger := ledger.(removed := remove, checked := now);
    }

    method ApplyUpdates(add: seq<string>, ignore: seq<string>, remove: seq<string>, now: int)
      returns (added: seq<string>, dropped: seq<string>, changed: bool)
      modifies this
      ensures Applied(ledger, added, dropped, changed) == Apply(old(ledger), add, ignore, remove, now)
    {
      hide Normalize, Merge, Subtract, Intersect;
      var pendingAdd := NormalizeNames(ledger.detected);
      var pendingRemove := NormalizeNames(ledger.removed);
      added := IntersectNames(add, pendingAdd);
      var ignoring := IntersectNames(ignore, pendingAdd);
      dropped := IntersectNames(remove, pendingRemove);
      dropped := SubtractNames(dropped, added);
      var origin := NormalizeNames(ledger.models);
      var adding := NormalizeNames(added);
      var listed := NormalizeNames(dropped);
      var removing := SubtractNames(listed, adding);
      var merged := MergeNames(origin, adding);
      var next := SubtractNames(merged, removing);
      changed := origin != next;
      if changed {
        ledger := ledger.(models := next);
      }
      var entries := MergeNames(ledger.ignored, ignoring);
      if |added| > 0 {
        entries := SubtractNames(entries, added);
      }
      var remaining := SubtractNames(pendingAdd, added + ignoring);
      var remainingRemove := SubtractNames(pendingRemove, dropped);
      ledger := ledger.(ignored := entries, detected := remaining, removed := remainingRemove, checked := now);
    }
  }
}
