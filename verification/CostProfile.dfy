/** The cost profile in force for each channel, chosen from rows that the database returns in no particular order. */
module CostProfile {
  import opened Seqs

  datatype Profile = Profile(id: int, channel: int, effective: int, version: int, updated: int, pricing: string)

  /** The later, newer, fresher, higher-numbered profile is better. */
  predicate Better(next: Profile, current: Profile) {
    if next.effective != current.effective then next.effective > current.effective
    else if next.version != current.version then next.version > current.version
    else if next.updated != current.updated then next.updated > current.updated
    else next.id > current.id
  }

  predicate Applies(p: Profile, now: int) {
    p.channel > 0 && p.effective <= now
  }

  ghost predicate DistinctIds(rows: seq<Profile>) {
    forall i, j :: 0 <= i < j < |rows| ==> rows[i].id != rows[j].id
  }

  /** On profiles with distinct ids the comparison is a strict total order. */
  lemma BetterIsTotalOrder(a: Profile, b: Profile, c: Profile)
    ensures !Better(a, a)
    ensures Better(a, b) && Better(b, c) ==> Better(a, c)
    ensures a.id != b.id ==> (Better(a, b) <==> !Better(b, a))
    ensures Better(a, b) ==> !Better(b, a)
  {
  }

  /** `best` has an entry for exactly the channels with an applicable row, and no applicable row beats it. */
  ghost predicate Selected(rows: seq<Profile>, now: int, best: map<int, Profile>) {
    && (forall i :: 0 <= i < |rows| && Applies(rows[i], now) ==> rows[i].channel in best)
    && (forall c :: c in best ==> Chosen(rows, now, c, best[c]))
  }

  ghost predicate Chosen(rows: seq<Profile>, now: int, c: int, p: Profile) {
    && p in rows && Applies(p, now) && p.channel == c
    && (forall i :: 0 <= i < |rows| && Applies(rows[i], now) && rows[i].channel == c ==> !Better(rows[i], p))
  }

  lemma SelectedGrows(rows: seq<Profile>, k: nat, now: int, best: map<int, Profile>)
    requires k < |rows| && Selected(rows[..k], now, best)
    ensures var p := rows[k];
            Selected(rows[..k + 1], now,
                     if !Applies(p, now) then best
                     else if p.channel !in best || Better(p, best[p.channel]) then best[p.channel := p] else best)
  {
    hide Better;
    var p := rows[k];
    var rows' := rows[..k + 1];
    assert rows' == rows[..k] + [p];
    var best' := if !Applies(p, now) then best
                 else if p.channel !in best || Better(p, best[p.channel]) then best[p.channel := p] else best;
    forall c | c in best' ensures Chosen(rows', now, c, best'[c]) {
      if Applies(p, now) && c == p.channel {
        forall i | 0 <= i < |rows'| && Applies(rows'[i], now) && rows'[i].channel == c
          ensures !Better(rows'[i], best'[c]) {
          BetterIsTotalOrder(rows'[i], p, if c in best then best[c] else p);
          BetterIsTotalOrder(p, rows'[i], rows'[i]);
        }
      } else {
        assert Chosen(rows[..k], now, c, best[c]);
      }
    }
  }

  /** The loop behind the channel list. */
  method DisplayProfiles(rows: seq<Profile>, now: int) returns (best: map<int, Profile>)
    ensures Selected(rows, now, best)
  {
    hide Better, Selected;
    best := map[];
    NothingSelected(rows, now);
    for k := 0 to |rows|
      invariant Selected(rows[..k], now, best)
    {
      SelectedGrows(rows, k, now, best);
      var profile := rows[k];
      if profile.channel <= 0 || profile.effective > now {
        continue;
      }
      if profile.channel !in best || Better(profile, best[profile.channel]) {
        best := best[profile.channel := profile];
      }
    }
    assert rows[..|rows|] == rows;
  }

  /** The loop behind the balance monitor. */
  method MonitorProfiles(rows: seq<Profile>, now: int) returns (result: map<int, Profile>)
    ensures Selected(rows, now, result)
  {
    hide Better, Selected;
    result := map[];
    NothingSelected(rows, now);
    for k := 0 to |rows|
      invariant Selected(rows[..k], now, result)
    {
      SelectedGrows(rows, k, now, result);
      var profile := rows[k];
      if !(profile.channel <= 0 || profile.effective > now) {
        var exists' := profile.channel in result;
        if !exists' || Better(profile, result[profile.channel]) {
          result := result[profile.channel := profile];
        }
      }
    }
    assert rows[..|rows|] == rows;
  }

  lemma NothingSelected(rows: seq<Profile>, now: int)
    ensures Selected(rows[..0], now, map[])
  {
  }

  lemma ChosenUnique(rows: seq<Profile>, rows': seq<Profile>, now: int, c: int, p: Profile, q: Profile)
    requires DistinctIds(rows) && multiset(rows) == multiset(rows')
    requires Chosen(rows, now, c, p) && Chosen(rows', now, c, q)
    ensures p == q
  {
    hide Better;
    assert q in multiset(rows') && p in multiset(rows);
    assert q in rows && p in rows';
    var i :| 0 <= i < |rows| && rows[i] == q;
    var j :| 0 <= j < |rows'| && rows'[j] == p;
    var k :| 0 <= k < |rows| && rows[k] == p;
    BetterIsTotalOrder(p, q, q);
  }

  /** With distinct ids the selection depends only on which rows there are: any order of them, and either loop, gives
      the same profile for every channel. */
  lemma SelectionIsUnique(rows: seq<Profile>, rows': seq<Profile>, now: int,
                          best: map<int, Profile>, best': map<int, Profile>)
    requires DistinctIds(rows) && multiset(rows) == multiset(rows')
    requires Selected(rows, now, best) && Selected(rows', now, best')
    ensures best == best'
  {
    hide Better;
    forall c ensures c in best <==> c in best' {
      if c in best {
        InOther(rows, rows', now, c, best[c], best');
      }
      if c in best' {
        InOther(rows', rows, now, c, best'[c], best);
      }
    }
    forall c | c in best && c in best' ensures best[c] == best'[c] {
      ChosenUnique(rows, rows', now, c, best[c], best'[c]);
    }
    SameMap(best, best');
  }

  lemma InOther(rows: seq<Profile>, rows': seq<Profile>, now: int, c: int, p: Profile, best': map<int, Profile>)
    requires multiset(rows) == multiset(rows') && Chosen(rows, now, c, p) && Selected(rows', now, best')
    ensures c in best'
  {
    assert p in multiset(rows);
    assert p in rows';
    var j :| 0 <= j < |rows'| && rows'[j] == p;
    assert Applies(rows'[j], now);
  }

  /** The chosen profile has the latest effective time of the channel's applicable rows, among those the highest
      version, among those the latest update, and among those the highest id. */
  lemma SelectedIsLatest(rows: seq<Profile>, now: int, best: map<int, Profile>, c: int, i: nat)
    requires Selected(rows, now, best) && i < |rows| && Applies(rows[i], now) && rows[i].channel == c
    ensures c in best && best[c] in rows && best[c].channel == c > 0 && best[c].effective <= now
    ensures var p, q := rows[i], best[c];
            || p.effective < q.effective
            || (p.effective == q.effective && p.version < q.version)
            || (p.effective == q.effective && p.version == q.version && p.updated < q.updated)
            || (p.effective == q.effective && p.version == q.version && p.updated == q.updated && p.id <= q.id)
  {
    assert Chosen(rows, now, c, best[c]);
  }
}
