/** Queueing accounts with authentication errors for re-authorisation, up to a limit, with a count of every outcome. */
module AuthRecovery {

  datatype Account = Account(authError: bool, enabled: bool)

  datatype Scanned = Scanned(id: int, accounts: seq<Account>)

  datatype Queued = QueueFailed | QueueCreated | QueueExisting

  datatype Report = Report(
    scanned: nat, matched: nat, skipped: nat, skippedDisabled: nat, skippedUnscoped: nat,
    enqueued: nat, existing: nat, automationErrors: nat)

  function Clamp(limit: int): nat {
    if limit <= 0 then 200 else if limit > 1000 then 1000 else limit
  }

  function Min(a: nat, b: nat): nat {
    if a < b then a else b
  }

  /** How many accounts there are, how many have an authentication error, how many of those the request does not filter
      out, and which of those belong to a channel with an id, in the order of the scan. */
  datatype Tally = Tally(accounts: nat, matched: nat, passing: nat, eligible: seq<(int, int)>)

  function One(b: bool): nat {
    if b then 1 else 0
  }

  function CountAccount(t: Tally, id: int, i: int, a: Account, includeDisabled: bool): Tally {
    var passes := a.authError && (includeDisabled || a.enabled);
    Tally(t.accounts + 1, t.matched + One(a.authError), t.passing + One(passes),
          if passes && id > 0 then t.eligible + [(id, i)] else t.eligible)
  }

  function CountAccounts(t: Tally, id: int, accounts: seq<Account>, includeDisabled: bool): Tally {
    if accounts == [] then t else
      var last := |accounts| - 1;
      CountAccount(CountAccounts(t, id, accounts[..last], includeDisabled), id, last, accounts[last], includeDisabled)
  }

  function CountChannels(channels: seq<Scanned>, includeDisabled: bool): Tally {
    if channels == [] then Tally(0, 0, 0, []) else
      var last := channels[|channels| - 1];
      CountAccounts(CountChannels(channels[..|channels| - 1], includeDisabled), last.id, last.accounts, includeDisabled)
  }

  type Queue = (int, int) -> Queued

  /** How many accounts the queue answers in one way. */
  function Answers(accounts: seq<(int, int)>, queue: Queue, answer: Queued): nat {
    if accounts == [] then 0 else
      var last := accounts[|accounts| - 1];
      Answers(accounts[..|accounts| - 1], queue, answer) + One(queue(last.0, last.1) == answer)
  }

  /** Every match is skipped, queued, found queued or failed. The first eligible accounts are attempted, up to the
      limit, and each outcome counts the attempts that the queue answered so. */
  ghost predicate Balances(r: Report, attempted: nat, limit: nat, queue: Queue, t: Tally) {
    && r.scanned == t.accounts && r.matched == t.matched
    && r.matched == r.skipped + r.enqueued + r.existing + r.automationErrors
    && attempted == r.enqueued + r.existing + r.automationErrors
    && attempted == Min(limit, |t.eligible|)
    && r.enqueued == Answers(t.eligible[..attempted], queue, QueueCreated)
    && r.existing == Answers(t.eligible[..attempted], queue, QueueExisting)
    && r.automationErrors == Answers(t.eligible[..attempted], queue, QueueFailed)
    && r.skippedDisabled == t.matched - t.passing && r.skippedUnscoped == t.passing - |t.eligible|
  }

  lemma OneMoreAnswer(eligible: seq<(int, int)>, account: (int, int), queue: Queue, answer: Queued)
    ensures Answers(eligible + [account], queue, answer) ==
            Answers(eligible, queue, answer) + One(queue(account.0, account.1) == answer)
  {
    assert (eligible + [account])[..|eligible|] == eligible;
  }

  lemma SameAttempts(eligible: seq<(int, int)>, account: (int, int), attempted: nat)
    requires attempted <= |eligible|
    ensures (eligible + [account])[..attempted] == eligible[..attempted]
    ensures attempted == |eligible| ==>
            eligible[..attempted] == eligible && (eligible + [account])[..attempted + 1] == eligible + [account]
  {
  }

  /** One account of the inner loop. */
  method ScanAccount(r0: Report, attempted0: nat, limit: nat, id: int, i: int, a: Account, includeDisabled: bool,
                     queue: Queue, ghost t: Tally) returns (r: Report, attempted: nat)
    requires Balances(r0, attempted0, limit, queue, t)
    ensures Balances(r, attempted, limit, queue, CountAccount(t, id, i, a, includeDisabled))
  {
    hide Answers;
    attempted := attempted0;
    r := r0.(scanned := r0.scanned + 1);
    if !a.authError {
      return;
    }
    r := r.(matched := r.matched + 1);
    if !includeDisabled && !a.enabled {
      r := r.(skipped := r.skipped + 1, skippedDisabled := r.skippedDisabled + 1);
      return;
    }
    if id <= 0 {
      r := r.(skipped := r.skipped + 1, skippedUnscoped := r.skippedUnscoped + 1);
      return;
    }
    SameAttempts(t.eligible, (id, i), attempted);
    if attempted >= limit {
      r := r.(skipped := r.skipped + 1);
      return;
    }
    attempted := attempted + 1;
    OneMoreAnswer(t.eligible, (id, i), queue, QueueCreated);
    OneMoreAnswer(t.eligible, (id, i), queue, QueueExisting);
    OneMoreAnswer(t.eligible, (id, i), queue, QueueFailed);
    match queue(id, i)
    case QueueFailed => r := r.(automationErrors := r.automationErrors + 1);
    case QueueCreated => r := r.(enqueued := r.enqueued + 1);
    case QueueExisting => r := r.(existing := r.existing + 1);
  }

  method ScanChannel(r0: Report, attempted0: nat, limit: nat, c: Scanned, includeDisabled: bool,
                     queue: Queue, ghost t: Tally) returns (r: Report, attempted: nat)
    requires Balances(r0, attempted0, limit, queue, t)
    ensures Balances(r, attempted, limit, queue, CountAccounts(t, c.id, c.accounts, includeDisabled))
  {
    hide Balances, CountAccount;
    r, attempted := r0, attempted0;
    for i := 0 to |c.accounts|
      invariant Balances(r, attempted, limit, queue, CountAccounts(t, c.id, c.accounts[..i], includeDisabled))
    {
      assert c.accounts[..i + 1][..i] == c.accounts[..i];
      r, attempted := ScanAccount(r, attempted, limit, c.id, i, c.accounts[i], includeDisabled, queue,
                                  CountAccounts(t, c.id, c.accounts[..i], includeDisabled));
    }
    assert c.accounts[..|c.accounts|] == c.accounts;
  }

  /** `attempted` is the local counter that the limit is checked against; it is not part of the report. */
  method SyncAuthRecovery(channels: seq<Scanned>, includeDisabled: bool, limit: int, queue: Queue)
    returns (r: Report, attempted: nat)
    ensures Balances(r, attempted, Clamp(limit), queue, CountChannels(channels, includeDisabled))
  {
    hide Balances, CountAccounts;
    r, attempted := Report(0, 0, 0, 0, 0, 0, 0, 0), 0;
    NothingYet(r, Clamp(limit), queue, CountChannels(channels[..0], includeDisabled));
    for k := 0 to |channels|
      invariant Balances(r, attempted, Clamp(limit), queue, CountChannels(channels[..k], includeDisabled))
    {
      assert channels[..k + 1][..k] == channels[..k];
      r, attempted := ScanChannel(r, attempted, Clamp(limit), channels[k], includeDisabled, queue,
                                  CountChannels(channels[..k], includeDisabled));
    }
    assert channels[..|channels|] == channels;
  }

  lemma NothingYet(r: Report, limit: nat, queue: Queue, t: Tally)
    requires r == Report(0, 0, 0, 0, 0, 0, 0, 0) && t == Tally(0, 0, 0, [])
    ensures Balances(r, 0, limit, queue, t)
  {
  }
}
