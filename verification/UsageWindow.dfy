/** Usage statistics: account windows are rounded, added into a channel window, rounded, added into the overall
    window and rounded again. Arithmetic is over the reals; how far repeated rounding drifts is the point. */
module UsageWindow {

  /** Half of the last digit kept. */
  const HALF := 0.00005

  datatype Window = Window(
    requests: nat, successes: nat, errors: nat, timeouts: nat,
    promptTokens: int, completionTokens: int, totalTokens: int, quota: int,
    cost: real, duration: real, ttft: real,
    lastActive: int, topCategory: string, topCount: int,
    successRate: real, errorRate: real, timeoutRate: real)

  const EMPTY := Window(0, 0, 0, 0, 0, 0, 0, 0, 0.0, 0.0, 0.0, 0, "", 0, 0.0, 0.0, 0.0)

  function Abs(x: real): real {
    if x < 0.0 then -x else x
  }

  /** `math.Round`: to the nearest integer, halves away from zero. */
  function Nearest(x: real): int {
    if x >= 0.0 then (x + 0.5).Floor else -((-x + 0.5).Floor)
  }

  /** To four digits. */
  function Round(x: real): (r: real)
    ensures Abs(r - x) <= HALF
  {
    var n := Nearest(x * 10000.0) as real;
    assert Abs(n - x * 10000.0) <= 0.5;
    assert n / 10000.0 - x == (n - x * 10000.0) / 10000.0;
    n / 10000.0
  }

  function Weighted(left: real, n: nat, right: real, m: nat): real {
    if n + m > 0 then (left * n as real + right * m as real) / (n + m) as real else 0.0
  }

  function Add(left: Window, right: Window): Window {
    EMPTY.(
      requests := left.requests + right.requests,
      successes := left.successes + right.successes,
      errors := left.errors + right.errors,
      timeouts := left.timeouts + right.timeouts,
      promptTokens := left.promptTokens + right.promptTokens,
      completionTokens := left.completionTokens + right.completionTokens,
      totalTokens := left.totalTokens + right.totalTokens,
      quota := left.quota + right.quota,
      cost := left.cost + right.cost,
      topCategory := if right.topCount > left.topCount then right.topCategory else left.topCategory,
      topCount := if right.topCount > left.topCount then right.topCount else left.topCount,
      lastActive := if right.lastActive > left.lastActive then right.lastActive else left.lastActive,
      duration := Weighted(left.duration, left.requests, right.duration, right.requests),
      ttft := Weighted(left.ttft, left.requests, right.ttft, right.requests))
  }

  function Rate(part: nat, whole: nat, otherwise: real): real {
    if whole > 0 then part as real / whole as real else otherwise
  }

  function Finalize(w: Window): Window {
    w.(cost := Round(w.cost), duration := Round(w.duration), ttft := Round(w.ttft),
       successRate := Round(Rate(w.successes, w.requests, w.successRate)),
       errorRate := Round(Rate(w.errors, w.requests, w.errorRate)),
       timeoutRate := Round(Rate(w.timeouts, w.requests, w.timeoutRate)))
  }

  /** Adds windows from left to right. */
  function Fold(windows: seq<Window>): Window {
    if windows == [] then EMPTY else Add(Fold(windows[..|windows| - 1]), windows[|windows| - 1])
  }

  function FinalizeAll(windows: seq<Window>): (r: seq<Window>)
    ensures |r| == |windows| && forall k :: 0 <= k < |r| ==> r[k] == Finalize(windows[k])
  {
    seq(|windows|, k requires 0 <= k < |windows| => Finalize(windows[k]))
  }

  /** The window of one channel, from the raw windows of its accounts. */
  function ChannelSummary(accounts: seq<Window>): Window {
    Finalize(Fold(FinalizeAll(accounts)))
  }

  function Summaries(channels: seq<seq<Window>>): (r: seq<Window>)
    ensures |r| == |channels| && forall k :: 0 <= k < |r| ==> r[k] == ChannelSummary(channels[k])
  {
    seq(|channels|, k requires 0 <= k < |channels| => ChannelSummary(channels[k]))
  }

  function Overall(channels: seq<seq<Window>>): Window {
    Finalize(Fold(Summaries(channels)))
  }

  // ---------------------------------------------------------------- the loops

  method SummarizeChannel(accounts: seq<Window>) returns (summary: Window)
    ensures summary == ChannelSummary(accounts)
  {
    hide Add, Finalize;
    summary := EMPTY;
    ghost var rounded := FinalizeAll(accounts);
    for k := 0 to |accounts|
      invariant summary == Fold(rounded[..k])
    {
      assert rounded[..k + 1][..k] == rounded[..k];
      summary := Add(summary, Finalize(accounts[k]));
    }
    assert rounded[..|accounts|] == rounded;
    summary := Finalize(summary);
  }

  method SummarizeAll(channels: seq<seq<Window>>) returns (overall: Window)
    ensures overall == Overall(channels)
  {
    hide Add, Finalize, ChannelSummary;
    overall := EMPTY;
    ghost var summaries := Summaries(channels);
    for k := 0 to |channels|
      invariant overall == Fold(summaries[..k])
    {
      assert summaries[..k + 1][..k] == summaries[..k];
      var summary := SummarizeChannel(channels[k]);
      overall := Add(overall, summary);
    }
    assert summaries[..|channels|] == summaries;
    overall := Finalize(overall);
  }

  // ---------------------------------------------------------------- sums

  datatype Metric = Duration | Ttft

  function Mean(w: Window, m: Metric): real {
    if m.Duration? then w.duration else w.ttft
  }

  function Requests(windows: seq<Window>): nat {
    if windows == [] then 0 else Requests(windows[..|windows| - 1]) + windows[|windows| - 1].requests
  }

  function Total(values: seq<real>): real {
    if values == [] then 0.0 else Total(values[..|values| - 1]) + values[|values| - 1]
  }

  /** The exact time spent in each window: its mean times its requests. */
  function Spent(windows: seq<Window>, m: Metric): (r: seq<real>)
    ensures |r| == |windows| && forall k :: 0 <= k < |r| ==> r[k] == Times(Mean(windows[k], m), windows[k].requests)
  {
    seq(|windows|, k requires 0 <= k < |windows| => Times(Mean(windows[k], m), windows[k].requests))
  }

  // ---------------------------------------------------------------- weighted means do not amplify an error

  function Times(x: real, n: nat): real {
    x * n as real
  }

  lemma TimesSum(x: real, y: real, n: nat)
    ensures Times(x + y, n) == Times(x, n) + Times(y, n)
  {
  }

  lemma TimesCount(x: real, n: nat, m: nat)
    ensures Times(x, n + m) == Times(x, n) + Times(x, m)
  {
  }

  lemma WeightedTimes(left: real, n: nat, right: real, m: nat)
    ensures Times(Weighted(left, n, right, m), n + m) == Times(left, n) + Times(right, m)
  {
    if n + m > 0 {
      var x, d := left * n as real + right * m as real, (n + m) as real;
      assert x / d * d == x;
    } else {
      assert n == 0 && m == 0;
    }
  }

  /** The mean misses the exact mean by at most `error`, so `n` requests miss the exact time by at most `n`
      times that. */
  ghost predicate Near(mean: real, n: nat, spent: real, error: real) {
    Abs(Times(mean, n) - spent) <= Times(error, n)
  }

  lemma NearAdds(left: real, n: nat, spentLeft: real, right: real, m: nat, spentRight: real, error: real)
    requires Near(left, n, spentLeft, error) && Near(right, m, spentRight, error)
    ensures Near(Weighted(left, n, right, m), n + m, spentLeft + spentRight, error)
  {
    hide Weighted, Times;
    WeightedTimes(left, n, right, m);
    TimesCount(error, n, m);
  }

  lemma Scale(d: real, e: real, n: nat)
    requires Abs(d) <= e
    ensures Abs(Times(d, n)) <= Times(e, n)
  {
    var r := n as real;
    if d >= 0.0 {
      assert (e - d) * r >= 0.0;
    } else {
      assert (e + d) * r >= 0.0 && d * r <= 0.0;
    }
  }

  lemma Triangle(a: real, x: real, b: real, y: real)
    requires Abs(a) <= x && Abs(b) <= y
    ensures Abs(a + b) <= x + y
  {
  }

  /** Rounding adds half of the last digit to the error. */
  lemma RoundNear(mean: real, n: nat, spent: real, error: real)
    requires Near(mean, n, spent, error)
    ensures Near(Round(mean), n, spent, error + HALF)
  {
    hide Round, Times;
    var d := Round(mean) - mean;
    Scale(d, HALF, n);
    TimesSum(mean, d, n);
    TimesSum(error, HALF, n);
    Triangle(Times(d, n), Times(HALF, n), Times(mean, n) - spent, Times(error, n));
    assert mean + d == Round(mean);
  }

  lemma AddMean(left: Window, right: Window, m: Metric)
    ensures Mean(Add(left, right), m) == Weighted(Mean(left, m), left.requests, Mean(right, m), right.requests)
    ensures Add(left, right).requests == left.requests + right.requests
  {
    hide Weighted;
  }

  lemma FinalizeMean(w: Window, m: Metric)
    ensures Mean(Finalize(w), m) == Round(Mean(w, m)) && Finalize(w).requests == w.requests
  {
    hide Round;
  }

  /** Adding any number of windows keeps the error per request. */
  lemma {:induction false} FoldNear(windows: seq<Window>, spent: seq<real>, m: Metric, error: real)
    requires |spent| == |windows|
    requires forall k :: 0 <= k < |windows| ==> Near(Mean(windows[k], m), windows[k].requests, spent[k], error)
    ensures Fold(windows).requests == Requests(windows)
    ensures Near(Mean(Fold(windows), m), Requests(windows), Total(spent), error)
  {
    hide Near, Mean, Add;
    if windows == [] {
      NothingNear(m, error);
    } else {
      var last := |windows| - 1;
      FoldNear(windows[..last], spent[..last], m, error);
      var left := Fold(windows[..last]);
      AddMean(left, windows[last], m);
      NearAdds(Mean(left, m), left.requests, Total(spent[..last]), Mean(windows[last], m), windows[last].requests,
               spent[last], error);
    }
  }

  lemma NothingNear(m: Metric, error: real)
    ensures Near(Mean(EMPTY, m), 0, 0.0, error)
  {
  }

  lemma RequestsFinalized(accounts: seq<Window>)
    ensures Requests(FinalizeAll(accounts)) == Requests(accounts)
  {
    if accounts != [] {
      var last := |accounts| - 1;
      RequestsFinalized(accounts[..last]);
      assert FinalizeAll(accounts)[..last] == FinalizeAll(accounts[..last]);
    }
  }

  /** A channel's mean latency is within 0.0001 of the exact mean over its requests, for any number of accounts. */
  lemma ChannelMeanNear(accounts: seq<Window>, m: Metric)
    ensures ChannelSummary(accounts).requests == Requests(accounts)
    ensures Near(Mean(ChannelSummary(accounts), m), Requests(accounts), Total(Spent(accounts, m)), 0.0001)
  {
    hide Finalize, Mean, Round, Fold;
    var rounded := FinalizeAll(accounts);
    var spent := Spent(accounts, m);
    forall k | 0 <= k < |rounded|
      ensures Near(Mean(rounded[k], m), rounded[k].requests, spent[k], HALF)
    {
      FinalizeMean(accounts[k], m);
      ExactNear(Mean(accounts[k], m), accounts[k].requests);
      RoundNear(Mean(accounts[k], m), accounts[k].requests, spent[k], 0.0);
    }
    RequestsFinalized(accounts);
    FoldNear(rounded, spent, m, HALF);
    RoundNear(Mean(Fold(rounded), m), Requests(accounts), Total(spent), HALF);
    FinalizeMean(Fold(rounded), m);
  }

  lemma ExactNear(mean: real, n: nat)
    ensures Near(mean, n, Times(mean, n), 0.0)
  {
  }

  function ChannelRequests(channels: seq<seq<Window>>): nat {
    if channels == [] then 0 else ChannelRequests(channels[..|channels| - 1]) + Requests(channels[|channels| - 1])
  }

  function ChannelSpent(channels: seq<seq<Window>>, m: Metric): (r: seq<real>)
    ensures |r| == |channels| && forall k :: 0 <= k < |r| ==> r[k] == Total(Spent(channels[k], m))
  {
    seq(|channels|, k requires 0 <= k < |channels| => Total(Spent(channels[k], m)))
  }

  lemma {:induction false} SummaryRequests(channels: seq<seq<Window>>)
    ensures Requests(Summaries(channels)) == ChannelRequests(channels)
  {
    hide ChannelSummary;
    if channels != [] {
      var last := |channels| - 1;
      SummaryRequests(channels[..last]);
      assert Summaries(channels)[..last] == Summaries(channels[..last]);
      ChannelMeanNear(channels[last], Duration);
    }
  }

  /** The overall mean latency is within 0.00015 of the exact mean over all requests, for any number of channels. */
  lemma OverallMeanNear(channels: seq<seq<Window>>, m: Metric)
    ensures Overall(channels).requests == ChannelRequests(channels)
    ensures Near(Mean(Overall(channels), m), ChannelRequests(channels), Total(ChannelSpent(channels, m)), 0.00015)
  {
    hide Finalize, Mean, Round, Fold, ChannelSummary, Near;
    var summaries := Summaries(channels);
    var spent := ChannelSpent(channels, m);
    forall k | 0 <= k < |summaries|
      ensures Near(Mean(summaries[k], m), summaries[k].requests, spent[k], 0.0001)
    {
      ChannelMeanNear(channels[k], m);
    }
    SummaryRequests(channels);
    FoldNear(summaries, spent, m, 0.0001);
    RoundNear(Mean(Fold(summaries), m), ChannelRequests(channels), Total(spent), 0.0001);
    FinalizeMean(Fold(summaries), m);
  }

  /** The bound in its usual form. */
  lemma NearMean(mean: real, n: nat, spent: real, error: real)
    requires n > 0 && Near(mean, n, spent, error)
    ensures Abs(mean - spent / n as real) <= error
  {
    hide Times;
    var r := n as real;
    var q := spent / r;
    QuotientTimes(spent, n);
    TimesSum(mean, -q, n);
    TimesNegative(q, n);
    Unscale(mean - q, error, n);
  }

  lemma QuotientTimes(spent: real, n: nat)
    requires n > 0
    ensures Times(spent / n as real, n) == spent
  {
  }

  lemma TimesNegative(x: real, n: nat)
    ensures Times(-x, n) == -Times(x, n)
  {
  }

  lemma Unscale(d: real, e: real, n: nat)
    requires n > 0 && Abs(Times(d, n)) <= Times(e, n)
    ensures Abs(d) <= e
  {
    var r := n as real;
    if d > e {
      Positive(d - e, r);
      assert (d - e) * r == d * r - e * r;
    } else if -d > e {
      Positive(-d - e, r);
      assert (-d - e) * r == -(d * r) - e * r;
    }
  }

  lemma Positive(x: real, y: real)
    requires x > 0.0 && y > 0.0
    ensures x * y > 0.0
  {
  }

  /** The request-weighted mean over the accounts of a channel, without any rounding. */
  function ExactChannelMean(accounts: seq<Window>, m: Metric): real
    requires Requests(accounts) > 0
  {
    Total(Spent(accounts, m)) / Requests(accounts) as real
  }

  function ExactOverallMean(channels: seq<seq<Window>>, m: Metric): real
    requires ChannelRequests(channels) > 0
  {
    Total(ChannelSpent(channels, m)) / ChannelRequests(channels) as real
  }

  /** With any request at all, the reported means themselves are that close to the exact ones. */
  lemma ReportedMeansNear(accounts: seq<Window>, channels: seq<seq<Window>>, m: Metric)
    ensures Requests(accounts) > 0 ==>
            Abs(Mean(ChannelSummary(accounts), m) - ExactChannelMean(accounts, m)) <= 0.0001
    ensures ChannelRequests(channels) > 0 ==>
            Abs(Mean(Overall(channels), m) - ExactOverallMean(channels, m)) <= 0.00015
  {
    hide Mean, ChannelSummary, Overall, Near, Abs, Total, Spent, ChannelSpent;
    if Requests(accounts) > 0 {
      ChannelMeanNear(accounts, m);
      NearMean(Mean(ChannelSummary(accounts), m), Requests(accounts), Total(Spent(accounts, m)), 0.0001);
    }
    if ChannelRequests(channels) > 0 {
      OverallMeanNear(channels, m);
      NearMean(Mean(Overall(channels), m), ChannelRequests(channels), Total(ChannelSpent(channels, m)), 0.00015);
    }
  }

  // ---------------------------------------------------------------- what rounding leaves exact

  /** The integer parts of a window. */
  datatype Counts = Counts(requests: nat, successes: nat, errors: nat, timeouts: nat,
                           promptTokens: int, completionTokens: int, totalTokens: int, quota: int)

  function CountsOf(w: Window): Counts {
    Counts(w.requests, w.successes, w.errors, w.timeouts, w.promptTokens, w.completionTokens, w.totalTokens, w.quota)
  }

  function Plus(a: Counts, b: Counts): Counts {
    Counts(a.requests + b.requests, a.successes + b.successes, a.errors + b.errors, a.timeouts + b.timeouts,
           a.promptTokens + b.promptTokens, a.completionTokens + b.completionTokens, a.totalTokens + b.totalTokens,
           a.quota + b.quota)
  }

  const NO_COUNTS := Counts(0, 0, 0, 0, 0, 0, 0, 0)

  function SumCounts(windows: seq<Window>): Counts {
    if windows == [] then NO_COUNTS else Plus(SumCounts(windows[..|windows| - 1]), CountsOf(windows[|windows| - 1]))
  }

  function SumChannels(channels: seq<seq<Window>>): Counts {
    if channels == [] then NO_COUNTS else
      Plus(SumChannels(channels[..|channels| - 1]), SumCounts(channels[|channels| - 1]))
  }

  lemma {:induction false} FoldCounts(windows: seq<Window>)
    ensures CountsOf(Fold(windows)) == SumCounts(windows)
  {
    hide Weighted;
    if windows != [] {
      FoldCounts(windows[..|windows| - 1]);
    }
  }

  lemma FinalizeCounts(w: Window)
    ensures CountsOf(Finalize(w)) == CountsOf(w)
  {
    hide Round;
  }

  lemma {:induction false} ChannelCounts(accounts: seq<Window>)
    ensures CountsOf(ChannelSummary(accounts)) == SumCounts(accounts)
  {
    hide Finalize, CountsOf, Plus;
    FinalizeCounts(Fold(FinalizeAll(accounts)));
    FoldCounts(FinalizeAll(accounts));
    FinalizedCounts(accounts);
  }

  lemma {:induction false} FinalizedCounts(accounts: seq<Window>)
    ensures SumCounts(FinalizeAll(accounts)) == SumCounts(accounts)
  {
    hide Finalize, CountsOf, Plus;
    if accounts != [] {
      var last := |accounts| - 1;
      FinalizedCounts(accounts[..last]);
      assert FinalizeAll(accounts)[..last] == FinalizeAll(accounts[..last]);
      FinalizeCounts(accounts[last]);
    }
  }

  lemma {:induction false} SummariesCounts(channels: seq<seq<Window>>)
    ensures SumCounts(Summaries(channels)) == SumChannels(channels)
  {
    hide ChannelSummary, CountsOf, Plus;
    if channels != [] {
      var last := |channels| - 1;
      SummariesCounts(channels[..last]);
      assert Summaries(channels)[..last] == Summaries(channels[..last]);
      ChannelCounts(channels[last]);
    }
  }

  /** Requests, outcomes, tokens and quota add up exactly, and each rate is within half of the last digit of the
      exact ratio of the totals. */
  lemma OverallCountsExact(channels: seq<seq<Window>>)
    ensures var w := Overall(channels); var sum := SumChannels(channels);
            && CountsOf(w) == sum
            && (sum.requests > 0 ==>
                  && Abs(w.successRate - sum.successes as real / sum.requests as real) <= HALF
                  && Abs(w.errorRate - sum.errors as real / sum.requests as real) <= HALF
                  && Abs(w.timeoutRate - sum.timeouts as real / sum.requests as real) <= HALF)
  {
    hide Round, Fold, Summaries, SumChannels;
    FinalizeCounts(Fold(Summaries(channels)));
    FoldCounts(Summaries(channels));
    SummariesCounts(channels);
  }

  // ---------------------------------------------------------------- what rounding does to a sum

  function Costs(windows: seq<Window>): (r: seq<real>)
    ensures |r| == |windows| && forall k :: 0 <= k < |r| ==> r[k] == windows[k].cost
  {
    seq(|windows|, k requires 0 <= k < |windows| => windows[k].cost)
  }

  lemma AddCost(left: Window, right: Window)
    ensures Add(left, right).cost == left.cost + right.cost
  {
    hide Weighted;
  }

  lemma OneMore(error: real, n: nat)
    ensures error * (n + 1) as real == error * n as real + error
  {
  }

  lemma NoDrift()
    ensures Abs(EMPTY.cost - 0.0) == 0.0
  {
  }

  lemma {:induction false} FoldCost(windows: seq<Window>, costs: seq<real>, error: real)
    requires |costs| == |windows| && forall k :: 0 <= k < |windows| ==> Abs(windows[k].cost - costs[k]) <= error
    ensures Abs(Fold(windows).cost - Total(costs)) <= error * |windows| as real
  {
    hide Add, Abs;
    if windows == [] {
      NoDrift();
    } else {
      var last := |windows| - 1;
      FoldCost(windows[..last], costs[..last], error);
      AddCost(Fold(windows[..last]), windows[last]);
      OneMore(error, last);
      Triangle(Fold(windows[..last]).cost - Total(costs[..last]), error * last as real,
               windows[last].cost - costs[last], error);
    }
  }

  /** Unlike a mean, a total drifts: by at most half of the last digit for each account, and once more. */
  lemma ChannelCostDrift(accounts: seq<Window>)
    ensures Abs(ChannelSummary(accounts).cost - Total(Costs(accounts))) <= HALF * (|accounts| + 1) as real
  {
    hide Round, Fold;
    var rounded := FinalizeAll(accounts);
    FoldCost(rounded, Costs(accounts), HALF);
    var folded := Fold(rounded).cost;
    Triangle(Round(folded) - folded, HALF, folded - Total(Costs(accounts)), HALF * |accounts| as real);
    assert HALF * (|accounts| + 1) as real == HALF * |accounts| as real + HALF;
  }

  // ---------------------------------------------------------------- the latest activity and the leading error

  /** The latest activity of all windows, and the error category of one with the highest count. */
  ghost predicate Leads(w: Window, windows: seq<Window>) {
    && (forall k :: 0 <= k < |windows| ==> windows[k].lastActive <= w.lastActive && windows[k].topCount <= w.topCount)
    && (w.lastActive == 0 || exists k :: 0 <= k < |windows| && windows[k].lastActive == w.lastActive)
    && ((w.topCount == 0 && w.topCategory == "") ||
        exists k :: 0 <= k < |windows| && windows[k].topCount == w.topCount && windows[k].topCategory == w.topCategory)
  }

  lemma AddLeads(left: Window, ls: seq<Window>, right: Window, rs: seq<Window>)
    requires Leads(left, ls) && Leads(right, rs)
    ensures Leads(Add(left, right), ls + rs)
  {
    var w, all := Add(left, right), ls + rs;
    forall k | 0 <= k < |ls| ensures all[k] == ls[k] {
    }
    forall k | 0 <= k < |rs| ensures all[|ls| + k] == rs[k] {
    }
  }

  lemma FinalizeLeads(w: Window, windows: seq<Window>)
    requires Leads(w, windows)
    ensures Leads(Finalize(w), windows)
  {
    hide Round, Rate;
  }

  lemma NothingLeads()
    ensures Leads(EMPTY, [])
  {
  }

  lemma OneLeads(w: Window)
    ensures Leads(Finalize(w), [w])
  {
    hide Round, Rate;
    assert [w][0] == w;
  }

  lemma {:induction false} FoldLeads(accounts: seq<Window>)
    ensures Leads(Fold(FinalizeAll(accounts)), accounts)
  {
    hide Leads, Add, Finalize;
    if accounts == [] {
      NothingLeads();
    } else {
      var last := |accounts| - 1;
      FoldLeads(accounts[..last]);
      assert FinalizeAll(accounts)[..last] == FinalizeAll(accounts[..last]);
      OneLeads(accounts[last]);
      AddLeads(Fold(FinalizeAll(accounts[..last])), accounts[..last], Finalize(accounts[last]), [accounts[last]]);
      assert accounts[..last] + [accounts[last]] == accounts;
    }
  }

  lemma ChannelLeads(accounts: seq<Window>)
    ensures Leads(ChannelSummary(accounts), accounts)
  {
    hide Leads, Fold, Finalize;
    FoldLeads(accounts);
    FinalizeLeads(Fold(FinalizeAll(accounts)), accounts);
  }

  function AllAccounts(channels: seq<seq<Window>>): seq<Window> {
    if channels == [] then [] else AllAccounts(channels[..|channels| - 1]) + channels[|channels| - 1]
  }

  lemma {:induction false} SummariesLead(channels: seq<seq<Window>>)
    ensures Leads(Fold(Summaries(channels)), AllAccounts(channels))
  {
    hide Leads, Add, ChannelSummary;
    if channels == [] {
      NothingLeads();
    } else {
      var last := |channels| - 1;
      SummariesLead(channels[..last]);
      assert Summaries(channels)[..last] == Summaries(channels[..last]);
      ChannelLeads(channels[last]);
      AddLeads(Fold(Summaries(channels[..last])), AllAccounts(channels[..last]),
               ChannelSummary(channels[last]), channels[last]);
    }
  }

  /** The overall window names the latest activity of any account, and an error category no account exceeds. */
  lemma OverallLeads(channels: seq<seq<Window>>)
    ensures Leads(Overall(channels), AllAccounts(channels))
  {
    hide Leads, Fold, Finalize, AllAccounts, ChannelSummary;
    SummariesLead(channels);
    FinalizeLeads(Fold(Summaries(channels)), AllAccounts(channels));
  }
}
