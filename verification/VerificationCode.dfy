/** The verification-code store: one map for both purposes, swept of expired codes only when it has grown past
    a fixed size. Reference: a store per purpose that is never swept. */
module VerificationCode {
  import opened Seqs

  const MAX_SIZE := 10
  const NANOS := 1_000_000_000

  datatype Code = Code(code: string, time: int)

  datatype Purpose = EmailVerification | PasswordReset

  function Tag(p: Purpose): string {
    if p.EmailVerification? then "v" else "r"
  }

  type Codes = map<string, Code>

  /** Whole seconds in a duration given in nanoseconds, truncated toward zero. */
  function Seconds(nanos: int): int {
    if nanos >= 0 then nanos / NANOS else -(-nanos / NANOS)
  }

  predicate Expired(entry: Code, minutes: int, now: int) {
    Seconds(now - entry.time) >= minutes * 60
  }

  lemma ExpiredStays(entry: Code, minutes: int, now: int, later: int)
    requires Expired(entry, minutes, now) && now <= later
    ensures Expired(entry, minutes, later)
  {
    var a, b := now - entry.time, later - entry.time;
    if a >= 0 {
      assert a / NANOS <= b / NANOS;
    } else if b < 0 {
      assert -b / NANOS <= -a / NANOS;
    }
  }

  /** A code is valid for exactly its number of minutes. */
  lemma ValidIff(entry: Code, minutes: int, now: int)
    requires now >= entry.time
    ensures !Expired(entry, minutes, now) <==> now - entry.time < minutes * 60 * NANOS
  {
    var age := now - entry.time;
    WholeSeconds(age, minutes * 60);
  }

  lemma WholeSeconds(nanos: nat, seconds: int)
    ensures nanos / NANOS >= seconds <==> nanos >= seconds * NANOS
  {
    var q, r := nanos / NANOS, nanos % NANOS;
    assert nanos == q * NANOS + r && 0 <= r < NANOS;
  }

  // ---------------------------------------------------------------- the store

  function WithoutExpired(codes: Codes, minutes: int, now: int): Codes {
    map k | k in codes && !Expired(codes[k], minutes, now) :: codes[k]
  }

  /** `sweep` is the second clock reading, taken when the map is swept. */
  function Register(codes: Codes, p: Purpose, key: string, code: string, minutes: int, now: int, sweep: int): Codes {
    var codes' := codes[Tag(p) + key := Code(code, now)];
    if |codes'| > MAX_SIZE then WithoutExpired(codes', minutes, sweep) else codes'
  }

  predicate Verify(codes: Codes, p: Purpose, key: string, code: string, minutes: int, now: int) {
    var k := Tag(p) + key;
    k in codes && !Expired(codes[k], minutes, now) && codes[k].code == code
  }

  class CodeStore {
    var codes: Codes
    const minutes: int

    constructor (minutes: int)
      ensures codes == map[] && this.minutes == minutes
    {
      codes := map[];
      this.minutes := minutes;
    }

    method RemoveExpiredPairs(now: int)
      modifies this`codes
      ensures codes == WithoutExpired(old(codes), minutes, now)
    {
      hide Expired;
      var todo := codes.Keys;
      while todo != {}
        invariant todo <= old(codes).Keys
        invariant codes == map k | k in old(codes) && (k in todo || !Expired(old(codes)[k], minutes, now))
                          :: old(codes)[k]
        decreases todo
      {
        var k := Pick(todo);
        if Expired(codes[k], minutes, now) {
          codes := codes - {k};
        }
        todo := todo - {k};
      }
    }

    method RegisterCode(p: Purpose, key: string, code: string, now: int, sweep: int)
      modifies this`codes
      ensures codes == Register(old(codes), p, key, code, minutes, now, sweep)
    {
      hide Expired;
      codes := codes[Tag(p) + key := Code(code, now)];
      if |codes| > MAX_SIZE {
        RemoveExpiredPairs(sweep);
      }
    }

    method VerifyCode(p: Purpose, key: string, code: string, now: int) returns (ok: bool)
      ensures ok == Verify(codes, p, key, code, minutes, now)
    {
      hide Expired;
      var k := Tag(p) + key;
      if k !in codes || Expired(codes[k], minutes, now) {
        return false;
      }
      return code == codes[k].code;
    }

    method DeleteCode(p: Purpose, key: string)
      modifies this`codes
      ensures codes == old(codes) - {Tag(p) + key}
    {
      codes := codes - {Tag(p) + key};
    }
  }

  // ---------------------------------------------------------------- the reference

  /** Codes by purpose and key, kept until they are replaced or deleted. */
  type Ledger = map<(Purpose, string), Code>

  predicate LedgerVerify(ledger: Ledger, p: Purpose, key: string, code: string, minutes: int, now: int) {
    (p, key) in ledger && !Expired(ledger[(p, key)], minutes, now) && ledger[(p, key)].code == code
  }

  // ---------------------------------------------------------------- runs

  datatype Event =
    | Registered(p: Purpose, key: string, code: string, now: int, sweep: int)
    | Verified(p: Purpose, key: string, code: string, now: int)
    | Deleted(p: Purpose, key: string, now: int)
  {
    /** The last clock reading of the call. */
    function End(): int {
      if Registered? then sweep else now
    }
  }

  ghost predicate ClockRuns(events: seq<Event>) {
    && (forall i :: 0 <= i < |events| ==> events[i].now <= events[i].End())
    && (forall i, j :: 0 <= i < j < |events| ==> events[i].End() <= events[j].now)
  }

  function CodesAfter(events: seq<Event>, minutes: int): Codes {
    if events == [] then map[] else
      var codes := CodesAfter(events[..|events| - 1], minutes);
      match events[|events| - 1]
      case Registered(p, key, code, now, sweep) => Register(codes, p, key, code, minutes, now, sweep)
      case Verified(_, _, _, _) => codes
      case Deleted(p, key, _) => codes - {Tag(p) + key}
  }

  function LedgerAfter(events: seq<Event>): Ledger {
    if events == [] then map[] else
      var ledger := LedgerAfter(events[..|events| - 1]);
      match events[|events| - 1]
      case Registered(p, key, code, now, _) => ledger[(p, key) := Code(code, now)]
      case Verified(_, _, _, _) => ledger
      case Deleted(p, key, _) => ledger - {(p, key)}
  }

  /** The two purposes never meet in the shared map, whatever the keys. */
  lemma TagsSeparate(p: Purpose, key: string, q: Purpose, key': string)
    ensures Tag(p) + key == Tag(q) + key' <==> p == q && key == key'
  {
    var a, b := Tag(p) + key, Tag(q) + key';
    assert a[0] == Tag(p)[0] && b[0] == Tag(q)[0];
    assert a[1..] == key && b[1..] == key';
  }

  /** The store holds what the ledger holds, except for codes that have expired. */
  ghost predicate Mirrors(codes: Codes, ledger: Ledger, p: Purpose, key: string, minutes: int, now: int) {
    var k := Tag(p) + key;
    && (k in codes ==> (p, key) in ledger && ledger[(p, key)] == codes[k])
    && ((p, key) in ledger && k !in codes ==> Expired(ledger[(p, key)], minutes, now))
  }

  lemma RegisterMirrors(codes: Codes, ledger: Ledger, p: Purpose, key: string, minutes: int, before: int,
                        q: Purpose, key': string, code: string, now: int, sweep: int)
    requires before <= now <= sweep && Mirrors(codes, ledger, p, key, minutes, before)
    ensures Mirrors(Register(codes, q, key', code, minutes, now, sweep), ledger[(q, key') := Code(code, now)],
                    p, key, minutes, sweep)
  {
    hide Expired;
    TagsSeparate(p, key, q, key');
    if (p, key) in ledger && Tag(p) + key !in codes {
      ExpiredStays(ledger[(p, key)], minutes, before, sweep);
    }
  }

  lemma {:induction false} RunMirrors(events: seq<Event>, minutes: int, p: Purpose, key: string, now: int)
    requires ClockRuns(events) && forall i :: 0 <= i < |events| ==> events[i].End() <= now
    ensures Mirrors(CodesAfter(events, minutes), LedgerAfter(events), p, key, minutes, now)
  {
    hide Expired, Register;
    if events != [] {
      var last := |events| - 1;
      var e := events[last];
      RunMirrors(events[..last], minutes, p, key, e.now);
      var codes, ledger := CodesAfter(events[..last], minutes), LedgerAfter(events[..last]);
      match e {
        case Registered(q, key', code, t, sweep) =>
          RegisterMirrors(codes, ledger, p, key, minutes, t, q, key', code, t, sweep);
        case Verified(_, _, _, _) =>
        case Deleted(q, key', _) =>
          TagsSeparate(p, key, q, key');
      }
      MirrorsLater(CodesAfter(events, minutes), LedgerAfter(events), p, key, minutes, e.End(), now);
    }
  }

  lemma MirrorsLater(codes: Codes, ledger: Ledger, p: Purpose, key: string, minutes: int, before: int, now: int)
    requires before <= now && Mirrors(codes, ledger, p, key, minutes, before)
    ensures Mirrors(codes, ledger, p, key, minutes, now)
  {
    hide Expired;
    if (p, key) in ledger && Tag(p) + key !in codes {
      ExpiredStays(ledger[(p, key)], minutes, before, now);
    }
  }

  /** After every run, with a clock that never goes back, a code verifies in the store exactly when it verifies in
      the ledger that is never swept. */
  lemma LazyExpiryInvisible(events: seq<Event>, minutes: int, p: Purpose, key: string, code: string, now: int)
    requires ClockRuns(events) && forall i :: 0 <= i < |events| ==> events[i].End() <= now
    ensures Verify(CodesAfter(events, minutes), p, key, code, minutes, now) <==>
            LedgerVerify(LedgerAfter(events), p, key, code, minutes, now)
  {
    hide Expired;
    RunMirrors(events, minutes, p, key, now);
  }

  /** The clock reading of the last possible sweep, which follows the last registration. */
  function LastSweep(events: seq<Event>): int {
    if events == [] then 0 else
      var last := events[|events| - 1];
      if last.Registered? then last.sweep else LastSweep(events[..|events| - 1])
  }

  lemma SmallerMap<K, V>(m: map<K, V>, drop: set<K>)
    ensures |m - drop| <= |m|
  {
    assert (m - drop).Keys <= m.Keys;
    FewerElements((m - drop).Keys, m.Keys);
  }

  lemma FewerElements<K>(a: set<K>, b: set<K>)
    requires a <= b
    ensures |a| <= |b|
  {
    assert b == a + (b - a);
  }

  /** Over every run the map is within the fixed size, or all it holds was still valid after the last registration. */
  lemma {:induction false} RunBounds(events: seq<Event>, minutes: int)
    ensures var codes := CodesAfter(events, minutes);
            |codes| <= MAX_SIZE || forall k :: k in codes ==> !Expired(codes[k], minutes, LastSweep(events))
  {
    hide Expired;
    if events != [] {
      var before := events[..|events| - 1];
      RunBounds(before, minutes);
      match events[|events| - 1]
      case Registered(_, _, _, _, _) =>
      case Verified(_, _, _, _) =>
      case Deleted(p, key, _) => SmallerMap(CodesAfter(before, minutes), {Tag(p) + key});
    }
  }
}
