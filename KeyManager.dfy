/** The API-key pool of the post summariser (`APIKeyManager` in
    preprocessing/2_summarize_and_prepare.py). Each key counts its requests of
    the day and of the current minute; the day counter is reset when the
    calendar date has moved on, the minute counter when the `seconds` field of
    the time since the key's last request reaches 60. Instants are the
    microseconds of the local naive clock, passed in by the caller. */
module KeyManager {
  import opened Wrappers
  import Cyclic
  import RateLimit

  /** The table of preprocessing/2_summarize_and_prepare.py; unknown models get gemini-2.0-flash's caps. */
  function LimitsFor(model: string): (l: RateLimit.Limits)
    ensures l.rpm > 0 && l.rpd > 0
    ensures model != "gemini-2.5-flash-preview-05-20" ==> l == RateLimit.Limits(15, 1500)
  {
    if model == "gemini-2.5-flash-preview-05-20" then RateLimit.Limits(10, 500)
    else RateLimit.Limits(15, 1500)
  }

  const MicrosPerSecond: int := 1_000_000
  const SecondsPerDay: int := 86_400

  /** `t.date()` as a day number. */
  function DateOf(t: int): int {
    t / (SecondsPerDay * MicrosPerSecond)
  }

  /** `(now - past).seconds`: the seconds part of a normalised `timedelta`,
      which leaves out both the whole days and the microseconds. */
  function SecondsField(now: int, past: int): (s: nat)
    ensures s < SecondsPerDay
  {
    ((now - past) / MicrosPerSecond) % SecondsPerDay
  }

  /** Whole days between two instants do not show in the `seconds` field. */
  lemma SecondsFieldIgnoresDays(now: int, past: int, days: nat)
    ensures SecondsField(now + days * SecondsPerDay * MicrosPerSecond, past) == SecondsField(now, past)
  {
    var a := (now - past) / MicrosPerSecond;
    var b := now + days * SecondsPerDay * MicrosPerSecond - past;
    assert b == (now - past) + (days * SecondsPerDay) * MicrosPerSecond;
    assert b / MicrosPerSecond == a + days * SecondsPerDay;
    assert (a + days * SecondsPerDay) % SecondsPerDay == a % SecondsPerDay;
  }

  /** A request one day and ten seconds ago leaves the minute counter standing. */
  lemma DayOldRequestNotAMinuteAgo(past: int)
    ensures SecondsField(past + (SecondsPerDay + 10) * MicrosPerSecond, past) == 10
  {
  }

  /** One key's tracking record. */
  datatype Usage = Usage(requestsToday: nat, requestsThisMinute: nat, lastRequest: Option<int>, lastReset: int)

  /** The two resets at the head of `can_make_request`. */
  function Refresh(u: Usage, now: int): (v: Usage)
    ensures v.lastRequest == u.lastRequest
    ensures DateOf(now) > DateOf(u.lastReset) ==> v.requestsToday == 0 && v.lastReset == now
    ensures DateOf(now) <= DateOf(u.lastReset) ==> v.requestsToday == u.requestsToday && v.lastReset == u.lastReset
    ensures (u.lastRequest.Some? && SecondsField(now, u.lastRequest.value) >= 60) ==> v.requestsThisMinute == 0
    ensures !(u.lastRequest.Some? && SecondsField(now, u.lastRequest.value) >= 60) ==> v.requestsThisMinute == u.requestsThisMinute
  {
    var u1 := if DateOf(now) > DateOf(u.lastReset) then u.(requestsToday := 0, lastReset := now) else u;
    if u1.lastRequest.Some? && SecondsField(now, u1.lastRequest.value) >= 60
    then u1.(requestsThisMinute := 0) else u1
  }

  lemma RefreshIdempotent(u: Usage, now: int)
    ensures Refresh(Refresh(u, now), now) == Refresh(u, now)
  {
  }

  /** The verdict of `can_make_request` on a refreshed record: the day cap is tested first. */
  datatype Verdict = Allowed | DailyLimitReached | MinuteLimitReached

  function Judge(u: Usage, l: RateLimit.Limits): (v: Verdict)
    ensures v == Allowed <==> u.requestsToday < l.rpd && u.requestsThisMinute < l.rpm
    ensures v == DailyLimitReached <==> u.requestsToday >= l.rpd
    ensures v == MinuteLimitReached <==> u.requestsToday < l.rpd && u.requestsThisMinute >= l.rpm
  {
    if u.requestsToday >= l.rpd then DailyLimitReached
    else if u.requestsThisMinute >= l.rpm then MinuteLimitReached
    else Allowed
  }

  ghost predicate Covers(keys: seq<string>, usage: map<string, Usage>) {
    forall i :: 0 <= i < |keys| ==> keys[i] in usage
  }

  function AllowedAt(keys: seq<string>, usage: map<string, Usage>, l: RateLimit.Limits, start: nat, d: nat, now: int): bool
    requires start < |keys| && d < |keys| && Covers(keys, usage)
  {
    Judge(Refresh(usage[keys[Cyclic.Slot(start, d, |keys|)]], now), l) == Allowed
  }

  /** The scan of `find_available_key` from visit `d` on. */
  function FirstAllowed(keys: seq<string>, usage: map<string, Usage>, l: RateLimit.Limits, start: nat, d: nat, now: int): (r: Option<nat>)
    requires start < |keys| && d <= |keys| && Covers(keys, usage)
    ensures r.Some? ==> d <= r.value < |keys| && AllowedAt(keys, usage, l, start, r.value, now)
    ensures r.Some? ==> forall e :: d <= e < r.value ==> !AllowedAt(keys, usage, l, start, e, now)
    ensures r.None? ==> forall e :: d <= e < |keys| ==> !AllowedAt(keys, usage, l, start, e, now)
    decreases |keys| - d
  {
    if d == |keys| then None
    else if AllowedAt(keys, usage, l, start, d, now) then Some(d)
    else FirstAllowed(keys, usage, l, start, d + 1, now)
  }

  function Visited(keys: seq<string>, start: nat, m: nat): set<string>
    requires start < |keys| && m <= |keys|
  {
    set e | 0 <= e < m :: keys[Cyclic.Slot(start, e, |keys|)]
  }

  /** The tracking table after the first `m` visits of a scan. */
  function AfterVisits(keys: seq<string>, usage: map<string, Usage>, start: nat, m: nat, now: int): (r: map<string, Usage>)
    requires start < |keys| && m <= |keys| && Covers(keys, usage)
    ensures r.Keys == usage.Keys
  {
    if m == 0 then usage
    else
      var prev := AfterVisits(keys, usage, start, m - 1, now);
      var k := keys[Cyclic.Slot(start, m - 1, |keys|)];
      prev[k := Refresh(prev[k], now)]
  }

  /** Visit `d` refreshes the key at slot `d` of the scan; the key is let
      through exactly when its record as visited is allowed. */
  lemma VisitStep(keys: seq<string>, usage: map<string, Usage>, l: RateLimit.Limits, start: nat, d: nat, now: int,
                  prev: map<string, Usage>, next: map<string, Usage>)
    requires start < |keys| && d < |keys| && Covers(keys, usage)
    requires prev == AfterVisits(keys, usage, start, d, now)
    requires var key := keys[Cyclic.Slot(start, d, |keys|)];
             key in prev && next == prev[key := Refresh(prev[key], now)]
    ensures next == AfterVisits(keys, usage, start, d + 1, now)
    ensures (Judge(next[keys[Cyclic.Slot(start, d, |keys|)]], l) == Allowed) == AllowedAt(keys, usage, l, start, d, now)
  {
    AfterVisitsStep(keys, usage, start, d, now);
  }

  /** Pointwise, the table after `m` visits has each visited key's record refreshed once. */
  lemma {:induction false} AfterVisitsAt(keys: seq<string>, usage: map<string, Usage>, start: nat, m: nat, now: int, k: string)
    requires start < |keys| && m <= |keys| && Covers(keys, usage) && k in usage
    ensures AfterVisits(keys, usage, start, m, now)[k]
            == if k in Visited(keys, start, m) then Refresh(usage[k], now) else usage[k]
  {
    if m > 0 {
      AfterVisitsAt(keys, usage, start, m - 1, now, k);
      assert Visited(keys, start, m) == Visited(keys, start, m - 1) + {keys[Cyclic.Slot(start, m - 1, |keys|)]};
      RefreshIdempotent(usage[k], now);
    }
  }

  lemma AfterVisitsStep(keys: seq<string>, usage: map<string, Usage>, start: nat, m: nat, now: int)
    requires start < |keys| && m < |keys| && Covers(keys, usage)
    ensures var cur := AfterVisits(keys, usage, start, m, now);
            var key := keys[Cyclic.Slot(start, m, |keys|)];
            key in cur && Refresh(cur[key], now) == Refresh(usage[key], now)
  {
    var key := keys[Cyclic.Slot(start, m, |keys|)];
    AfterVisitsAt(keys, usage, start, m, now, key);
    RefreshIdempotent(usage[key], now);
  }

  /** A failed scan refuses every key. */
  lemma {:induction false} NoneAllowedMeansAllRefused(keys: seq<string>, usage: map<string, Usage>, l: RateLimit.Limits, start: nat, now: int, i: nat)
    requires start < |keys| && Covers(keys, usage) && i < |keys|
    requires FirstAllowed(keys, usage, l, start, 0, now).None?
    ensures Judge(Refresh(usage[keys[i]], now), l) != Allowed
  {
    Cyclic.SlotSurjective(start, i, |keys|);
    var e :| 0 <= e < |keys| && Cyclic.Slot(start, e, |keys|) == i;
    assert !AllowedAt(keys, usage, l, start, e, now);
  }

  /** `wait_if_needed` resets nothing itself: a second scan at the same instant,
      over the table the failed scan left behind, fails as well. */
  lemma {:induction false} RescanAtSameInstantFails(keys: seq<string>, usage: map<string, Usage>, l: RateLimit.Limits, start: nat, now: int)
    requires start < |keys| && Covers(keys, usage)
    requires FirstAllowed(keys, usage, l, start, 0, now).None?
    ensures Covers(keys, AfterVisits(keys, usage, start, |keys|, now))
    ensures FirstAllowed(keys, AfterVisits(keys, usage, start, |keys|, now), l, start, 0, now).None?
  {
    var after := AfterVisits(keys, usage, start, |keys|, now);
    forall e | 0 <= e < |keys|
      ensures !AllowedAt(keys, after, l, start, e, now)
    {
      var k := keys[Cyclic.Slot(start, e, |keys|)];
      assert k in Visited(keys, start, |keys|);
      AfterVisitsAt(keys, usage, start, |keys|, now, k);
      RefreshIdempotent(usage[k], now);
      assert !AllowedAt(keys, usage, l, start, e, now);
    }
    NoneWhenAllRefused(keys, after, l, start, 0, now);
  }

  /** A scan whose visits before `m` are refused and whose visit `m` is allowed stops at `m`. */
  lemma {:induction false} FirstAllowedIs(keys: seq<string>, usage: map<string, Usage>, l: RateLimit.Limits, start: nat, d: nat, m: nat, now: int)
    requires start < |keys| && d <= m < |keys| && Covers(keys, usage)
    requires forall e :: d <= e < m ==> !AllowedAt(keys, usage, l, start, e, now)
    requires AllowedAt(keys, usage, l, start, m, now)
    ensures FirstAllowed(keys, usage, l, start, d, now) == Some(m)
    decreases m - d
  {
    if d < m {
      FirstAllowedIs(keys, usage, l, start, d + 1, m, now);
    }
  }

  /** Where a scan of `find_available_key` from slot `start` at `now` leaves
      the index: on the first key allowed, or back at `start`. */
  function ScanIndex(keys: seq<string>, usage: map<string, Usage>, l: RateLimit.Limits, start: nat, now: int): (r: nat)
    requires start < |keys| && Covers(keys, usage)
    ensures r < |keys|
  {
    match FirstAllowed(keys, usage, l, start, 0, now)
    case Some(j) => Cyclic.Slot(start, j, |keys|)
    case None => start
  }

  /** The usage after that scan: every key it visited refreshed, up to the key
      allowed or round the whole lap. */
  function ScanUsage(keys: seq<string>, usage: map<string, Usage>, l: RateLimit.Limits, start: nat, now: int): (r: map<string, Usage>)
    requires start < |keys| && Covers(keys, usage)
    ensures r.Keys == usage.Keys
  {
    match FirstAllowed(keys, usage, l, start, 0, now)
    case Some(j) => AfterVisits(keys, usage, start, j + 1, now)
    case None => AfterVisits(keys, usage, start, |keys|, now)
  }

  /** The scan of `find_available_key` from the current key round the
      cycle: each visited key's record is refreshed, and the scan stops at the
      first key let through (at slot `idx`), or after a full lap. */
  method ScanKeys(keys: seq<string>, u0: map<string, Usage>, limits: RateLimit.Limits, start: nat, now: int)
    returns (found: bool, idx: nat, u: map<string, Usage>)
    requires start < |keys| && Covers(keys, u0)
    ensures found == FirstAllowed(keys, u0, limits, start, 0, now).Some?
    ensures found ==> var first := FirstAllowed(keys, u0, limits, start, 0, now).value;
                      idx == Cyclic.Slot(start, first, |keys|) && u == AfterVisits(keys, u0, start, first + 1, now)
    ensures !found ==> u == AfterVisits(keys, u0, start, |keys|, now)
  {
    var n := |keys|;
    var d := 0;
    idx, u := start, u0;
    while true
      invariant d < n && n == |keys|
      invariant idx == Cyclic.Slot(start, d, n)
      invariant u == AfterVisits(keys, u0, start, d, now)
      invariant FirstAllowed(keys, u0, limits, start, d, now) == FirstAllowed(keys, u0, limits, start, 0, now)
      decreases n - d
    {
      var allowed;
      u, allowed := VisitKey(keys, u0, limits, start, d, now, idx, u);
      FirstAllowedStep(keys, u0, limits, start, d, now);
      if allowed {
        return true, idx, u;
      }
      Cyclic.SlotStep(start, d, n);
      idx := (idx + 1) % n;
      d := d + 1;
      Cyclic.SlotReturns(start, d, n);
      if idx == start {
        FirstAllowedEnd(keys, u0, limits, start, now);
        return false, idx, u;
      }
    }
  }

  /** One visit of the scan: the key at slot `d` has its record refreshed,
      and is let through or not. */
  method VisitKey(keys: seq<string>, u0: map<string, Usage>, limits: RateLimit.Limits, start: nat, d: nat, now: int,
                  idx: nat, u: map<string, Usage>)
    returns (next: map<string, Usage>, allowed: bool)
    requires start < |keys| && d < |keys| && Covers(keys, u0)
    requires idx == Cyclic.Slot(start, d, |keys|) && u == AfterVisits(keys, u0, start, d, now)
    ensures next == AfterVisits(keys, u0, start, d + 1, now)
    ensures allowed == AllowedAt(keys, u0, limits, start, d, now)
  {
    var current := keys[idx];
    AfterVisitsAt(keys, u0, start, d, now, current);
    next := u[current := Refresh(u[current], now)];
    VisitStep(keys, u0, limits, start, d, now, u, next);
    allowed := Judge(next[current], limits) == Allowed;
  }

  /** The scan from visit `d` stops there when the key is let through, and goes on otherwise. */
  lemma FirstAllowedStep(keys: seq<string>, usage: map<string, Usage>, l: RateLimit.Limits, start: nat, d: nat, now: int)
    requires start < |keys| && d < |keys| && Covers(keys, usage)
    ensures FirstAllowed(keys, usage, l, start, d, now)
            == if AllowedAt(keys, usage, l, start, d, now) then Some(d) else FirstAllowed(keys, usage, l, start, d + 1, now)
  {
  }

  /** A scan with no visit left finds nothing. */
  lemma FirstAllowedEnd(keys: seq<string>, usage: map<string, Usage>, l: RateLimit.Limits, start: nat, now: int)
    requires start < |keys| && Covers(keys, usage)
    ensures FirstAllowed(keys, usage, l, start, |keys|, now).None?
  {
  }



  /** A scan in which every visit is refused finds nothing. */
  lemma {:induction false} NoneWhenAllRefused(keys: seq<string>, usage: map<string, Usage>, l: RateLimit.Limits, start: nat, d: nat, now: int)
    requires start < |keys| && d <= |keys| && Covers(keys, usage)
    requires forall e :: d <= e < |keys| ==> !AllowedAt(keys, usage, l, start, e, now)
    ensures FirstAllowed(keys, usage, l, start, d, now).None?
    decreases |keys| - d
  {
    if d < |keys| {
      NoneWhenAllRefused(keys, usage, l, start, d + 1, now);
    }
  }

  class APIKeyManager {
    const keys: seq<string>
    const limits: RateLimit.Limits
    var currentKeyIndex: nat
    var usage: map<string, Usage>

    ghost predicate Valid()
      reads this
    {
      |keys| > 0 && currentKeyIndex < |keys| && Covers(keys, usage)
    }

    /** `__init__`: zero counters, no request yet, last reset at construction time. */
    constructor (apiKeys: seq<string>, model: string, now: int)
      requires |apiKeys| > 0
      ensures Valid()
      ensures keys == apiKeys && limits == LimitsFor(model) && currentKeyIndex == 0
      ensures forall k :: k in usage <==> k in apiKeys
      ensures forall k :: k in usage ==> usage[k] == Usage(0, 0, None, now)
    {
      keys := apiKeys;
      limits := LimitsFor(model);
      currentKeyIndex := 0;
      usage := map k | k in apiKeys :: Usage(0, 0, None, now);
    }

    /** `switch_api_key` (its connection re-test is not modelled). */
    method SwitchApiKey()
      requires Valid()
      modifies this`currentKeyIndex
      ensures Valid()
      ensures currentKeyIndex == (old(currentKeyIndex) + 1) % |keys|
    {
      currentKeyIndex := (currentKeyIndex + 1) % |keys|;
    }

    /** `can_make_request` on the current key. */
    method CanMakeRequest(now: int) returns (ok: bool)
      requires Valid()
      modifies this`usage
      ensures Valid()
      ensures var key := keys[currentKeyIndex];
              usage == old(usage)[key := Refresh(old(usage)[key], now)]
              && ok == (Judge(usage[key], limits) == Allowed)
    {
      var key := keys[currentKeyIndex];
      var u := usage[key];
      if DateOf(now) > DateOf(u.lastReset) {
        u := u.(requestsToday := 0, lastReset := now);
      }
      if u.lastRequest.Some? && SecondsField(now, u.lastRequest.value) >= 60 {
        u := u.(requestsThisMinute := 0);
      }
      usage := usage[key := u];
      if u.requestsToday >= limits.rpd {
        return false;
      }
      if u.requestsThisMinute >= limits.rpm {
        return false;
      }
      return true;
    }

    /** `find_available_key`, with one clock reading for the whole scan. */
    method FindAvailableKey(now: int) returns (found: bool)
      requires Valid()
      modifies this`usage, this`currentKeyIndex
      ensures Valid()
      ensures found == FirstAllowed(keys, old(usage), limits, old(currentKeyIndex), 0, now).Some?
      ensures var first := FirstAllowed(keys, old(usage), limits, old(currentKeyIndex), 0, now);
              first.Some? ==> currentKeyIndex == Cyclic.Slot(old(currentKeyIndex), first.value, |keys|)
                              && usage == AfterVisits(keys, old(usage), old(currentKeyIndex), first.value + 1, now)
      ensures var first := FirstAllowed(keys, old(usage), limits, old(currentKeyIndex), 0, now);
              first.None? ==> currentKeyIndex == old(currentKeyIndex)
                              && usage == AfterVisits(keys, old(usage), old(currentKeyIndex), |keys|, now)
      ensures currentKeyIndex == ScanIndex(keys, old(usage), limits, old(currentKeyIndex), now)
      ensures usage == ScanUsage(keys, old(usage), limits, old(currentKeyIndex), now)
    {
      var idx, u;
      found, idx, u := ScanKeys(keys, usage, limits, currentKeyIndex, now);
      if found {
        currentKeyIndex := idx;
      }
      usage := u;
    }

    /** `record_request`: one more request on the current key, stamped `now`. */
    method RecordRequest(now: int)
      requires Valid()
      modifies this`usage
      ensures Valid()
      ensures var key := keys[currentKeyIndex];
              var u := old(usage)[key];
              usage == old(usage)[key := u.(requestsToday := u.requestsToday + 1,
                                            requestsThisMinute := u.requestsThisMinute + 1,
                                            lastRequest := Some(now))]
    {
      var key := keys[currentKeyIndex];
      var u := usage[key];
      usage := usage[key := u.(requestsToday := u.requestsToday + 1,
                               requestsThisMinute := u.requestsThisMinute + 1,
                               lastRequest := Some(now))];
    }

    /** `wait_if_needed`: a scan at `now`, and after the pause one more scan at `later`. */
    method WaitIfNeeded(now: int, later: int) returns (found: bool)
      requires Valid()
      modifies this`usage, this`currentKeyIndex
      ensures Valid()
      ensures FirstAllowed(keys, old(usage), limits, old(currentKeyIndex), 0, now).Some? ==> found
      ensures later == now ==> found == FirstAllowed(keys, old(usage), limits, old(currentKeyIndex), 0, now).Some?
      ensures var u1 := ScanUsage(keys, old(usage), limits, old(currentKeyIndex), now);
              if FirstAllowed(keys, old(usage), limits, old(currentKeyIndex), 0, now).Some? then
                found && currentKeyIndex == ScanIndex(keys, old(usage), limits, old(currentKeyIndex), now) && usage == u1
              else
                found == FirstAllowed(keys, u1, limits, old(currentKeyIndex), 0, later).Some?
                && currentKeyIndex == ScanIndex(keys, u1, limits, old(currentKeyIndex), later)
                && usage == ScanUsage(keys, u1, limits, old(currentKeyIndex), later)
    {
      ghost var start := currentKeyIndex;
      ghost var u0 := usage;
      found := FindAvailableKey(now);
      if !found {
        found := FindAvailableKey(later);
        if later == now {
          RescanAtSameInstantFails(keys, u0, limits, start, now);
        }
      }
    }
  }
}
