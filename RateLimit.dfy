/** The API-key quota pool of the comment labeller (`RateLimitManager` in
    labeling/3_gemini_label.py). Every key has a requests-per-minute and a
    requests-per-day counter, stamped with the minute-of-hour and the
    day-of-month at which they were last reset; a rotation index selects the
    current key. The clock is a parameter of every operation that reads it. */
module RateLimit {
  import opened Wrappers
  import Cyclic

  /** Requests-per-minute and requests-per-day caps of one model. */
  datatype Limits = Limits(rpm: nat, rpd: nat)

  /** The free-tier table; a model not in it gets the gemini-2.5-flash caps. */
  function LimitsFor(model: string): (l: Limits)
    ensures l.rpm > 0 && l.rpd > 0
    ensures model !in KnownModels ==> l == Limits(10, 250)
  {
    if model == "gemini-2.5-pro" then Limits(5, 100)
    else if model == "gemini-2.5-flash" then Limits(10, 250)
    else if model == "gemini-2.5-flash-lite-preview-06-17" then Limits(15, 1000)
    else if model == "gemini-2.5-flash-preview-tts" then Limits(3, 15)
    else if model == "gemini-2.5-pro-preview-tts" then Limits(5, 100)
    else if model == "gemini-2.0-flash" then Limits(15, 200)
    else if model == "gemini-2.0-flash-preview-image-generation" then Limits(10, 100)
    else if model == "gemini-2.0-flash-lite" then Limits(30, 200)
    else Limits(10, 250)
  }

  const KnownModels: seq<string> := [
    "gemini-2.5-pro", "gemini-2.5-flash", "gemini-2.5-flash-lite-preview-06-17",
    "gemini-2.5-flash-preview-tts", "gemini-2.5-pro-preview-tts", "gemini-2.0-flash",
    "gemini-2.0-flash-preview-image-generation", "gemini-2.0-flash-lite"]

  /** The two fields of `datetime.now()` the pool looks at. */
  datatype Clock = Clock(minute: nat, day: nat)

  /** One key's usage record. */
  datatype Usage = Usage(rpmCount: nat, rpdCount: nat, lastMinute: nat, lastDay: nat)

  /** `reset_counters_if_needed` on one record: the minute test and the day test
      act independently; each zeroes its counter and restamps it only on a change. */
  function Reset(u: Usage, now: Clock): (v: Usage)
    ensures v.lastMinute == now.minute && v.lastDay == now.day
    ensures now.minute == u.lastMinute ==> v.rpmCount == u.rpmCount
    ensures now.minute != u.lastMinute ==> v.rpmCount == 0
    ensures now.day == u.lastDay ==> v.rpdCount == u.rpdCount
    ensures now.day != u.lastDay ==> v.rpdCount == 0
  {
    var u1 := if now.minute != u.lastMinute then u.(rpmCount := 0, lastMinute := now.minute) else u;
    if now.day != u1.lastDay then u1.(rpdCount := 0, lastDay := now.day) else u1
  }

  /** Resetting twice at the same clock reading is resetting once. */
  lemma ResetIdempotent(u: Usage, now: Clock)
    ensures Reset(Reset(u, now), now) == Reset(u, now)
  {
  }

  /** The outcome of `check_limits`, with its reason text. */
  datatype Verdict = Available | RpmExceeded | RpdExceeded {
    function Reason(): string {
      match this
      case Available => "OK"
      case RpmExceeded => "RPM limit exceeded"
      case RpdExceeded => "RPD limit exceeded"
    }
  }

  /** The caps test of `check_limits` on an already reset record: the minute cap is tested first. */
  function Judge(u: Usage, l: Limits): (v: Verdict)
    ensures v == Available <==> u.rpmCount < l.rpm && u.rpdCount < l.rpd
    ensures v == RpmExceeded <==> u.rpmCount >= l.rpm
    ensures v == RpdExceeded <==> u.rpmCount < l.rpm && u.rpdCount >= l.rpd
  {
    if u.rpmCount >= l.rpm then RpmExceeded
    else if u.rpdCount >= l.rpd then RpdExceeded
    else Available
  }

  /** Every key of the list has a usage record. */
  ghost predicate Covers(keys: seq<string>, usage: map<string, Usage>) {
    forall i :: 0 <= i < |keys| ==> keys[i] in usage
  }

  /** Whether the key in slot `start + d` would pass `check_limits` at `now`. */
  function PassesAt(keys: seq<string>, usage: map<string, Usage>, l: Limits, start: nat, d: nat, now: Clock): bool
    requires start < |keys| && d < |keys| && Covers(keys, usage)
  {
    Judge(Reset(usage[keys[Cyclic.Slot(start, d, |keys|)]], now), l) == Available
  }

  /** The scan of `get_available_key` from visit `d` on: the first visit at or
      after `d` whose key passes, or None when none of the remaining visits does. */
  function FirstPass(keys: seq<string>, usage: map<string, Usage>, l: Limits, start: nat, d: nat, now: Clock): (r: Option<nat>)
    requires start < |keys| && d <= |keys| && Covers(keys, usage)
    ensures r.Some? ==> d <= r.value < |keys| && PassesAt(keys, usage, l, start, r.value, now)
    ensures r.Some? ==> forall e :: d <= e < r.value ==> !PassesAt(keys, usage, l, start, e, now)
    ensures r.None? ==> forall e :: d <= e < |keys| ==> !PassesAt(keys, usage, l, start, e, now)
    decreases |keys| - d
  {
    if d == |keys| then None
    else if PassesAt(keys, usage, l, start, d, now) then Some(d)
    else FirstPass(keys, usage, l, start, d + 1, now)
  }

  /** The first passing visit is the one that passes after a run of failures. */
  lemma {:induction false} FirstPassIs(keys: seq<string>, usage: map<string, Usage>, l: Limits, start: nat, d: nat, m: nat, now: Clock)
    requires start < |keys| && d <= m < |keys| && Covers(keys, usage)
    requires forall e :: d <= e < m ==> !PassesAt(keys, usage, l, start, e, now)
    requires PassesAt(keys, usage, l, start, m, now)
    ensures FirstPass(keys, usage, l, start, d, now) == Some(m)
    decreases m - d
  {
    if d < m {
      FirstPassIs(keys, usage, l, start, d + 1, m, now);
    }
  }

  /** A scan in which every visit fails finds nothing. */
  lemma {:induction false} FirstPassNone(keys: seq<string>, usage: map<string, Usage>, l: Limits, start: nat, d: nat, now: Clock)
    requires start < |keys| && d <= |keys| && Covers(keys, usage)
    requires forall e :: d <= e < |keys| ==> !PassesAt(keys, usage, l, start, e, now)
    ensures FirstPass(keys, usage, l, start, d, now).None?
    decreases |keys| - d
  {
    if d < |keys| {
      FirstPassNone(keys, usage, l, start, d + 1, now);
    }
  }

  /** The keys the scan has looked at in its first `m` visits. */
  function Visited(keys: seq<string>, start: nat, m: nat): set<string>
    requires start < |keys| && m <= |keys|
  {
    set e | 0 <= e < m :: keys[Cyclic.Slot(start, e, |keys|)]
  }

  /** The usage table after the first `m` visits: each visited key's record reset, the rest untouched. */
  function AfterVisits(keys: seq<string>, usage: map<string, Usage>, start: nat, m: nat, now: Clock): (r: map<string, Usage>)
    requires start < |keys| && m <= |keys| && Covers(keys, usage)
    ensures r.Keys == usage.Keys
  {
    if m == 0 then usage
    else
      var prev := AfterVisits(keys, usage, start, m - 1, now);
      var k := keys[Cyclic.Slot(start, m - 1, |keys|)];
      prev[k := Reset(prev[k], now)]
  }

  /** Pointwise, the table after `m` visits has each visited key's record reset once. */
  lemma {:induction false} AfterVisitsAt(keys: seq<string>, usage: map<string, Usage>, start: nat, m: nat, now: Clock, k: string)
    requires start < |keys| && m <= |keys| && Covers(keys, usage) && k in usage
    ensures AfterVisits(keys, usage, start, m, now)[k]
            == if k in Visited(keys, start, m) then Reset(usage[k], now) else usage[k]
  {
    if m > 0 {
      AfterVisitsAt(keys, usage, start, m - 1, now, k);
      assert Visited(keys, start, m) == Visited(keys, start, m - 1) + {keys[Cyclic.Slot(start, m - 1, |keys|)]};
      ResetIdempotent(usage[k], now);
    }
  }

  lemma AfterVisitsStep(keys: seq<string>, usage: map<string, Usage>, start: nat, m: nat, now: Clock)
    requires start < |keys| && m < |keys| && Covers(keys, usage)
    ensures var cur := AfterVisits(keys, usage, start, m, now);
            var key := keys[Cyclic.Slot(start, m, |keys|)];
            key in cur && Reset(cur[key], now) == Reset(usage[key], now)
  {
    var key := keys[Cyclic.Slot(start, m, |keys|)];
    AfterVisitsAt(keys, usage, start, m, now, key);
    ResetIdempotent(usage[key], now);
  }

  /** When the scan fails, every key of the list was looked at. */
  lemma VisitedAll(keys: seq<string>, start: nat)
    requires start < |keys|
    ensures forall i :: 0 <= i < |keys| ==> keys[i] in Visited(keys, start, |keys|)
  {
    forall i | 0 <= i < |keys|
      ensures keys[i] in Visited(keys, start, |keys|)
    {
      Cyclic.SlotSurjective(start, i, |keys|);
      var e :| 0 <= e < |keys| && Cyclic.Slot(start, e, |keys|) == i;
    }
  }

  /** A scan that finds nothing has found every key over one of its caps. */
  lemma {:induction false} NoPassMeansAllCapped(keys: seq<string>, usage: map<string, Usage>, l: Limits, start: nat, now: Clock, i: nat)
    requires start < |keys| && Covers(keys, usage) && i < |keys|
    requires FirstPass(keys, usage, l, start, 0, now).None?
    ensures Judge(Reset(usage[keys[i]], now), l) != Available
  {
    Cyclic.SlotSurjective(start, i, |keys|);
    var e :| 0 <= e < |keys| && Cyclic.Slot(start, e, |keys|) == i;
    assert !PassesAt(keys, usage, l, start, e, now);
  }

  /** The minute reset of `wait_for_available_key`: every listed key's minute
      counter zeroed and restamped; the day counters are never touched. */
  function ZeroMinutes(usage: map<string, Usage>, keys: seq<string>, minute: nat): (r: map<string, Usage>)
    ensures r.Keys == usage.Keys
    ensures forall k :: k in usage && k in keys ==> r[k] == usage[k].(rpmCount := 0, lastMinute := minute)
    ensures forall k :: k in usage && k !in keys ==> r[k] == usage[k]
  {
    map k | k in usage :: if k in keys then usage[k].(rpmCount := 0, lastMinute := minute) else usage[k]
  }

  /** What `get_available_key` from slot `start` at `now` returns: the first
      key that passes, or None after a full lap. */
  function ScanKey(keys: seq<string>, usage: map<string, Usage>, l: Limits, start: nat, now: Clock): Option<string>
    requires start < |keys| && Covers(keys, usage)
  {
    match FirstPass(keys, usage, l, start, 0, now)
    case Some(j) => Some(keys[Cyclic.Slot(start, j, |keys|)])
    case None => None
  }

  /** Where that scan leaves the index: on the key returned, or back at `start`. */
  function ScanIndex(keys: seq<string>, usage: map<string, Usage>, l: Limits, start: nat, now: Clock): (r: nat)
    requires start < |keys| && Covers(keys, usage)
    ensures r < |keys|
  {
    match FirstPass(keys, usage, l, start, 0, now)
    case Some(j) => Cyclic.Slot(start, j, |keys|)
    case None => start
  }

  /** The usage after that scan: the counters of every key it visited reset as
      their stamps require, up to the key returned or round the whole lap. */
  function ScanUsage(keys: seq<string>, usage: map<string, Usage>, l: Limits, start: nat, now: Clock): (r: map<string, Usage>)
    requires start < |keys| && Covers(keys, usage)
    ensures r.Keys == usage.Keys
  {
    match FirstPass(keys, usage, l, start, 0, now)
    case Some(j) => AfterVisits(keys, usage, start, j + 1, now)
    case None => AfterVisits(keys, usage, start, |keys|, now)
  }

  /** After the minute reset, a rescan at the same minute can only fail on a day
      cap: if it finds nothing, every key has used up its daily requests. */
  lemma {:induction false} WaitFailureMeansDailyCaps(keys: seq<string>, usage: map<string, Usage>, l: Limits, start: nat, now: Clock, i: nat)
    requires start < |keys| && Covers(keys, usage) && i < |keys| && l.rpm > 0 && l.rpd > 0
    requires FirstPass(keys, ZeroMinutes(usage, keys, now.minute), l, start, 0, now).None?
    ensures usage[keys[i]].lastDay == now.day && usage[keys[i]].rpdCount >= l.rpd
  {
    var z := ZeroMinutes(usage, keys, now.minute);
    var k := keys[i];
    assert k in keys;
    NoPassMeansAllCapped(keys, z, l, start, now, i);
    assert z[k] == usage[k].(rpmCount := 0, lastMinute := now.minute);
    var v := Reset(z[k], now);
    assert v.rpmCount == 0;
    assert v.rpdCount >= l.rpd;
    assert z[k].lastDay == now.day;
  }

  /** Conversely, the scan after the pause finds a key whenever some key still
      has daily requests left (or its day has turned). */
  lemma WaitFindsDailyRoom(keys: seq<string>, usage: map<string, Usage>, l: Limits, start: nat, now: Clock, i: nat)
    requires start < |keys| && Covers(keys, usage) && i < |keys| && l.rpm > 0 && l.rpd > 0
    requires usage[keys[i]].lastDay != now.day || usage[keys[i]].rpdCount < l.rpd
    ensures FirstPass(keys, ZeroMinutes(usage, keys, now.minute), l, start, 0, now).Some?
  {
    if FirstPass(keys, ZeroMinutes(usage, keys, now.minute), l, start, 0, now).None? {
      WaitFailureMeansDailyCaps(keys, usage, l, start, now, i);
    }
  }

  /** The scan of `get_available_key` from the current key round the cycle:
      each visited key's counters are reset as their stamps require, and the
      scan stops at the first key with room (at slot `idx`), or after a full lap. */
  method ScanKeys(keys: seq<string>, u0: map<string, Usage>, limits: Limits, start: nat, now: Clock)
    returns (found: bool, idx: nat, u: map<string, Usage>)
    requires start < |keys| && Covers(keys, u0)
    ensures idx < |keys|
    ensures found == FirstPass(keys, u0, limits, start, 0, now).Some?
    ensures found ==> var first := FirstPass(keys, u0, limits, start, 0, now).value;
                      idx == Cyclic.Slot(start, first, |keys|) && u == AfterVisits(keys, u0, start, first + 1, now)
    ensures !found ==> u == AfterVisits(keys, u0, start, |keys|, now)
  {
    var n := |keys|;
    var d := 0;
    idx, u := start, u0;
    while true
      invariant d < n && n == |keys|
      invariant idx == Cyclic.Slot(start, d, n)
      invariant u == AfterVisits(keys, u0, start, d, now)
      invariant FirstPass(keys, u0, limits, start, d, now) == FirstPass(keys, u0, limits, start, 0, now)
      decreases n - d
    {
      var available;
      u, available := VisitKey(keys, u0, limits, start, d, now, idx, u);
      FirstPassStep(keys, u0, limits, start, d, now);
      if available {
        return true, idx, u;
      }
      Cyclic.SlotStep(start, d, n);
      idx := (idx + 1) % n;
      d := d + 1;
      Cyclic.SlotReturns(start, d, n);
      if idx == start {
        FirstPassEnd(keys, u0, limits, start, now);
        return false, idx, u;
      }
    }
  }

  /** One visit of the scan: the key at slot `d` has its counters reset as
      needed, and has room or not. */
  method VisitKey(keys: seq<string>, u0: map<string, Usage>, limits: Limits, start: nat, d: nat, now: Clock,
                  idx: nat, u: map<string, Usage>)
    returns (next: map<string, Usage>, available: bool)
    requires start < |keys| && d < |keys| && Covers(keys, u0)
    requires idx == Cyclic.Slot(start, d, |keys|) && u == AfterVisits(keys, u0, start, d, now)
    ensures next == AfterVisits(keys, u0, start, d + 1, now)
    ensures available == PassesAt(keys, u0, limits, start, d, now)
  {
    var current := keys[idx];
    AfterVisitsStep(keys, u0, start, d, now);
    next := u[current := Reset(u[current], now)];
    available := Judge(next[current], limits) == Available;
  }

  /** The scan from visit `d` stops there when the key has room, and goes on otherwise. */
  lemma FirstPassStep(keys: seq<string>, usage: map<string, Usage>, l: Limits, start: nat, d: nat, now: Clock)
    requires start < |keys| && d < |keys| && Covers(keys, usage)
    ensures FirstPass(keys, usage, l, start, d, now)
            == if PassesAt(keys, usage, l, start, d, now) then Some(d) else FirstPass(keys, usage, l, start, d + 1, now)
  {
  }

  /** A scan with no visit left finds nothing. */
  lemma FirstPassEnd(keys: seq<string>, usage: map<string, Usage>, l: Limits, start: nat, now: Clock)
    requires start < |keys| && Covers(keys, usage)
    ensures FirstPass(keys, usage, l, start, |keys|, now).None?
  {
  }

  /** The rescan after the minute reset finds nothing only when every key,
      as the rescan leaves it, has used up its daily requests today. */
  lemma RescanFailure(keys: seq<string>, usage: map<string, Usage>, l: Limits, start: nat, later: Clock,
                      after: map<string, Usage>)
    requires start < |keys| && Covers(keys, usage) && l.rpm > 0 && l.rpd > 0
    requires FirstPass(keys, ZeroMinutes(usage, keys, later.minute), l, start, 0, later).None?
    requires after == AfterVisits(keys, ZeroMinutes(usage, keys, later.minute), start, |keys|, later)
    ensures forall i :: 0 <= i < |keys| ==> after[keys[i]].lastDay == later.day && after[keys[i]].rpdCount >= l.rpd
  {
    var zeroed := ZeroMinutes(usage, keys, later.minute);
    VisitedAll(keys, start);
    forall j | 0 <= j < |keys|
      ensures after[keys[j]].lastDay == later.day && after[keys[j]].rpdCount >= l.rpd
    {
      WaitFailureMeansDailyCaps(keys, usage, l, start, later, j);
      AfterVisitsAt(keys, zeroed, start, |keys|, later, keys[j]);
    }
  }

  class RateLimitManager {
    const keys: seq<string>
    const limits: Limits
    var modelName: string
    var keyIndex: nat
    var usage: map<string, Usage>

    ghost predicate Valid()
      reads this
    {
      |keys| > 0 && keyIndex < |keys| && Covers(keys, usage) && limits.rpm > 0 && limits.rpd > 0
    }

    /** `__init__`: the caps are looked up once, from the model name given here;
        every key starts with zero counters stamped with the current clock. */
    constructor (apiKeys: seq<string>, model: string, now: Clock)
      requires |apiKeys| > 0
      ensures Valid()
      ensures keys == apiKeys && modelName == model && limits == LimitsFor(model) && keyIndex == 0
      ensures forall k :: k in usage <==> k in apiKeys
      ensures forall k :: k in usage ==> usage[k] == Usage(0, 0, now.minute, now.day)
    {
      keys := apiKeys;
      limits := LimitsFor(model);
      modelName := model;
      keyIndex := 0;
      usage := map k | k in apiKeys :: Usage(0, 0, now.minute, now.day);
    }

    /** The assignment `rate_manager.model_name = ...`: the caps stay those of construction. */
    method SetModelName(model: string)
      modifies this`modelName
      ensures modelName == model
    {
      modelName := model;
    }

    /** `rotate_key`: the next key, cyclically. */
    method RotateKey() returns (current: string)
      requires Valid()
      modifies this`keyIndex
      ensures Valid()
      ensures keyIndex == (old(keyIndex) + 1) % |keys| && current == keys[keyIndex]
    {
      keyIndex := (keyIndex + 1) % |keys|;
      current := keys[keyIndex];
    }

    /** `reset_counters_if_needed` on one key. */
    method ResetCountersIfNeeded(key: string, now: Clock)
      requires Valid() && key in usage
      modifies this`usage
      ensures Valid()
      ensures usage == old(usage)[key := Reset(old(usage)[key], now)]
    {
      var u := usage[key];
      if now.minute != u.lastMinute {
        u := u.(rpmCount := 0, lastMinute := now.minute);
      }
      if now.day != u.lastDay {
        u := u.(rpdCount := 0, lastDay := now.day);
      }
      usage := usage[key := u];
    }

    /** `check_limits`: reset, then test the minute cap before the day cap. */
    method CheckLimits(key: string, now: Clock) returns (available: bool, reason: string)
      requires Valid() && key in usage
      modifies this`usage
      ensures Valid()
      ensures usage == old(usage)[key := Reset(old(usage)[key], now)]
      ensures available == (Judge(usage[key], limits) == Available)
      ensures reason == Judge(usage[key], limits).Reason()
    {
      ResetCountersIfNeeded(key, now);
      var u := usage[key];
      if u.rpmCount >= limits.rpm {
        return false, "RPM limit exceeded";
      }
      if u.rpdCount >= limits.rpd {
        return false, "RPD limit exceeded";
      }
      return true, "OK";
    }

    /** `record_usage`: one more request on `key`, on both counters. */
    method RecordUsage(key: string)
      requires Valid() && key in usage
      modifies this`usage
      ensures Valid()
      ensures key in usage && usage[key].rpmCount == old(usage)[key].rpmCount + 1
      ensures usage[key].rpdCount == old(usage)[key].rpdCount + 1
      ensures usage == old(usage)[key := old(usage)[key].(rpmCount := old(usage)[key].rpmCount + 1,
                                                          rpdCount := old(usage)[key].rpdCount + 1)]
    {
      var u := usage[key];
      usage := usage[key := u.(rpmCount := u.rpmCount + 1, rpdCount := u.rpdCount + 1)];
    }

    /** `get_available_key`, with one clock reading for the whole scan. The
        index walks from its start; the first key that passes is returned and
        the index stays on it; when none passes, every key has been checked
        exactly once and the index is back at its start. */
    method GetAvailableKey(now: Clock) returns (key: Option<string>)
      requires Valid()
      modifies this`usage, this`keyIndex
      ensures Valid()
      ensures var found := FirstPass(keys, old(usage), limits, old(keyIndex), 0, now);
              found.Some? ==>
                keyIndex == Cyclic.Slot(old(keyIndex), found.value, |keys|) && key == Some(keys[keyIndex])
                && usage == AfterVisits(keys, old(usage), old(keyIndex), found.value + 1, now)
      ensures var found := FirstPass(keys, old(usage), limits, old(keyIndex), 0, now);
              found.None? ==>
                keyIndex == old(keyIndex) && key == None
                && usage == AfterVisits(keys, old(usage), old(keyIndex), |keys|, now)
    ensures key == ScanKey(keys, old(usage), limits, old(keyIndex), now)
    ensures keyIndex == ScanIndex(keys, old(usage), limits, old(keyIndex), now)
    ensures usage == ScanUsage(keys, old(usage), limits, old(keyIndex), now)
    {
      var found, idx, u := ScanKeys(keys, usage, limits, keyIndex, now);
      if found {
        keyIndex := idx;
        key := Some(keys[idx]);
      } else {
        key := None;
      }
      usage := u;
    }

    /** The minute-counter loop of `wait_for_available_key`. */
    method ZeroMinuteCounters(minute: nat)
      requires Valid()
      modifies this`usage
      ensures Valid()
      ensures usage == ZeroMinutes(old(usage), keys, minute)
    {
      var i := 0;
      while i < |keys|
        invariant Valid() && i <= |keys|
        invariant usage == ZeroMinutes(old(usage), keys[..i], minute)
      {
        var k := keys[i];
        usage := usage[k := usage[k].(rpmCount := 0, lastMinute := minute)];
        i := i + 1;
        assert forall k' :: k' in keys[..i] <==> k' in keys[..i - 1] || k' == k by {
          assert keys[..i] == keys[..i - 1] + [k];
        }
      }
      assert keys[..|keys|] == keys;
    }

    /** `wait_for_available_key`: a scan at `now`; when it finds no key, or only
        the empty key (which Python treats as false), every key's minute counter
        is zeroed and restamped at `later` (day counters are kept) and one more
        scan runs at `later`. */
    method WaitForAvailableKey(now: Clock, later: Clock) returns (key: Option<string>)
      requires Valid()
      modifies this`usage, this`keyIndex
      ensures Valid()
      ensures var first := FirstPass(keys, old(usage), limits, old(keyIndex), 0, now);
              first.Some? && keys[Cyclic.Slot(old(keyIndex), first.value, |keys|)] != "" ==>
                key == Some(keys[keyIndex]) && keyIndex == Cyclic.Slot(old(keyIndex), first.value, |keys|)
      ensures key.Some? ==> key.value == keys[keyIndex]
      ensures key.None? ==> forall i :: 0 <= i < |keys| ==>
                usage[keys[i]].lastDay == later.day && usage[keys[i]].rpdCount >= limits.rpd
      ensures var first := FirstPass(keys, old(usage), limits, old(keyIndex), 0, now);
              var i1 := ScanIndex(keys, old(usage), limits, old(keyIndex), now);
              var u1 := ScanUsage(keys, old(usage), limits, old(keyIndex), now);
              var z := ZeroMinutes(u1, keys, later.minute);
              if first.Some? && keys[i1] != "" then
                key == Some(keys[i1]) && keyIndex == i1 && usage == u1
              else
                key == ScanKey(keys, z, limits, i1, later) && keyIndex == ScanIndex(keys, z, limits, i1, later)
                && usage == ScanUsage(keys, z, limits, i1, later)
    {
      key := GetAvailableKey(now);
      if key.Some? && key.value != "" {
        return;
      }
      ghost var mid := usage;
      ZeroMinuteCounters(later.minute);
      ghost var zeroed := usage;
      ghost var start := keyIndex;
      key := GetAvailableKey(later);
      if key.None? {
        RescanFailure(keys, mid, limits, start, later, usage);
      }
    }
  }
}
