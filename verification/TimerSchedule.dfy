/** Every anchored interval job on a host at its own second: the calendar
    expression a job gets, and why no two are ever due together. */
module TimerSchedule {
  import opened Common
  import opened TextOrder

  const MINUTE := 60
  const HOUR := 3600
  const DAY := 86400
  const INTERVAL_SPREAD := 150

  /** One field of an OnCalendar expression. */
  datatype Field = Any | At(value: int) | Every(first: int, step: int)

  /** `*-*-* hours:minutes:seconds UTC`. */
  datatype Calendar = Calendar(hours: Field, minutes: Field, second: int)

  /** systemd.time(7), "Calendar events": a value, any value, or a first value
      and every step after it. */
  predicate Selects(field: Field, n: int) {
    match field
    case Any => true
    case At(value) => n == value
    case Every(first, step) => first <= n && step > 0 && (n - first) % step == 0
  }

  /** The seconds since 00:00 UTC of some day at which the expression is due. */
  predicate Due(c: Calendar, t: nat) {
    Selects(c.hours, t / HOUR % 24) && Selects(c.minutes, t / MINUTE % 60) && t % MINUTE == c.second
  }

  /** `_anchored`: a fixed set of clock points each hour or day. */
  predicate Anchored(interval: int)
    requires interval > 0
  {
    (interval % MINUTE == 0 && HOUR % interval == 0) || (interval % HOUR == 0 && DAY % interval == 0)
  }

  /** `_interval_calendar`. */
  function IntervalCalendar(interval: int, position: int): Calendar {
    var hours, rest := position / HOUR, position % HOUR;
    var minutes, second := rest / MINUTE, rest % MINUTE;
    if interval == MINUTE then Calendar(Any, Any, second)
    else if interval < HOUR then Calendar(Any, Every(minutes, interval / MINUTE), second)
    else if interval == HOUR then Calendar(Any, At(minutes), second)
    else if interval < DAY then Calendar(Every(hours, interval / HOUR), At(minutes), second)
    else Calendar(At(hours), At(minutes), second)
  }

  // ---- arithmetic ----

  lemma DivisionIsUnique(n: int, d: int, q: int, r: int)
    requires 0 <= r < d && n == q * d + r
    ensures n / d == q && n % d == r
  {
    var x := n / d - q;
    assert x * d == n / d * d - q * d == r - n % d;
    NoMultipleBetween(x, d);
  }

  lemma NoMultipleBetween(x: int, d: int)
    requires d > 0 && -d < x * d < d
    ensures x == 0
  {
    assert (x - 1) * d == x * d - d && (x + 1) * d == x * d + d;
    assert x >= 1 ==> (x - 1) * d >= 0;
    assert x <= -1 ==> (x + 1) * d <= 0;
  }

  lemma Regroup(a: int, b: int, d: int, k: int)
    ensures (a * k + b) * d == a * (d * k) + d * b
  {
    assert (a * k) * d == a * (d * k);
  }

  lemma RemainderFits(b: nat, r: nat, d: nat, k: nat)
    requires b < k && r < d
    ensures 0 <= d * b + r < d * k
  {
    ScaleKeepsOrder(b + 1, k, d);
    assert (b + 1) * d == d * b + d && k * d == d * k;
  }

  /** Remainders of the quotient and the remainder: n % (d * k) splits at d. */
  lemma ModSplits(n: nat, d: nat, k: nat)
    requires d > 0 && k > 0
    ensures d * k > 0 && n % (d * k) == d * (n / d % k) + n % d
  {
    var q, r := n / d, n % d;
    var a, b := q / k, q % k;
    assert q == a * k + b;
    assert n == q * d + r;
    Regroup(a, b, d, k);
    RemainderFits(b, r, d, k);
    DivisionIsUnique(n, d * k, a, d * b + r);
  }

  /** A divisor's remainder may be taken first. */
  lemma ModOfMod(n: nat, m: nat, k: nat)
    requires k > 0 && m > 0 && m % k == 0
    ensures n % m % k == n % k
  {
    var q := m / k;
    assert m == q * k;
    var a, b := n / m, n % m;
    var c, d := b / k, b % k;
    assert n == a * (q * k) + (c * k + d);
    assert a * (q * k) + c * k == (a * q + c) * k;
    DivisionIsUnique(n, k, a * q + c, d);
  }

  lemma StepsFrom(n: nat, first: nat, step: nat)
    requires first < step
    ensures (first <= n && (n - first) % step == 0) <==> n % step == first
  {
    if first <= n && (n - first) % step == 0 {
      var q := (n - first) / step;
      assert n == q * step + first;
      DivisionIsUnique(n, step, q, first);
    }
    if n % step == first {
      var q := n / step;
      assert n - first == q * step + 0;
      DivisionIsUnique(n - first, step, q, 0);
      assert first <= n by { assert q * step >= 0; }
    }
  }

  // ---- what a calendar expression denotes ----

  lemma MinuteStepDenotes(k: nat, position: nat, t: nat)
    requires 0 < k && 60 % k == 0 && position < MINUTE * k
    ensures t % (MINUTE * k) == position <==> t / MINUTE % 60 % k == position / MINUTE && t % MINUTE == position % MINUTE
    ensures position / MINUTE < k
  {
    ModSplits(t, MINUTE, k);
    ModOfMod(t / MINUTE, 60, k);
  }

  lemma HourStepDenotes(k: nat, position: nat, t: nat)
    requires 0 < k && 24 % k == 0 && position < HOUR * k
    ensures t % (HOUR * k) == position <==>
            t / HOUR % 24 % k == position / HOUR && t / MINUTE % 60 == position % HOUR / MINUTE && t % MINUTE == position % MINUTE
    ensures position / HOUR < k
  {
    ModSplits(t, HOUR, k);
    ModOfMod(t / HOUR, 24, k);
    ModSplits(t, MINUTE, 60);
    ModSplits(position, MINUTE, 60);
  }

  lemma MinuteCalendar(k: nat, position: nat, t: nat)
    requires 0 < k < 60 && 60 % k == 0 && position < MINUTE * k
    ensures Due(IntervalCalendar(MINUTE * k, position), t) <==> t % (MINUTE * k) == position
  {
    MinuteStepDenotes(k, position, t);
    StepsFrom(t / MINUTE % 60, position / MINUTE, k);
    var c := IntervalCalendar(MINUTE * k, position);
    if k == 1 {
      assert c == Calendar(Any, Any, position);
    } else {
      assert c == Calendar(Any, Every(position / MINUTE, k), position % MINUTE);
    }
  }

  lemma HourCalendar(k: nat, position: nat, t: nat)
    requires 0 < k <= 24 && 24 % k == 0 && position < HOUR * k
    ensures Due(IntervalCalendar(HOUR * k, position), t) <==> t % (HOUR * k) == position
  {
    HourStepDenotes(k, position, t);
    StepsFrom(t / HOUR % 24, position / HOUR, k);
    ModOfMod(position, HOUR, MINUTE);
    var c := IntervalCalendar(HOUR * k, position);
    var minutes := At(position % HOUR / MINUTE);
    if k == 1 {
      assert c == Calendar(Any, minutes, position % MINUTE);
    } else if k < 24 {
      assert c == Calendar(Every(position / HOUR, k), minutes, position % MINUTE);
    } else {
      assert c == Calendar(At(position / HOUR), minutes, position % MINUTE);
    }
  }

  /** The expression is due exactly `position` seconds into each cycle. */
  lemma CalendarDenotes(interval: int, position: int, t: nat)
    requires interval > 0 && Anchored(interval) && 0 <= position < interval
    ensures Due(IntervalCalendar(interval, position), t) <==> t % interval == position
  {
    if interval < HOUR {
      var k := interval / MINUTE;
      assert interval == MINUTE * k;
      DividesDown(HOUR, MINUTE, k);
      MinuteCalendar(k, position, t);
    } else {
      var k := interval / HOUR;
      if HOUR % interval == 0 { DivisorAtMost(HOUR, interval); }
      else { DivisorAtMost(DAY, interval); }
      assert interval == HOUR * k;
      DividesDown(DAY, HOUR, k);
      HourCalendar(k, position, t);
    }
  }

  /** A divisor that is a multiple of `unit` divides the whole counted in units. */
  lemma DividesDown(whole: nat, unit: nat, k: nat)
    requires unit > 0 && k > 0 && whole % unit == 0 && unit * k > 0 && whole % (unit * k) == 0
    ensures whole / unit % k == 0
  {
    ModSplits(whole, unit, k);
    assert unit * (whole / unit % k) == 0;
    NoMultipleBetween(whole / unit % k, unit);
  }

  lemma DivisorAtMost(n: nat, d: nat)
    requires n > 0 && d > 0 && n % d == 0
    ensures d <= n
  {
  }

  // ---- bands and seconds ----

  /** One declared interval job of an owner, by name. */
  datatype Job = Job(interval: int, startup: int)
  type Jobs = map<string, Job>

  ghost predicate Declared(jobs: Jobs) {
    forall name | name in jobs :: jobs[name].interval > 0
  }

  /** The jobs that get a second: those whose interval is a fixed set of clock points. */
  function AnchoredJobs(jobs: Jobs): set<string>
    requires Declared(jobs)
  {
    set name | name in jobs && Anchored(jobs[name].interval)
  }

  /** Shortest interval first, then startup, then name. */
  predicate Earlier(jobs: Jobs, a: string, b: string)
    requires a in jobs && b in jobs
  {
    jobs[a].interval < jobs[b].interval ||
    (jobs[a].interval == jobs[b].interval &&
     (jobs[a].startup < jobs[b].startup || (jobs[a].startup == jobs[b].startup && TextLess(a, b))))
  }

  function Ahead(jobs: Jobs, among: set<string>, name: string): set<string>
    requires name in jobs && among <= jobs.Keys
  {
    set other | other in among && Earlier(jobs, other, name)
  }

  /** A job's place in the sorted list of its owner's anchored jobs. */
  function Rank(jobs: Jobs, name: string): nat
    requires Declared(jobs) && name in AnchoredJobs(jobs)
  {
    |Ahead(jobs, AnchoredJobs(jobs), name)|
  }

  function Band(slots: nat): nat
    requires slots > 0
  {
    if 60 / slots > 1 then 60 / slots else 1
  }

  function Step(band: nat, count: nat): nat {
    if count > 0 && band / count > 1 then band / count else 1
  }

  /** `_calendar_seconds`, for one of the owner's anchored jobs. */
  function CalendarSecond(jobs: Jobs, index: nat, slots: nat, name: string): nat
    requires Declared(jobs) && slots > 0 && name in AnchoredJobs(jobs)
  {
    index * Band(slots) + Rank(jobs, name) * Step(Band(slots), |AnchoredJobs(jobs)|) % Band(slots)
  }

  lemma EarlierIsTotal(jobs: Jobs, a: string, b: string)
    requires a in jobs && b in jobs && a != b
    ensures Earlier(jobs, a, b) || Earlier(jobs, b, a)
    ensures !(Earlier(jobs, a, b) && Earlier(jobs, b, a))
  {
    TextLessTotal(a, b);
    if TextLess(a, b) { TextLessAsymmetric(a, b); }
    if TextLess(b, a) { TextLessAsymmetric(b, a); }
  }

  lemma EarlierChains(jobs: Jobs, a: string, b: string, c: string)
    requires a in jobs && b in jobs && c in jobs && Earlier(jobs, a, b) && Earlier(jobs, b, c)
    ensures Earlier(jobs, a, c)
  {
    if TextLess(a, b) && TextLess(b, c) { TextLessChains(a, b, c); }
  }

  lemma SubsetSize<T>(a: set<T>, b: set<T>)
    requires a <= b
    ensures |a| <= |b| && (a != b ==> |a| < |b|)
  {
    assert b == a + (b - a);
  }

  /** Ranks are places: distinct, and below the number of jobs. */
  lemma RankOrders(jobs: Jobs, a: string, b: string)
    requires Declared(jobs) && a in AnchoredJobs(jobs) && b in AnchoredJobs(jobs)
    ensures Rank(jobs, a) < |AnchoredJobs(jobs)|
    ensures Earlier(jobs, a, b) ==> Rank(jobs, a) < Rank(jobs, b)
    ensures a != b ==> Rank(jobs, a) != Rank(jobs, b)
  {
    RankBelow(jobs, a);
    if a != b {
      EarlierIsTotal(jobs, a, b);
      if Earlier(jobs, a, b) { RankRises(jobs, a, b); } else { RankRises(jobs, b, a); }
    } else {
      NotEarlierThanItself(jobs, a);
    }
  }

  lemma NotEarlierThanItself(jobs: Jobs, a: string)
    requires a in jobs
    ensures !Earlier(jobs, a, a)
  {
    if TextLess(a, a) { TextLessAsymmetric(a, a); }
  }

  lemma RankBelow(jobs: Jobs, a: string)
    requires Declared(jobs) && a in AnchoredJobs(jobs)
    ensures Rank(jobs, a) < |AnchoredJobs(jobs)|
  {
    NotEarlierThanItself(jobs, a);
    assert a !in Ahead(jobs, AnchoredJobs(jobs), a);
    SubsetSize(Ahead(jobs, AnchoredJobs(jobs), a), AnchoredJobs(jobs));
  }

  lemma RankRises(jobs: Jobs, a: string, b: string)
    requires Declared(jobs) && a in AnchoredJobs(jobs) && b in AnchoredJobs(jobs) && Earlier(jobs, a, b)
    ensures Rank(jobs, a) < Rank(jobs, b)
  {
    var all := AnchoredJobs(jobs);
    forall c | c in Ahead(jobs, all, a) ensures c in Ahead(jobs, all, b) { EarlierChains(jobs, c, a, b); }
    NotEarlierThanItself(jobs, a);
    assert a in Ahead(jobs, all, b) && a !in Ahead(jobs, all, a);
    SubsetSize(Ahead(jobs, all, a), Ahead(jobs, all, b));
  }

  lemma {:induction false} LastOf(jobs: Jobs, among: set<string>) returns (last: string)
    requires among <= jobs.Keys && among != {}
    ensures last in among && forall other | other in among && other != last :: Earlier(jobs, other, last)
    decreases |among|
  {
    last :| last in among;
    if among != {last} {
      var rest := LastOf(jobs, among - {last});
      EarlierIsTotal(jobs, rest, last);
      if Earlier(jobs, last, rest) {
        last := rest;
      } else {
        forall other | other in among && other != last ensures Earlier(jobs, other, last) {
          if other != rest { EarlierChains(jobs, other, rest, last); }
        }
      }
    }
  }

  /** Every place is some job's. */
  lemma {:induction false} PlaceIsTaken(jobs: Jobs, among: set<string>, place: nat) returns (name: string)
    requires among <= jobs.Keys && place < |among|
    ensures name in among && |Ahead(jobs, among, name)| == place
    decreases |among|
  {
    var last := LastOf(jobs, among);
    var fewer := among - {last};
    if place == |among| - 1 {
      name := last;
      NotEarlierThanItself(jobs, last);
      assert Ahead(jobs, among, last) == fewer;
    } else {
      name := PlaceIsTaken(jobs, fewer, place);
      EarlierIsTotal(jobs, name, last);
      assert Ahead(jobs, among, name) == Ahead(jobs, fewer, name);
    }
  }

  lemma BandsFit(slots: nat, index: nat)
    requires 0 < slots <= 60 && index < slots
    ensures Band(slots) * slots <= 60 && index * Band(slots) + Band(slots) <= 60
  {
    var band := Band(slots);
    assert 60 / slots >= 1 by { DivisionIsUnique(60, slots, 60 / slots, 60 % slots); }
    assert band == 60 / slots && band * slots <= 60;
    assert (index + 1) * band <= slots * band;
  }

  lemma ScaleKeepsOrder(a: nat, b: nat, factor: nat)
    requires a <= b
    ensures a * factor <= b * factor
  {
  }

  /** While a band holds all its owner's jobs, each keeps its own step of it. */
  lemma StepsFit(band: nat, count: nat, rank: nat)
    requires rank < count <= band
    ensures rank * Step(band, count) % band == rank * Step(band, count) < band
  {
    var step := Step(band, count);
    assert band / count >= 1 by { DivisionIsUnique(band, count, band / count, band % count); }
    assert step * count <= band;
    assert step >= 1;
    ScaleKeepsOrder(rank + 1, count, step);
    assert (rank + 1) * step == rank * step + step;
    assert 0 <= rank * step < band;
    DivisionIsUnique(rank * step, band, 0, rank * step);
  }

  /** A job's second lies in its owner's own band. */
  lemma SecondInBand(jobs: Jobs, index: nat, slots: nat, name: string)
    requires Declared(jobs) && slots > 0 && name in AnchoredJobs(jobs)
    ensures var s := CalendarSecond(jobs, index, slots, name);
            index * Band(slots) <= s < index * Band(slots) + Band(slots)
  {
  }

  /** An owner's jobs have distinct seconds exactly when its band holds them all. */
  lemma SecondsDistinct(jobs: Jobs, index: nat, slots: nat)
    requires Declared(jobs) && slots > 0
    ensures |AnchoredJobs(jobs)| <= Band(slots) <==>
            forall a, b | a in AnchoredJobs(jobs) && b in AnchoredJobs(jobs) && a != b ::
              CalendarSecond(jobs, index, slots, a) != CalendarSecond(jobs, index, slots, b)
  {
    var all, band := AnchoredJobs(jobs), Band(slots);
    if |all| <= band {
      forall a, b | a in all && b in all && a != b
        ensures CalendarSecond(jobs, index, slots, a) != CalendarSecond(jobs, index, slots, b)
      {
        SecondsApart(jobs, index, slots, a, b);
      }
    } else {
      var a, b := Crowded(jobs, index, slots);
    }
  }

  /** A band with too many jobs gives its first and its `band`-th the same second. */
  lemma Crowded(jobs: Jobs, index: nat, slots: nat) returns (a: string, b: string)
    requires Declared(jobs) && slots > 0 && |AnchoredJobs(jobs)| > Band(slots)
    ensures a in AnchoredJobs(jobs) && b in AnchoredJobs(jobs) && a != b
    ensures CalendarSecond(jobs, index, slots, a) == CalendarSecond(jobs, index, slots, b)
  {
    var all, band := AnchoredJobs(jobs), Band(slots);
    a := PlaceIsTaken(jobs, all, 0);
    b := PlaceIsTaken(jobs, all, band);
    FirstOfNextRound(band, |all|);
    assert a != b by { assert |Ahead(jobs, all, a)| != |Ahead(jobs, all, b)|; }
  }

  lemma FirstOfNextRound(band: nat, count: nat)
    requires 0 < band < count
    ensures 0 * Step(band, count) % band == band * Step(band, count) % band
  {
    DivisionIsUnique(band, count, 0, band);
    DivisionIsUnique(band, band, 1, 0);
  }

  lemma SecondsApart(jobs: Jobs, index: nat, slots: nat, a: string, b: string)
    requires Declared(jobs) && slots > 0 && |AnchoredJobs(jobs)| <= Band(slots)
    requires a in AnchoredJobs(jobs) && b in AnchoredJobs(jobs) && a != b
    ensures CalendarSecond(jobs, index, slots, a) != CalendarSecond(jobs, index, slots, b)
  {
    RankOrders(jobs, a, b);
    RankOrders(jobs, b, a);
    var step := Step(Band(slots), |AnchoredJobs(jobs)|);
    StepsFit(Band(slots), |AnchoredJobs(jobs)|, Rank(jobs, a));
    StepsFit(Band(slots), |AnchoredJobs(jobs)|, Rank(jobs, b));
    DistinctProducts(Rank(jobs, a), Rank(jobs, b), step);
  }

  lemma DistinctProducts(x: nat, y: nat, step: nat)
    requires x != y && step > 0
    ensures x * step != y * step
  {
    if x < y { assert (x + 1) * step <= y * step; } else { assert (y + 1) * step <= x * step; }
  }

  /** Seconds are seconds of a minute, for every owner, exactly up to 60 slots. */
  lemma SecondsAreSeconds(jobs: Jobs, slots: nat, name: string)
    requires Declared(jobs) && slots > 0 && name in AnchoredJobs(jobs)
    ensures slots <= 60 <==> forall index: nat | index < slots :: CalendarSecond(jobs, index, slots, name) < 60
  {
    if slots <= 60 {
      forall index: nat | index < slots ensures CalendarSecond(jobs, index, slots, name) < 60 {
        BandsFit(slots, index);
        SecondInBand(jobs, index, slots, name);
      }
    } else {
      assert Band(slots) == 1 by { DivisionIsUnique(60, slots, 0, 60); }
      SecondInBand(jobs, slots - 1, slots, name);
      assert CalendarSecond(jobs, slots - 1, slots, name) >= 60;
    }
  }

  // ---- host slots and resolved schedules ----

  function IndexOf(fleets: seq<string>, here: string): nat
    requires here in fleets
    ensures IndexOf(fleets, here) < |fleets| && fleets[IndexOf(fleets, here)] == here
  {
    if fleets[0] == here then 0 else 1 + IndexOf(fleets[1..], here)
  }

  datatype Owner = Host | Fleet(directory: string) | Unplaced

  /** `_host_timer_slot`: fleets in enumeration order, then the host's own jobs. */
  function HostSlot(fleets: seq<string>, owner: Owner): (nat, nat) {
    var slots := (if |fleets| > 1 then |fleets| else 1) + 1;
    match owner
    case Host => (slots - 1, slots)
    case Fleet(directory) => (if directory in fleets then IndexOf(fleets, directory) else 0, slots)
    case Unplaced => (0, slots)
  }

  /** Distinct owners with a place on the host have distinct slots below the count. */
  lemma SlotsDistinct(fleets: seq<string>, a: Owner, b: Owner)
    requires Placed(fleets, a) && Placed(fleets, b)
    ensures HostSlot(fleets, a).0 < HostSlot(fleets, a).1 == HostSlot(fleets, b).1
    ensures a != b ==> HostSlot(fleets, a).0 != HostSlot(fleets, b).0
  {
  }

  predicate Placed(fleets: seq<string>, owner: Owner) {
    owner.Host? || (owner.Fleet? && owner.directory in fleets)
  }

  datatype TimerConfig = TimerConfig(schedule: Option<string>, interval: int, observed: Option<int>, startup: Option<int>)

  datatype Schedule =
    | Fixed(expression: string)
    | Repeating(seconds: int, startup: int, phase: int, calendar: Option<Calendar>)

  function Interval(config: TimerConfig): int {
    if config.observed.Some? then config.observed.value else config.interval
  }

  function StartupDelay(config: TimerConfig): int {
    if config.startup.Some? then config.startup.value
    else if Interval(config) < 900 then Interval(config) else 900
  }

  /** `_interval_phase_s`. */
  function Phase(interval: int, slot: (nat, nat)): int
    requires slot.1 > 0
  {
    slot.0 * ((if interval < INTERVAL_SPREAD then interval else INTERVAL_SPREAD) / slot.1)
  }

  /** Seconds into each cycle: startup rounded down to the minute, a minute
      later per slot, at the job's second. */
  function Position(interval: int, startup: int, index: nat, second: nat): int
    requires interval >= MINUTE
  {
    (startup % interval / MINUTE + index) % (interval / MINUTE) * MINUTE + second
  }

  /** `_resolve_timer_schedule`. */
  function Resolve(config: TimerConfig, slot: Option<(nat, nat)>, second: Option<nat>): Schedule
    requires Interval(config) > 0 && (slot.Some? ==> slot.value.1 > 0)
  {
    if config.schedule.Some? then Fixed(config.schedule.value)
    else
      var interval, startup := Interval(config), StartupDelay(config);
      if slot.Some? && second.Some? && Anchored(interval) then
        Repeating(interval, startup, 0,
                  Some(IntervalCalendar(interval, Position(interval, startup, slot.value.0, second.value))))
      else
        var phase := if slot.Some? then Phase(interval, slot.value) else 0;
        Repeating(interval, startup + phase, phase, None)
  }

  lemma AnchoredAtLeastAMinute(interval: int)
    requires interval > 0 && Anchored(interval)
    ensures interval >= MINUTE && interval % MINUTE == 0
  {
    if interval % HOUR == 0 { ModOfMod(interval, HOUR, MINUTE); }
  }

  /** An anchored job is due only at its own second of the minute, once in each cycle. */
  lemma DueAtItsSecond(config: TimerConfig, slot: (nat, nat), second: nat, t: nat)
    requires config.schedule.None? && Interval(config) > 0 && Anchored(Interval(config))
    requires slot.1 > 0 && second < 60
    ensures var c := Resolve(config, Some(slot), Some(second)).calendar;
            && c.Some?
            && (Due(c.value, t) <==>
                t % Interval(config) == Position(Interval(config), StartupDelay(config), slot.0, second))
            && (Due(c.value, t) ==> t % MINUTE == second)
  {
    var interval, startup := Interval(config), StartupDelay(config);
    AnchoredAtLeastAMinute(interval);
    var position := Position(interval, startup, slot.0, second);
    var minutes := (startup % interval / MINUTE + slot.0) % (interval / MINUTE);
    assert 0 <= minutes < interval / MINUTE;
    CalendarDenotes(interval, position, t);
    ModOfMod(t, interval, MINUTE);
    DivisionIsUnique(position, MINUTE, minutes, second);
  }

  /** The unit of one owner's anchored job. */
  function UnitCalendar(fleets: seq<string>, owner: Owner, jobs: Jobs, name: string): Schedule
    requires Declared(jobs) && name in AnchoredJobs(jobs)
  {
    var slot := HostSlot(fleets, owner);
    Resolve(TimerConfig(None, jobs[name].interval, None, Some(jobs[name].startup)), Some(slot),
            Some(CalendarSecond(jobs, slot.0, slot.1, name)))
  }

  /** An owner with a place on the host and no more anchored jobs than its band holds. */
  ghost predicate Fits(fleets: seq<string>, owner: Owner, jobs: Jobs) {
    Placed(fleets, owner) && Declared(jobs) && |AnchoredJobs(jobs)| <= Band(HostSlot(fleets, owner).1)
  }

  /** No two anchored units on the host are ever due in the same second. */
  lemma NeverTogether(fleets: seq<string>, jobs: map<Owner, Jobs>, a: Owner, x: string, b: Owner, y: string, t: nat)
    requires HostSlot(fleets, Host).1 <= 60
    requires a in jobs && b in jobs && Fits(fleets, a, jobs[a]) && Fits(fleets, b, jobs[b])
    requires x in AnchoredJobs(jobs[a]) && y in AnchoredJobs(jobs[b])
    requires a != b || x != y
    requires Due(UnitCalendar(fleets, a, jobs[a], x).calendar.value, t)
    ensures !Due(UnitCalendar(fleets, b, jobs[b], y).calendar.value, t)
  {
    SlotsDistinct(fleets, a, b);
    var (i, slots) := HostSlot(fleets, a);
    var j := HostSlot(fleets, b).0;
    var p, q := CalendarSecond(jobs[a], i, slots, x), CalendarSecond(jobs[b], j, slots, y);
    SecondsAreSeconds(jobs[a], slots, x);
    SecondsAreSeconds(jobs[b], slots, y);
    DueAtItsSecond(TimerConfig(None, jobs[a][x].interval, None, Some(jobs[a][x].startup)), (i, slots), p, t);
    DueAtItsSecond(TimerConfig(None, jobs[b][y].interval, None, Some(jobs[b][y].startup)), (j, slots), q, t);
    if a == b {
      SecondsApart(jobs[a], i, slots, x, y);
    } else {
      SecondInBand(jobs[a], i, slots, x);
      SecondInBand(jobs[b], j, slots, y);
      BandsApart(i, j, Band(slots), p, q);
    }
  }

  lemma BandsApart(i: nat, j: nat, band: nat, p: nat, q: nat)
    requires i != j && i * band <= p < i * band + band && j * band <= q < j * band + band
    ensures p != q
  {
    if i < j { assert (i + 1) * band <= j * band; } else { assert (j + 1) * band <= i * band; }
  }
}
