/** In-process meters: named counters that are marked by the application and
    reported once per interval, plus gauges registered by key.  Each report
    cycle takes the change of every counter since the previous cycle, turns it
    into a rate and, when a push gateway is configured, pushes that rate to it. */
module Meters {
  import opened Common
  import opened Wire

  /** A counter of events with the value it had at the last report. */
  class Counter {
    var count: int
    var countPrev: int

    /** The value at the last report never exceeds the current value. */
    ghost predicate Valid()
      reads this
    {
      0 <= countPrev <= count
    }

    constructor ()
      ensures Valid()
      ensures count == 0 && countPrev == 0
    {
      count := 0;
      countPrev := 0;
    }

    method Increment()
      requires Valid()
      modifies this
      ensures Valid()
      ensures count == old(count) + 1 && countPrev == old(countPrev)
    {
      count := count + 1;
    }

    method Get() returns (c: int)
      requires Valid()
      ensures c == count && c >= countPrev
    {
      c := count;
    }

    /** The number of events since the last call, which also becomes the last
        call's reference point. */
    method Delta() returns (d: int)
      requires Valid()
      modifies this
      ensures Valid()
      ensures d >= 0 && d == old(count) - old(countPrev)
      ensures count == old(count) && countPrev == count
    {
      d := count - countPrev;
      countPrev := count;
    }

    method Reset()
      modifies this
      ensures Valid()
      ensures count == 0 && countPrev == 0
    {
      count := 0;
      countPrev := 0;
    }
  }

  /** Two deltas in a row: the second one sees no new events. */
  method DeltaTwice(c: Counter) returns (first: int, second: int)
    requires c.Valid()
    modifies c
    ensures c.Valid()
    ensures first == old(c.count) - old(c.countPrev)
    ensures second == 0
    ensures c.count == old(c.count) == c.countPrev
  {
    first := c.Delta();
    second := c.Delta();
  }

  // ---------------------------------------------------------------------
  // Rate selection
  // ---------------------------------------------------------------------

  datatype Unit = ItPerSec | SecPerIt

  /** A rate as it is about to be rendered: the number, its unit and the
      number of decimal digits it is shown with. */
  datatype Rate = Rate(value: real, unit: Unit, digits: nat)

  /** The only exception the report cycle can meet is a division by zero. */
  datatype Outcome<+T> = Ok(value: T) | ZeroDivisionError

  /** The rate of `n` events over `interval` seconds.  A slow rate (under 0.1
      events per second) is shown upside down, as seconds per event; a rate
      of exactly zero has no upside-down form and raises. */
  function FmtRate(n: int, interval: real): (r: Outcome<Rate>)
    ensures r.ZeroDivisionError? <==> interval > 0.0 && n == 0
    ensures interval <= 0.0 ==> r == Ok(Rate(0.0, ItPerSec, 1))
    ensures r.Ok? && interval > 0.0 ==>
      (r.value.unit == SecPerIt <==> (n as real) / interval < 0.1)
    ensures r.Ok? && r.value.unit == ItPerSec ==>
      r.value.digits == 1 && r.value.value * interval == (if interval > 0.0 then n as real else 0.0)
    ensures r.Ok? && r.value.unit == SecPerIt ==>
      r.value.digits == 0 && r.value.value * (n as real) == interval
  {
    if interval <= 0.0 then Ok(Rate(0.0, ItPerSec, 1))
    else
      var rate := (n as real) / interval;
      if rate < 0.1 then
        if rate == 0.0 then ZeroDivisionError else Ok(Rate(1.0 / rate, SecPerIt, 0))
      else Ok(Rate(rate, ItPerSec, 1))
  }

  /** A slow but non-zero positive rate is shown as more than ten seconds per event. */
  lemma SlowRateExceedsTen(n: int, interval: real)
    requires n > 0 && interval > 0.0
    requires FmtRate(n, interval).Ok? && FmtRate(n, interval).value.unit == SecPerIt
    ensures FmtRate(n, interval).value.value > 10.0
  {
    var rate := (n as real) / interval;
    assert 0.0 < rate < 0.1;
    assert FmtRate(n, interval).value.value == 1.0 / rate;
    assert (1.0 / rate) * rate == 1.0;
  }

  // ---------------------------------------------------------------------
  // Push gateway requests
  // ---------------------------------------------------------------------

  /** Where the meters are pushed: the gateway address, the metric name, the
      host name, and the report interval in seconds. */
  datatype Conf = Conf(interval: real, gateway: Option<string>, promKey: Option<string>, hostname: string)

  /** A push of one rate: the address and the UTF-8 encoded text exposition body. */
  datatype Push = Push(url: string, body: seq<Byte>)

  /** `s` with `prefix` removed from the front and `suffix` from the back. */
  function Strip(s: string, prefix: string, suffix: string): (r: Option<string>)
    ensures r.Some? ==> s == prefix + r.value + suffix
  {
    if |prefix| + |suffix| <= |s| && s[..|prefix|] == prefix && s[|s| - |suffix|..] == suffix
    then Some(s[|prefix|..|s| - |suffix|])
    else None
  }

  lemma StripConcat(prefix: string, middle: string, suffix: string)
    ensures Strip(prefix + middle + suffix, prefix, suffix) == Some(middle)
  {
    var s := prefix + middle + suffix;
    assert s[..|prefix|] == prefix;
    assert s[|s| - |suffix|..] == suffix;
    assert s[|prefix|..|s| - |suffix|] == middle;
  }

  /** The gateway address of one job on this host. */
  function JobUrl(gateway: string, job: string, hostname: string): (u: string)
    ensures |u| == |gateway| + |job| + |hostname| + 23
    ensures StartsWith(u, gateway)
  {
    gateway + "/metrics/job/" + job + "/instance/" + hostname
  }

  /** The job named by a gateway address (the reading of `JobUrl`). */
  function JobOf(gateway: string, hostname: string, url: string): Option<string> {
    Strip(url, gateway + "/metrics/job/", "/instance/" + hostname)
  }

  /** Different jobs are pushed to different addresses. */
  lemma JobUrlRoundTrip(gateway: string, job: string, hostname: string)
    ensures JobOf(gateway, hostname, JobUrl(gateway, job, hostname)) == Some(job)
  {
    var u := JobUrl(gateway, job, hostname);
    assert u == (gateway + "/metrics/job/") + job + ("/instance/" + hostname);
    StripConcat(gateway + "/metrics/job/", job, "/instance/" + hostname);
  }

  /** The text body of a push: a gauge declaration for the metric name, then
      the sample line. */
  function BodyText(promKey: string, value: string): (t: string)
    ensures |t| == 2 * |promKey| + |value| + 16
  {
    "# TYPE " + promKey + " gauge\n" + promKey + " " + value + "\n"
  }

  /** The sample value of a body (the reading of `BodyText`). */
  function ValueOf(promKey: string, text: string): Option<string> {
    Strip(text, "# TYPE " + promKey + " gauge\n" + promKey + " ", "\n")
  }

  lemma BodyTextRoundTrip(promKey: string, value: string)
    ensures ValueOf(promKey, BodyText(promKey, value)) == Some(value)
  {
    assert BodyText(promKey, value) == ("# TYPE " + promKey + " gauge\n" + promKey + " ") + value + "\n";
    StripConcat("# TYPE " + promKey + " gauge\n" + promKey + " ", value, "\n");
  }

  /** The push of one rendered rate for `job`, made only when both the gateway
      and the metric name are set to non-empty strings. */
  function PushFor(conf: Conf, job: string, value: string): (p: Option<Push>)
    ensures p.Some? <==> Truthy(conf.gateway) && Truthy(conf.promKey)
    ensures p.Some? ==> JobOf(conf.gateway.value, conf.hostname, p.value.url) == Some(job)
  {
    if Truthy(conf.gateway) && Truthy(conf.promKey) then
      JobUrlRoundTrip(conf.gateway.value, job, conf.hostname);
      Some(Push(JobUrl(conf.gateway.value, job, conf.hostname), Utf8(BodyText(conf.promKey.value, value))))
    else None
  }

  /** A push body is valid UTF-8 and reads back as the text exposition of the
      metric name and the value. */
  lemma PushBodyDecodes(conf: Conf, job: string, value: string)
    requires PushFor(conf, job, value).Some?
    ensures DecodeUtf8(PushFor(conf, job, value).value.body) == Some(BodyText(conf.promKey.value, value))
    ensures ValueOf(conf.promKey.value, BodyText(conf.promKey.value, value)) == Some(value)
  {
    DecodeUtf8OfUtf8(BodyText(conf.promKey.value, value));
    BodyTextRoundTrip(conf.promKey.value, value);
  }

  /** The delete request made for `job` at shutdown, under the same condition
      as a push. */
  function DeleteFor(conf: Conf, job: string): (u: Option<string>)
    ensures u.Some? <==> Truthy(conf.gateway) && Truthy(conf.promKey)
    ensures u.Some? ==> JobOf(conf.gateway.value, conf.hostname, u.value) == Some(job)
  {
    if Truthy(conf.gateway) && Truthy(conf.promKey) then
      JobUrlRoundTrip(conf.gateway.value, job, conf.hostname);
      Some(JobUrl(conf.gateway.value, job, conf.hostname))
    else None
  }

  /** A delete removes exactly what a push for the same job created. */
  lemma DeleteMatchesPush(conf: Conf, job: string, value: string)
    ensures DeleteFor(conf, job).Some? == PushFor(conf, job, value).Some?
    ensures DeleteFor(conf, job).Some? ==> DeleteFor(conf, job).value == PushFor(conf, job, value).value.url
  {
  }

  /** The delete requests of all jobs, in order. */
  function DeleteAll(conf: Conf, jobs: seq<string>): (urls: seq<string>)
    ensures |urls| == if Truthy(conf.gateway) && Truthy(conf.promKey) then |jobs| else 0
    ensures forall i | 0 <= i < |urls| :: JobOf(conf.gateway.value, conf.hostname, urls[i]) == Some(jobs[i])
  {
    if jobs == [] then []
    else match DeleteFor(conf, jobs[0])
      case None => DeleteAll(conf, jobs[1..])
      case Some(u) => [u] + DeleteAll(conf, jobs[1..])
  }

  // ---------------------------------------------------------------------
  // One report cycle, as a function of the counters' values
  // ---------------------------------------------------------------------

  /** What the cycle reads for one meter: its key, its delta and its total. */
  datatype Row = Row(key: string, delta: int, total: int)

  /** Every key of `keys` has a (count, count at last report) pair in `counts`. */
  ghost predicate Covers(counts: map<string, (int, int)>, keys: seq<string>) {
    forall k | k in keys :: k in counts
  }

  /** What the cycle reads for the meter under `key`: the events since the
      last report, and the total. */
  function RowOf(counts: map<string, (int, int)>, key: string): (row: Row)
    requires key in counts
    ensures row.key == key && row.total == counts[key].0 && row.delta == counts[key].0 - counts[key].1
  {
    Row(key, counts[key].0 - counts[key].1, counts[key].0)
  }

  /** The handling of one meter in cycle `nCycle`: its rate over one interval
      and its average over the whole run are both formatted (either may
      raise), and then its rate is pushed.  `render` turns a rate into text. */
  function Step(row: Row, conf: Conf, nCycle: nat, render: Rate -> string): (r: Outcome<seq<Push>>)
    requires nCycle >= 1
    ensures r.ZeroDivisionError? <==> conf.interval > 0.0 && (row.delta == 0 || row.total == 0)
    ensures r.Ok? ==> |r.value| == if Truthy(conf.gateway) && Truthy(conf.promKey) then 1 else 0
    ensures r.Ok? && |r.value| == 1 ==> JobOf(conf.gateway.value, conf.hostname, r.value[0].url) == Some(row.key)
  {
    assert conf.interval > 0.0 <==> conf.interval * (nCycle as real) > 0.0;
    match FmtRate(row.delta, conf.interval)
    case ZeroDivisionError => ZeroDivisionError
    case Ok(rate) =>
      match FmtRate(row.total, conf.interval * (nCycle as real))
      case ZeroDivisionError => ZeroDivisionError
      case Ok(_) =>
        match PushFor(conf, row.key, render(rate))
        case None => Ok([])
        case Some(p) => Ok([p])
  }

  /** The push a meter's step makes carries the meter's rate over one
      interval, as `render` writes it. */
  lemma StepPushesRate(row: Row, conf: Conf, nCycle: nat, render: Rate -> string)
    requires nCycle >= 1
    ensures var r := Step(row, conf, nCycle, render);
      r.Ok? && |r.value| == 1 ==> IsPushOf(conf, render, row, r.value[0])
  {
    var r := Step(row, conf, nCycle, render);
    if r.Ok? && |r.value| == 1 {
      var rate := FmtRate(row.delta, conf.interval).value;
      assert r.value[0] == PushFor(conf, row.key, render(rate)).value;
      PushBodyDecodes(conf, row.key, render(rate));
    }
  }

  /** `p` is the push of the meter read as `row`: it goes to the meter's job,
      and its body is the text exposition of the meter's rate over one
      interval, as `render` writes it. */
  ghost predicate IsPushOf(conf: Conf, render: Rate -> string, row: Row, p: Push) {
    && conf.gateway.Some? && conf.promKey.Some?
    && JobOf(conf.gateway.value, conf.hostname, p.url) == Some(row.key)
    && FmtRate(row.delta, conf.interval).Ok?
    && DecodeUtf8(p.body) == Some(BodyText(conf.promKey.value, render(FmtRate(row.delta, conf.interval).value)))
  }

  /** What a cycle did: the pushes made, how many counters had their delta
      taken, and whether it stopped at an exception. */
  datatype CycleOut = CycleOut(pushes: seq<Push>, reached: nat, aborted: bool)

  /** The cycle from the meter at index `i` on, once the pushes `done` have
      been made: meters are handled in key order until one raises; the meter
      that raises has had its delta taken but is not pushed. */
  function CycleFrom(counts: map<string, (int, int)>, keys: seq<string>, i: nat, conf: Conf, nCycle: nat,
                     render: Rate -> string, done: seq<Push>): (c: CycleOut)
    requires nCycle >= 1 && i <= |keys| && Covers(counts, keys)
    ensures i <= c.reached <= |keys|
    ensures !c.aborted ==> c.reached == |keys|
    ensures |done| <= |c.pushes| <= |done| + (c.reached - i) && c.pushes[..|done|] == done
    decreases |keys| - i
  {
    if i == |keys| then CycleOut(done, i, false)
    else match Step(RowOf(counts, keys[i]), conf, nCycle, render)
      case ZeroDivisionError => CycleOut(done, i + 1, true)
      case Ok(ps) =>
        var c := CycleFrom(counts, keys, i + 1, conf, nCycle, render, done + ps);
        assert c.pushes[..|done|] == (done + ps)[..|done|];
        c
  }

  /** One report cycle of the meters under `keys`, whose values are `counts`. */
  function Cycle(counts: map<string, (int, int)>, keys: seq<string>, conf: Conf, nCycle: nat,
                 render: Rate -> string): (c: CycleOut)
    requires nCycle >= 1 && Covers(counts, keys)
    ensures c.reached <= |keys| && |c.pushes| <= c.reached
    ensures !c.aborted ==> c.reached == |keys|
  {
    CycleFrom(counts, keys, 0, conf, nCycle, render, [])
  }

  /** A cycle handles without an exception every meter before the one it
      reached last, and when it stops early, that last meter raised. */
  lemma {:induction false} CycleHandlesPrefix(counts: map<string, (int, int)>, keys: seq<string>, i: nat,
                                              conf: Conf, nCycle: nat, render: Rate -> string, done: seq<Push>)
    requires nCycle >= 1 && i <= |keys| && Covers(counts, keys)
    ensures var c := CycleFrom(counts, keys, i, conf, nCycle, render, done);
      (forall j | i <= j < c.reached - (if c.aborted then 1 else 0) :: Step(RowOf(counts, keys[j]), conf, nCycle, render).Ok?) &&
      (c.aborted ==> Step(RowOf(counts, keys[c.reached - 1]), conf, nCycle, render).ZeroDivisionError?)
    decreases |keys| - i
  {
    if i < |keys| {
      var next := i + 1;
      var step := Step(RowOf(counts, keys[i]), conf, nCycle, render);
      if step.ZeroDivisionError? {
        CycleFromRaise(counts, keys, i, next, conf, nCycle, render, done);
      } else {
        var done' := done + step.value;
        CycleFromOk(counts, keys, i, next, conf, nCycle, render, done, step.value, done');
        CycleHandlesPrefix(counts, keys, next, conf, nCycle, render, done');
      }
    }
  }

  /** A cycle stops exactly at the first meter that raises: it runs to the end
      if and only if no meter raises. */
  lemma CycleStopsAtFirstRaise(counts: map<string, (int, int)>, keys: seq<string>,
                               conf: Conf, nCycle: nat, render: Rate -> string)
    requires nCycle >= 1 && Covers(counts, keys)
    ensures var c := Cycle(counts, keys, conf, nCycle, render);
      (!c.aborted <==> forall j | 0 <= j < |keys| :: Step(RowOf(counts, keys[j]), conf, nCycle, render).Ok?) &&
      (c.aborted ==> Step(RowOf(counts, keys[c.reached - 1]), conf, nCycle, render).ZeroDivisionError?) &&
      (forall j | 0 <= j < c.reached - 1 :: Step(RowOf(counts, keys[j]), conf, nCycle, render).Ok?)
  {
    CycleHandlesPrefix(counts, keys, 0, conf, nCycle, render, []);
  }

  /** The cycle from a meter that raises stops right after it. */
  lemma CycleFromRaise(counts: map<string, (int, int)>, keys: seq<string>, i: nat, next: nat, conf: Conf, nCycle: nat,
                       render: Rate -> string, done: seq<Push>)
    requires nCycle >= 1 && i < |keys| && next == i + 1 && Covers(counts, keys)
    requires Step(RowOf(counts, keys[i]), conf, nCycle, render).ZeroDivisionError?
    ensures CycleFrom(counts, keys, i, conf, nCycle, render, done) == CycleOut(done, next, true)
  {
  }

  /** The cycle from a meter that does not raise goes on with its pushes made. */
  lemma CycleFromOk(counts: map<string, (int, int)>, keys: seq<string>, i: nat, next: nat, conf: Conf, nCycle: nat,
                    render: Rate -> string, done: seq<Push>, ps: seq<Push>, done': seq<Push>)
    requires nCycle >= 1 && i < |keys| && next == i + 1 && done' == done + ps && Covers(counts, keys)
    requires Step(RowOf(counts, keys[i]), conf, nCycle, render) == Ok(ps)
    ensures CycleFrom(counts, keys, i, conf, nCycle, render, done) == CycleFrom(counts, keys, next, conf, nCycle, render, done')
  {
  }

  /** With the gateway configured, a cycle pushes once for each meter it
      handles without an exception, in key order, and each push carries that
      meter's rate. */
  lemma {:induction false} CyclePushesEachMeter(counts: map<string, (int, int)>, keys: seq<string>, i: nat,
                                                conf: Conf, nCycle: nat, render: Rate -> string, done: seq<Push>)
    requires nCycle >= 1 && i <= |keys| && Covers(counts, keys)
    requires Truthy(conf.gateway) && Truthy(conf.promKey)
    ensures var c := CycleFrom(counts, keys, i, conf, nCycle, render, done);
      |c.pushes| == |done| + (if c.aborted then c.reached - 1 else c.reached) - i &&
      PushesFrom(counts, keys, i, conf, render, done, c.pushes)
    decreases |keys| - i
  {
    if i < |keys| {
      var next := i + 1;
      var row := RowOf(counts, keys[i]);
      var step := Step(row, conf, nCycle, render);
      if step.ZeroDivisionError? {
        CycleFromRaise(counts, keys, i, next, conf, nCycle, render, done);
      } else {
        var ps := step.value;
        var done' := done + ps;
        CycleFromOk(counts, keys, i, next, conf, nCycle, render, done, ps, done');
        CyclePushesEachMeter(counts, keys, next, conf, nCycle, render, done');
        var c := CycleFrom(counts, keys, next, conf, nCycle, render, done');
        StepPushesRate(row, conf, nCycle, render);
        PushesShift(counts, keys, i, next, conf, render, done, ps, done', c.pushes);
      }
    }
  }

  /** After the pushes `done`, each later push is that of the meter at the
      same distance from key index `i`. */
  ghost predicate PushesFrom(counts: map<string, (int, int)>, keys: seq<string>, i: nat, conf: Conf,
                             render: Rate -> string, done: seq<Push>, pushes: seq<Push>)
    requires Covers(counts, keys)
  {
    forall j | |done| <= j < |pushes| :: PushAt(counts, keys, i, conf, render, |done|, pushes, j)
  }

  /** Push `j` is that of the meter at key index `i + j - d`. */
  ghost predicate PushAt(counts: map<string, (int, int)>, keys: seq<string>, i: nat, conf: Conf,
                         render: Rate -> string, d: nat, pushes: seq<Push>, j: nat)
    requires Covers(counts, keys) && j < |pushes|
  {
    0 <= i + j - d < |keys| && IsPushOf(conf, render, RowOf(counts, keys[i + j - d]), pushes[j])
  }

  /** The pushes after one more meter: its own push, then those of the
      meters after it. */
  lemma PushesShift(counts: map<string, (int, int)>, keys: seq<string>, i: nat, next: nat, conf: Conf,
                    render: Rate -> string, done: seq<Push>, ps: seq<Push>, done': seq<Push>, pushes: seq<Push>)
    requires next == i + 1 && i < |keys| && done' == done + ps && |ps| == 1 && Covers(counts, keys)
    requires IsPushOf(conf, render, RowOf(counts, keys[i]), ps[0])
    requires |done'| <= |pushes| && pushes[..|done'|] == done'
    requires PushesFrom(counts, keys, next, conf, render, done', pushes)
    ensures PushesFrom(counts, keys, i, conf, render, done, pushes)
  {
    forall j | |done| <= j < |pushes|
      ensures PushAt(counts, keys, i, conf, render, |done|, pushes, j)
    {
      if j == |done| {
        assert pushes[j] == done'[j] == ps[0];
      } else {
        assert PushAt(counts, keys, next, conf, render, |done'|, pushes, j);
        assert i + j - |done| == next + j - |done'|;
      }
    }
  }

  /** The counters' values once the deltas of the first `n` keys are taken. */
  function Advanced(counts: map<string, (int, int)>, keys: seq<string>, n: nat): (r: map<string, (int, int)>)
    requires n <= |keys| && Covers(counts, keys)
    ensures r.Keys == counts.Keys
  {
    if n == 0 then counts
    else Advanced(counts, keys, n - 1)[keys[n - 1] := (counts[keys[n - 1]].0, counts[keys[n - 1]].0)]
  }

  /** Taking a delta makes a counter's last-report value equal its count, and
      leaves counters not yet reached as they were. */
  lemma {:induction false} AdvancedAt(counts: map<string, (int, int)>, keys: seq<string>, n: nat, k: string)
    requires n <= |keys| && Covers(counts, keys) && k in counts
    ensures Advanced(counts, keys, n)[k] == if k in keys[..n] then (counts[k].0, counts[k].0) else counts[k]
  {
    if n > 0 {
      AdvancedAt(counts, keys, n - 1, k);
      assert keys[..n] == keys[..n - 1] + [keys[n - 1]];
    }
  }

  /** Taking the delta of the next key advances the counters by one key. */
  lemma AdvancedStep(counts: map<string, (int, int)>, keys: seq<string>, i: nat, next: nat)
    requires i < |keys| && next == i + 1 && Covers(counts, keys)
    ensures Advanced(counts, keys, next) == Advanced(counts, keys, i)[keys[i] := (counts[keys[i]].0, counts[keys[i]].0)]
  {
  }

  /** No key occurs twice. */
  ghost predicate Distinct(keys: seq<string>) {
    forall i, j | 0 <= i < j < |keys| :: keys[i] != keys[j]
  }

  /** Keys in insertion order: no repetition, and exactly the keys of the table. */
  ghost predicate KeyOrder<V>(keys: seq<string>, table: map<string, V>) {
    Distinct(keys) && (forall k :: k in keys <==> k in table)
  }

  // ---------------------------------------------------------------------
  // The registry
  // ---------------------------------------------------------------------

  /** The registry of meters and gauges.  Key order follows insertion, as in a
      Python dict; `running` stands for the reporter thread being alive. */
  class Metrics<G> {
    const conf: Conf
    var meterKeys: seq<string>
    var meters: map<string, Counter>
    var gaugeKeys: seq<string>
    var gauges: map<string, G>
    var nCycle: nat
    var running: bool
    /** The counters this registry owns. */
    ghost var Repr: set<Counter>

    ghost predicate Valid()
      reads this, Repr
    {
      Owns() && KeyOrder(meterKeys, meters) && KeyOrder(gaugeKeys, gauges) &&
      (forall k, k' | k in meters && k' in meters && k != k' :: meters[k] != meters[k']) &&
      (forall k | k in meters :: meters[k].Valid())
    }

    /** Every counter in the table is one of this registry's own. */
    ghost predicate Owns()
      reads this
    {
      forall k | k in meters :: meters[k] in Repr
    }

    /** The meters hold exactly the (count, count at last report) pairs of `m`. */
    ghost predicate HasCounts(m: map<string, (int, int)>)
      reads this, Repr
    {
      Owns() && m.Keys == meters.Keys &&
      forall k | k in meters :: meters[k].count == m[k].0 && meters[k].countPrev == m[k].1
    }

    /** Each meter's (count, count at last report). */
    ghost function Counts(): (c: map<string, (int, int)>)
      requires Owns()
      reads this, Repr
      ensures HasCounts(c)
    {
      map k | k in meters :: (meters[k].count, meters[k].countPrev)
    }

    constructor (conf: Conf)
      ensures Valid()
      ensures this.conf == conf
      ensures meterKeys == [] && meters == map[] && gaugeKeys == [] && gauges == map[]
      ensures nCycle == 0 && !running
      ensures fresh(Repr)
    {
      this.conf := conf;
      meterKeys := [];
      meters := map[];
      gaugeKeys := [];
      gauges := map[];
      nCycle := 0;
      running := false;
      Repr := {};
    }

    /** Installs a zeroed counter under a new key, at the end of the key order. */
    method AddMeter(key: string, ghost m: map<string, (int, int)>)
      requires Valid() && key !in meters && HasCounts(m)
      modifies this
      ensures Valid()
      ensures meterKeys == old(meterKeys) + [key] && meters.Keys == old(meters.Keys) + {key}
      ensures forall k | k in old(meters) :: meters[k] == old(meters[k])
      ensures HasCounts(m[key := (0, 0)])
      ensures fresh(meters[key]) && Repr == old(Repr) + {meters[key]}
      ensures gaugeKeys == old(gaugeKeys) && gauges == old(gauges)
      ensures nCycle == old(nCycle) && running == old(running)
    {
      var c := new Counter();
      assert forall k | k in meters :: meters[k] != c;
      meters := meters[key := c];
      meterKeys := meterKeys + [key];
      Repr := Repr + {c};
      forall k | k in meters
        ensures meters[k].count == m[key := (0, 0)][k].0 && meters[k].countPrev == m[key := (0, 0)][k].1
      {
        if k != key {
          assert meters[k] == old(meters[k]);
        }
      }
    }

    /** Increments the counter under `key`; `m` names the counters' values beforehand. */
    method Bump(key: string, ghost m: map<string, (int, int)>)
      requires Valid() && key in meters && HasCounts(m)
      modifies meters[key]
      ensures Valid()
      ensures HasCounts(m[key := (m[key].0 + 1, m[key].1)])
    {
      var c := meters[key];
      c.Increment();
      assert forall k | k in meters && k != key :: meters[k] != c;
    }

    /** Counts one event under `key`, creating a zeroed counter for a new key. */
    method Mark(key: string)
      requires Valid()
      modifies this, Repr
      ensures Valid()
      ensures meterKeys == if key in old(meters) then old(meterKeys) else old(meterKeys) + [key]
      ensures forall k | k in old(meters) :: k in meters && meters[k] == old(meters[k])
      ensures HasCounts(old(Counts())[key :=
        if key in old(Counts()) then (old(Counts())[key].0 + 1, old(Counts())[key].1) else (1, 0)])
      ensures gaugeKeys == old(gaugeKeys) && gauges == old(gauges)
      ensures nCycle == old(nCycle) && running == old(running)
      ensures fresh(Repr - old(Repr)) && (key in old(meters) ==> Repr == old(Repr))
    {
      ghost var m := Counts();
      if key !in meters {
        AddMeter(key, m);
        m := m[key := (0, 0)];
      }
      Bump(key, m);
    }

    /** Stores `gauge` under `key`, except that an existing entry is kept when
        `overwrite` is false.  A replaced entry keeps its place in the order. */
    method RegisterGauge(key: string, gauge: G, overwrite: bool)
      requires Valid()
      modifies this
      ensures Valid()
      ensures !overwrite && key in old(gauges) ==> gauges == old(gauges) && gaugeKeys == old(gaugeKeys)
      ensures overwrite || key !in old(gauges) ==> gauges == old(gauges)[key := gauge]
      ensures gaugeKeys == if key in old(gauges) then old(gaugeKeys) else old(gaugeKeys) + [key]
      ensures meterKeys == old(meterKeys) && meters == old(meters)
      ensures nCycle == old(nCycle) && running == old(running) && Repr == old(Repr)
    {
      if !overwrite && key in gauges {
        return;
      }
      if key !in gauges {
        gaugeKeys := gaugeKeys + [key];
      }
      gauges := gauges[key := gauge];
    }

    /** Forgets every meter and restarts the cycle count; gauges stay. */
    method Reset()
      requires Valid()
      modifies this
      ensures Valid()
      ensures meterKeys == [] && meters == map[] && nCycle == 0
      ensures gaugeKeys == old(gaugeKeys) && gauges == old(gauges) && running == old(running)
      ensures Repr == old(Repr)
    {
      meters := map[];
      meterKeys := [];
      nCycle := 0;
    }

    /** Starts reporting; a registry already reporting is left as it is. */
    method Start()
      requires Valid()
      modifies this
      ensures Valid() && running
      ensures old(running) ==> meterKeys == old(meterKeys) && meters == old(meters) && nCycle == old(nCycle)
      ensures !old(running) ==> meterKeys == [] && meters == map[] && nCycle == 0
      ensures gaugeKeys == old(gaugeKeys) && gauges == old(gauges) && Repr == old(Repr)
    {
      if running {
        return;
      }
      Reset();
      running := true;
    }

    /** Stops reporting; the meters and gauges stay as they are. */
    method Stop()
      requires Valid()
      modifies this
      ensures Valid() && !running && Repr == old(Repr)
      ensures meterKeys == old(meterKeys) && meters == old(meters) && nCycle == old(nCycle)
      ensures gaugeKeys == old(gaugeKeys) && gauges == old(gauges)
    {
      if running {
        running := false;
      }
    }

    /** The delete requests made at shutdown: one per meter, in key order. */
    function ExitDeletes(): (urls: seq<string>)
      reads this
      ensures |urls| == if Truthy(conf.gateway) && Truthy(conf.promKey) then |meterKeys| else 0
      ensures forall i | 0 <= i < |urls| :: JobOf(conf.gateway.value, conf.hostname, urls[i]) == Some(meterKeys[i])
    {
      DeleteAll(conf, meterKeys)
    }

    /** Takes the delta of the counter under `key` and reads its total;
        `m` names the counters' values beforehand. */
    method TakeDelta(key: string, ghost m: map<string, (int, int)>) returns (delta: int, total: int)
      requires Valid() && key in meters && HasCounts(m)
      modifies meters[key]
      ensures Valid()
      ensures delta == m[key].0 - m[key].1 && total == m[key].0
      ensures HasCounts(m[key := (total, total)])
    {
      var counter := meters[key];
      delta := counter.Delta();
      total := counter.Get();
      assert forall k | k in meters && k != key :: meters[k] != counter;
    }

    /** The handling of meter `i` in a cycle: takes its delta, then formats
        and pushes its rate.  `counts` are the values at the start of the cycle. */
    method HandleMeter(i: nat, next: nat, render: Rate -> string, ghost counts: map<string, (int, int)>)
      returns (step: Outcome<seq<Push>>)
      requires Valid() && i < |meterKeys| && next == i + 1 && nCycle >= 1
      requires Covers(counts, meterKeys) && HasCounts(Advanced(counts, meterKeys, i))
      modifies Repr
      ensures Valid()
      ensures HasCounts(Advanced(counts, meterKeys, next))
      ensures step == Step(RowOf(counts, meterKeys[i]), conf, nCycle, render)
    {
      var key := meterKeys[i];
      assert key !in meterKeys[..i];
      AdvancedAt(counts, meterKeys, i, key);
      AdvancedStep(counts, meterKeys, i, next);
      var delta, total := TakeDelta(key, Advanced(counts, meterKeys, i));
      var row := Row(key, delta, total);
      assert row == RowOf(counts, key);
      step := Step(row, conf, nCycle, render);
    }

    /** The meters of one cycle in key order, from the values `counts` they
        had when the cycle began: takes each counter's delta, formats and
        pushes its rate, and stops at the first meter that raises. */
    method HandleMeters(render: Rate -> string, ghost counts: map<string, (int, int)>)
      returns (pushes: seq<Push>, aborted: bool)
      requires Valid() && nCycle >= 1 && Covers(counts, meterKeys) && HasCounts(counts)
      modifies Repr
      ensures Valid()
      ensures var c := Cycle(counts, meterKeys, conf, nCycle, render);
        pushes == c.pushes && aborted == c.aborted &&
        HasCounts(Advanced(counts, meterKeys, c.reached))
    {
      ghost var c := Cycle(counts, meterKeys, conf, nCycle, render);
      pushes := [];
      aborted := false;
      var i := 0;
      while i < |meterKeys| && !aborted
        invariant 0 <= i <= |meterKeys|
        invariant Valid()
        invariant HasCounts(Advanced(counts, meterKeys, i))
        invariant c == if aborted then CycleOut(pushes, i, true)
                       else CycleFrom(counts, meterKeys, i, conf, nCycle, render, pushes)
      {
        var next := i + 1;
        var step := HandleMeter(i, next, render, counts);
        if step.ZeroDivisionError? {
          CycleFromRaise(counts, meterKeys, i, next, conf, nCycle, render, pushes);
          aborted := true;
        } else {
          var pushes' := pushes + step.value;
          CycleFromOk(counts, meterKeys, i, next, conf, nCycle, render, pushes, step.value, pushes');
          pushes := pushes';
        }
        i := next;
      }
    }

    /** One report of the meters: advances the cycle count, then handles the
        meters in key order until one raises. */
    method ReportMeters(render: Rate -> string) returns (pushes: seq<Push>, aborted: bool)
      requires Valid()
      modifies this, Repr
      ensures Valid()
      ensures nCycle == old(nCycle) + 1
      ensures meterKeys == old(meterKeys) && meters == old(meters)
      ensures gaugeKeys == old(gaugeKeys) && gauges == old(gauges) && running == old(running)
      ensures Repr == old(Repr)
      ensures Covers(old(Counts()), meterKeys)
      ensures var c := Cycle(old(Counts()), meterKeys, conf, nCycle, render);
        pushes == c.pushes && aborted == c.aborted &&
        HasCounts(Advanced(old(Counts()), meterKeys, c.reached))
    {
      ghost var counts := Counts();
      nCycle := nCycle + 1;
      pushes, aborted := HandleMeters(render, counts);
    }

    /** A full report: the meters, then (unless the meters raised) every gauge.
        Returns the pushes made and the keys of the gauges that were read. */
    method Report(render: Rate -> string) returns (pushes: seq<Push>, gaugesRead: seq<string>)
      requires Valid()
      modifies this, Repr
      ensures Valid()
      ensures nCycle == old(nCycle) + 1
      ensures meterKeys == old(meterKeys) && meters == old(meters)
      ensures gaugeKeys == old(gaugeKeys) && gauges == old(gauges) && running == old(running)
      ensures Repr == old(Repr)
      ensures Covers(old(Counts()), meterKeys)
      ensures var c := Cycle(old(Counts()), meterKeys, conf, nCycle, render);
        pushes == c.pushes && gaugesRead == (if c.aborted then [] else gaugeKeys) &&
        HasCounts(Advanced(old(Counts()), meterKeys, c.reached))
    {
      var aborted;
      pushes, aborted := ReportMeters(render);
      gaugesRead := if aborted then [] else gaugeKeys;
    }
  }
}
