/**
 * Health evaluation of index.js: the class of each plan (the emoji put in
 * front of its report entry), the per-run counters kept in `backupStatus`, and
 * the overall level of the report.
 */
module HealthEvaluator {
  import opened PlanLedger

  const SecondMs: int := 1000
  const MinuteMs: int := 60 * SecondMs
  const HourMs: int := 60 * MinuteMs
  const DayMs: int := 24 * HourMs

  datatype Health = Ignored | Error | Warning | Success

  /**
   * A plan's class at time `now`, in priority order: ignored by name, then an
   * error when the last backup is at least `daysToError` days old or the latest
   * run reported errors, then a warning when it is at least `daysToWarn` days
   * old, and success otherwise.
   */
  function Classify(name: string, r: PlanRecord, ignoreList: seq<string>, now: int): (h: Health)
    ensures h == Ignored <==> name in ignoreList
    ensures h == Error <==>
      name !in ignoreList && (now - r.date >= r.daysToError * DayMs || r.mostRecentErrors != 0)
    ensures h == Warning <==>
      && name !in ignoreList
      && now - r.date < r.daysToError * DayMs && r.mostRecentErrors == 0
      && now - r.date >= r.daysToWarn * DayMs
    ensures h == Success <==>
      && name !in ignoreList
      && now - r.date < r.daysToError * DayMs && r.mostRecentErrors == 0
      && now - r.date < r.daysToWarn * DayMs
  {
    var elapsed := now - r.date;
    if name in ignoreList then Ignored
    else if elapsed >= r.daysToError * DayMs || r.mostRecentErrors != 0 then Error
    else if elapsed >= r.daysToWarn * DayMs then Warning
    else Success
  }

  /** How bad a class is, for comparing classes of one plan over time. */
  function Severity(h: Health): nat {
    match h
    case Ignored => 0
    case Success => 0
    case Warning => 1
    case Error => 2
  }

  /** As time passes with no new backup, a plan's class only gets worse. */
  lemma ClassifyWorsensWithAge(name: string, r: PlanRecord, ignoreList: seq<string>, now: int, later: int)
    requires now <= later
    ensures Severity(Classify(name, r, ignoreList, now)) <= Severity(Classify(name, r, ignoreList, later))
  {
  }

  /** The counters of `backupStatus` after one run. */
  datatype RunTally = RunTally(errors: nat, warnings: nat, successes: nat, totalBackups: nat, totalIgnoredBackups: nat)

  /** The class of each plan of `order`, in that order. */
  function Classes(order: seq<string>, plans: Ledger, ignoreList: seq<string>, now: int): (hs: seq<Health>)
    requires forall p :: p in order ==> p in plans
    ensures |hs| == |order|
    ensures forall k :: 0 <= k < |order| ==> hs[k] == Classify(order[k], plans[order[k]], ignoreList, now)
  {
    seq(|order|, k requires 0 <= k < |order| => Classify(order[k], plans[order[k]], ignoreList, now))
  }

  /** The number of occurrences of `h` in `hs`. */
  function Count(hs: seq<Health>, h: Health): nat
    decreases |hs|
  {
    if hs == [] then 0 else Count(hs[..|hs| - 1], h) + (if hs[|hs| - 1] == h then 1 else 0)
  }

  /** The counters one run ends with when its plans have the classes `hs`. */
  function TallyOf(hs: seq<Health>): RunTally {
    RunTally(Count(hs, Error), Count(hs, Warning), Count(hs, Success), |hs|, Count(hs, Ignored))
  }

  /** One more plan adds one to the total and one to the counter of its class. */
  lemma TallyOfSnoc(hs: seq<Health>, h: Health)
    ensures var t := TallyOf(hs);
      TallyOf(hs + [h]) == RunTally(
        t.errors + (if h == Error then 1 else 0),
        t.warnings + (if h == Warning then 1 else 0),
        t.successes + (if h == Success then 1 else 0),
        t.totalBackups + 1,
        t.totalIgnoredBackups + (if h == Ignored then 1 else 0))
  {
    assert (hs + [h])[..|hs|] == hs;
  }

  /** Each plan lands in exactly one counter: the four class counters add up to the total. */
  lemma {:induction false} CountsPartition(hs: seq<Health>)
    ensures Count(hs, Error) + Count(hs, Warning) + Count(hs, Success) + Count(hs, Ignored) == |hs|
    decreases |hs|
  {
    if hs != [] {
      CountsPartition(hs[..|hs| - 1]);
    }
  }

  /** A counter is non-zero exactly when some plan has that class. */
  lemma {:induction false} CountPositive(hs: seq<Health>, h: Health)
    ensures Count(hs, h) > 0 <==> h in hs
    decreases |hs|
  {
    if hs != [] {
      var pre := hs[..|hs| - 1];
      CountPositive(pre, h);
      assert hs == pre + [hs[|hs| - 1]];
    }
  }

  /**
   * The level shown in the report heading: an error when any error was
   * counted, else a warning when any warning was, else success. The ignored
   * counter plays no part.
   */
  function Overall(t: RunTally): (level: Health)
    ensures level != Ignored
    ensures level == Error <==> t.errors > 0
    ensures level == Warning <==> t.errors == 0 && t.warnings > 0
    ensures level == Success <==> t.errors == 0 && t.warnings == 0
  {
    // the source starts from success and lets a warning, then an error, overwrite it
    if t.errors > 0 then Error else if t.warnings > 0 then Warning else Success
  }

  /** The ignored counter never changes the overall level. */
  lemma OverallIgnoresIgnored(t: RunTally, n: nat)
    ensures Overall(t.(totalIgnoredBackups := n)) == Overall(t)
  {
  }

  /**
   * The overall level in terms of the plans: an error when some plan is in
   * error, else a warning when some plan is in warning, else success; ignored
   * plans never change it.
   */
  lemma OverallOfPlans(order: seq<string>, plans: Ledger, ignoreList: seq<string>, now: int)
    requires forall p :: p in order ==> p in plans
    ensures var hs := Classes(order, plans, ignoreList, now);
            var level := Overall(TallyOf(hs));
      && (level == Error <==> exists k :: 0 <= k < |order| && Classify(order[k], plans[order[k]], ignoreList, now) == Error)
      && (level == Warning <==>
            && (forall k :: 0 <= k < |order| ==> Classify(order[k], plans[order[k]], ignoreList, now) != Error)
            && exists k :: 0 <= k < |order| && Classify(order[k], plans[order[k]], ignoreList, now) == Warning)
  {
    var hs := Classes(order, plans, ignoreList, now);
    CountPositive(hs, Error);
    CountPositive(hs, Warning);
    assert Error in hs <==> exists k :: 0 <= k < |hs| && hs[k] == Error;
    assert Warning in hs <==> exists k :: 0 <= k < |hs| && hs[k] == Warning;
  }

  /** An age of exactly `daysToError` days is an error; one millisecond less, with no recent errors, is not. */
  lemma ErrorThresholdBoundary(name: string, r: PlanRecord, ignoreList: seq<string>)
    requires name !in ignoreList && r.mostRecentErrors == 0
    ensures Classify(name, r, ignoreList, r.date + r.daysToError * DayMs) == Error
    ensures Classify(name, r, ignoreList, r.date + r.daysToError * DayMs - 1) != Error
  {
  }

  /**
   * A plan backed up on 2024-01-01 without errors and on 2024-01-03 with two,
   * thresholds of two and seven days, is in error on 2024-01-10: its age is
   * exactly seven days and its latest run reported errors.
   */
  lemma LaptopScenario()
    ensures var cfg := Config(2, 7);
            var m := Ingest(Ingest(map[], Observation("Laptop", 1704067200000, 0), cfg),
                            Observation("Laptop", 1704240000000, 2), cfg);
      && m["Laptop"] == PlanRecord(2, 2, 7, 1704240000000, 2, 2)
      && Classify("Laptop", m["Laptop"], [], 1704844800000) == Error
  {
  }
}
