/**
 * The per-plan ledger of index.js: the `backupPlanMap` from plan name to its
 * record, and the merge `processArqBackupMessageEmails` performs for every
 * parsed notification. Times are integer milliseconds.
 */
module PlanLedger {

  /** The age thresholds, in days, that configuration supplies to a new record. */
  datatype Config = Config(daysToWarn: int, daysToError: int)

  /** One parsed notification: its plan, its end time and its error count. */
  datatype Observation = Observation(planName: string, endTime: int, errors: int)

  /**
   * The record kept per plan; `date` is the end time the source stores as
   * `dateString`, `errors` the cumulative error count.
   */
  datatype PlanRecord = PlanRecord(
    totalBackups: int,
    daysToWarn: int,
    daysToError: int,
    date: int,
    errors: int,
    mostRecentErrors: int)

  type Ledger = map<string, PlanRecord>

  /**
   * Merging one observation. A new plan gets a fresh record; an existing plan
   * always accumulates errors and a backup, and takes the observed date and
   * error count only when the observation is strictly later.
   */
  function Ingest(m: Ledger, o: Observation, cfg: Config): (m': Ledger)
    ensures m'.Keys == m.Keys + {o.planName}
    ensures forall p :: p in m && p != o.planName ==> m'[p] == m[p]
    ensures o.planName !in m ==>
      m'[o.planName] == PlanRecord(1, cfg.daysToWarn, cfg.daysToError, o.endTime, o.errors, o.errors)
    ensures o.planName in m ==>
      var r, r' := m[o.planName], m'[o.planName];
      && r'.errors == r.errors + o.errors
      && r'.totalBackups == r.totalBackups + 1
      && r'.daysToWarn == r.daysToWarn && r'.daysToError == r.daysToError
      && r'.date == (if r.date < o.endTime then o.endTime else r.date)
      && r'.mostRecentErrors == (if r.date < o.endTime then o.errors else r.mostRecentErrors)
  {
    var r := if o.planName in m then
      var old_ := m[o.planName];
      var later := old_.date < o.endTime;
      old_.(
        date := if later then o.endTime else old_.date,
        mostRecentErrors := if later then o.errors else old_.mostRecentErrors,
        errors := old_.errors + o.errors,
        totalBackups := old_.totalBackups + 1)
    else
      PlanRecord(1, cfg.daysToWarn, cfg.daysToError, o.endTime, o.errors, o.errors);
    m[o.planName := r]
  }

  /** The plan names a sequence of observations mentions. */
  function Names(obs: seq<Observation>): set<string> {
    set k | 0 <= k < |obs| :: obs[k].planName
  }

  /** The `forEach` over a run's notifications: observations merged in order. */
  function IngestAll(m: Ledger, obs: seq<Observation>, cfg: Config): (m': Ledger)
    ensures m'.Keys == m.Keys + Names(obs)
    ensures forall p :: p in m && p !in Names(obs) ==> m'[p] == m[p]
    decreases |obs|
  {
    if obs == [] then m
    else
      var last := obs[|obs| - 1];
      assert Names(obs) == Names(obs[..|obs| - 1]) + {last.planName};
      Ingest(IngestAll(m, obs[..|obs| - 1], cfg), last, cfg)
  }

  /** Merging one more observation at the end of a run. */
  lemma IngestAllSnoc(m: Ledger, pre: seq<Observation>, last: Observation, cfg: Config)
    ensures IngestAll(m, pre + [last], cfg) == Ingest(IngestAll(m, pre, cfg), last, cfg)
    ensures Names(pre + [last]) == Names(pre) + {last.planName}
  {
    var obs := pre + [last];
    assert obs[..|obs| - 1] == pre;
    assert Names(obs) == Names(obs[..|obs| - 1]) + {obs[|obs| - 1].planName};
  }

  /** How many of `obs` are for plan `p`. */
  function CountFor(obs: seq<Observation>, p: string): nat
    decreases |obs|
  {
    if obs == [] then 0
    else CountFor(obs[..|obs| - 1], p) + (if obs[|obs| - 1].planName == p then 1 else 0)
  }

  /** The errors reported by the observations of `obs` for plan `p`, summed. */
  function ErrorSumFor(obs: seq<Observation>, p: string): int
    decreases |obs|
  {
    if obs == [] then 0
    else ErrorSumFor(obs[..|obs| - 1], p) + (if obs[|obs| - 1].planName == p then obs[|obs| - 1].errors else 0)
  }

  /**
   * The cumulative fields are additive: after a run, a plan's backups and
   * errors are what it had before plus what the run observed for it, and its
   * thresholds are those of its first record.
   */
  lemma {:induction false} IngestAllAccumulates(m: Ledger, obs: seq<Observation>, cfg: Config, p: string)
    requires p in m || p in Names(obs)
    ensures var r := IngestAll(m, obs, cfg)[p];
      && r.totalBackups == (if p in m then m[p].totalBackups else 0) + CountFor(obs, p)
      && r.errors == (if p in m then m[p].errors else 0) + ErrorSumFor(obs, p)
      && r.daysToWarn == (if p in m then m[p].daysToWarn else cfg.daysToWarn)
      && r.daysToError == (if p in m then m[p].daysToError else cfg.daysToError)
    decreases |obs|
  {
    if obs != [] {
      var pre := obs[..|obs| - 1];
      var last := obs[|obs| - 1];
      assert Names(obs) == Names(pre) + {last.planName};
      if p in m || p in Names(pre) {
        IngestAllAccumulates(m, pre, cfg, p);
      } else {
        assert CountFor(pre, p) == 0 && ErrorSumFor(pre, p) == 0 by {
          NotNamedCountsNothing(pre, p);
        }
      }
    }
  }

  lemma {:induction false} NotNamedCountsNothing(obs: seq<Observation>, p: string)
    requires p !in Names(obs)
    ensures CountFor(obs, p) == 0 && ErrorSumFor(obs, p) == 0
    decreases |obs|
  {
    if obs != [] {
      var pre := obs[..|obs| - 1];
      assert Names(obs) == Names(pre) + {obs[|obs| - 1].planName};
      NotNamedCountsNothing(pre, p);
    }
  }

  /** Observation `k` is the first of `obs` for plan `p` to reach the date of `r`, which it supplied, later than any previous date. */
  ghost predicate LatestAt(m: Ledger, obs: seq<Observation>, p: string, k: int, r: PlanRecord) {
    && 0 <= k < |obs| && obs[k].planName == p
    && obs[k].endTime == r.date && obs[k].errors == r.mostRecentErrors
    && (p in m ==> m[p].date < r.date)
    && forall j :: 0 <= j < k && obs[j].planName == p ==> obs[j].endTime < r.date
  }

  /**
   * Record `r` of plan `p` follows the maximum date over the previous ledger
   * `m` and the observations `obs`: its date is no earlier than the previous
   * date and than every observed end time; and either it kept the previous
   * date and error count, or date and error count come from the first
   * observation that reached the maximum, strictly later than the previous date.
   */
  ghost predicate TracksLatest(m: Ledger, obs: seq<Observation>, p: string, r: PlanRecord) {
    && (p in m ==> m[p].date <= r.date)
    && (forall k :: 0 <= k < |obs| && obs[k].planName == p ==> obs[k].endTime <= r.date)
    && ((p in m && r.date == m[p].date && r.mostRecentErrors == m[p].mostRecentErrors)
        || exists k :: LatestAt(m, obs, p, k, r))
  }

  lemma TracksLatestOtherPlan(m: Ledger, pre: seq<Observation>, last: Observation, p: string, b: PlanRecord)
    requires TracksLatest(m, pre, p, b) && last.planName != p
    ensures TracksLatest(m, pre + [last], p, b)
  {
    var obs := pre + [last];
    if !(p in m && b.date == m[p].date && b.mostRecentErrors == m[p].mostRecentErrors) {
      var k :| LatestAt(m, pre, p, k, b);
      assert LatestAt(m, obs, p, k, b);
    }
  }

  lemma TracksLatestSamePlan(m: Ledger, pre: seq<Observation>, last: Observation, p: string, b: PlanRecord, r: PlanRecord)
    requires TracksLatest(m, pre, p, b) && last.planName == p
    requires r.date == (if b.date < last.endTime then last.endTime else b.date)
    requires r.mostRecentErrors == (if b.date < last.endTime then last.errors else b.mostRecentErrors)
    ensures TracksLatest(m, pre + [last], p, r)
  {
    var obs := pre + [last];
    if b.date < last.endTime {
      assert LatestAt(m, obs, p, |pre|, r);
    } else if !(p in m && b.date == m[p].date && b.mostRecentErrors == m[p].mostRecentErrors) {
      var k :| LatestAt(m, pre, p, k, b);
      assert LatestAt(m, obs, p, k, r);
    }
  }

  lemma TracksLatestFirstSeen(m: Ledger, pre: seq<Observation>, last: Observation, p: string, r: PlanRecord)
    requires p !in m && p !in Names(pre) && last.planName == p
    requires r.date == last.endTime && r.mostRecentErrors == last.errors
    ensures TracksLatest(m, pre + [last], p, r)
  {
    var obs := pre + [last];
    forall j | 0 <= j < |pre| ensures pre[j].planName != p {
      assert pre[j].planName in Names(pre);
    }
    assert LatestAt(m, obs, p, |pre|, r);
  }

  /**
   * The latest-snapshot fields follow the maximum date: after a run, every
   * plan's date is the maximum of its previous date and all end times observed
   * for it, and `mostRecentErrors` is the count that came with that date.
   */
  lemma {:induction false} IngestAllTracksLatest(m: Ledger, obs: seq<Observation>, cfg: Config, p: string)
    requires p in m || p in Names(obs)
    ensures TracksLatest(m, obs, p, IngestAll(m, obs, cfg)[p])
    decreases |obs|
  {
    if obs == [] {
      return;
    }
    var pre := obs[..|obs| - 1];
    var last := obs[|obs| - 1];
    assert obs == pre + [last];
    IngestAllSnoc(m, pre, last, cfg);
    var before := IngestAll(m, pre, cfg);
    var r := Ingest(before, last, cfg)[p];
    if p in m || p in Names(pre) {
      IngestAllTracksLatest(m, pre, cfg, p);
      if last.planName == p {
        TracksLatestSamePlan(m, pre, last, p, before[p], r);
      } else {
        TracksLatestOtherPlan(m, pre, last, p, before[p]);
      }
    } else {
      TracksLatestFirstSeen(m, pre, last, p, r);
    }
  }

  /**
   * Merging is order-independent except for two observations of one plan with
   * equal end times, where the first one's error count is kept.
   */
  lemma IngestCommutes(m: Ledger, o1: Observation, o2: Observation, cfg: Config)
    requires o1.planName != o2.planName || o1.endTime != o2.endTime
    ensures Ingest(Ingest(m, o1, cfg), o2, cfg) == Ingest(Ingest(m, o2, cfg), o1, cfg)
  {
    var a := Ingest(Ingest(m, o1, cfg), o2, cfg);
    var b := Ingest(Ingest(m, o2, cfg), o1, cfg);
    assert a.Keys == b.Keys;
    forall p | p in a ensures a[p] == b[p] {
    }
  }

  /** Two same-plan observations with one end time: the one merged first supplies `mostRecentErrors`. */
  lemma TiedEndTimesKeepFirst(o1: Observation, o2: Observation, cfg: Config)
    requires o1.planName == o2.planName && o1.endTime == o2.endTime
    ensures Ingest(Ingest(map[], o1, cfg), o2, cfg)[o1.planName].mostRecentErrors == o1.errors
    ensures Ingest(Ingest(map[], o2, cfg), o1, cfg)[o1.planName].mostRecentErrors == o2.errors
  {
  }

  /** Merging the same observation twice counts it twice: the source does not deduplicate. */
  lemma ReingestCountsTwice(m: Ledger, o: Observation, cfg: Config)
    ensures var once := Ingest(m, o, cfg)[o.planName];
            var twice := Ingest(Ingest(m, o, cfg), o, cfg)[o.planName];
      && twice.totalBackups == once.totalBackups + 1
      && twice.errors == once.errors + o.errors
      && twice.date == once.date && twice.mostRecentErrors == once.mostRecentErrors
  {
  }
}
