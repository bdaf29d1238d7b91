/**
 * The status object of index.js (`arqBackupStatusObject`): the plan map with
 * its insertion order, the ignore list and the date of the last run; the run
 * that merges notifications into it and tallies plan health; and the shape in
 * which it is saved to and loaded from `arq-backup-status.json`.
 */
module StatusStore {
  import opened Wrappers
  import opened PlanLedger
  import opened HealthEvaluator

  predicate NoDuplicates(s: seq<string>) {
    forall i, j :: 0 <= i < j < |s| ==> s[i] != s[j]
  }

  /** A map whose keys are listed once each, in insertion order, by `order`. */
  ghost predicate OrderedKeys(order: seq<string>, m: Ledger) {
    NoDuplicates(order) && forall p :: p in order <==> p in m
  }

  /** The insertion order of the plan map after merging `obs`: a plan seen for the first time goes last. */
  function InsertionOrder(order: seq<string>, obs: seq<Observation>): (r: seq<string>)
    ensures order <= r
    ensures forall p :: p in r <==> p in order || p in Names(obs)
    ensures NoDuplicates(order) ==> NoDuplicates(r)
    decreases |obs|
  {
    if obs == [] then order
    else
      var pre := obs[..|obs| - 1];
      var o := InsertionOrder(order, pre);
      var name := obs[|obs| - 1].planName;
      assert Names(obs) == Names(pre) + {name};
      if name in o then o else o + [name]
  }

  /** One more observation at the end of a run. */
  lemma InsertionOrderSnoc(order: seq<string>, pre: seq<Observation>, last: Observation)
    ensures var o := InsertionOrder(order, pre);
      InsertionOrder(order, pre + [last]) == if last.planName in o then o else o + [last.planName]
  {
    assert (pre + [last])[..|pre|] == pre;
  }

  /** Merging the observations up to `i` and then observation `i`. */
  lemma IngestAllStep(m: Ledger, order: seq<string>, obs: seq<Observation>, i: nat, cfg: Config)
    requires i < |obs|
    ensures PlanLedger.IngestAll(m, obs[..i + 1], cfg) == PlanLedger.Ingest(PlanLedger.IngestAll(m, obs[..i], cfg), obs[i], cfg)
    ensures var o := InsertionOrder(order, obs[..i]);
      InsertionOrder(order, obs[..i + 1]) == if obs[i].planName in o then o else o + [obs[i].planName]
  {
    assert obs[..i + 1] == obs[..i] + [obs[i]];
    PlanLedger.IngestAllSnoc(m, obs[..i], obs[i], cfg);
    InsertionOrderSnoc(order, obs[..i], obs[i]);
  }

  /** A map listed by a duplicate-free sequence has as many keys as the sequence has elements. */
  lemma {:induction false} OrderedKeysCardinality(order: seq<string>, m: Ledger)
    requires OrderedKeys(order, m)
    ensures |m| == |order|
    decreases |order|
  {
    if order == [] {
      assert m == map[];
    } else {
      var last := order[|order| - 1];
      var pre := order[..|order| - 1];
      var m' := m - {last};
      forall k | 0 <= k < |pre| ensures pre[k] in m' {
        assert pre[k] == order[k] != order[|order| - 1];
      }
      forall p | p in m' ensures p in pre {
        var k :| 0 <= k < |order| && order[k] == p;
        assert pre[k] == p;
      }
      OrderedKeysCardinality(pre, m');
      assert m.Keys == m'.Keys + {last};
    }
  }

  // ---------------------------------------------------------------------------
  // The persisted shape

  /**
   * The content of the status file: `lastBackupStatusDate`, `backupPlanMap`
   * as a list of `[name, record]` pairs, and `ignoreList`; a field that is
   * missing or null is `None`.
   */
  datatype PersistedState = PersistedState(
    lastBackupStatusDate: Option<int>,
    backupPlanMap: Option<seq<(string, PlanRecord)>>,
    ignoreList: Option<seq<string>>)

  /** `[...map]`: the entries of the map in insertion order. */
  function Pairs(order: seq<string>, m: Ledger): (ps: seq<(string, PlanRecord)>)
    requires forall p :: p in order ==> p in m
    ensures |ps| == |order|
    ensures forall k :: 0 <= k < |order| ==> ps[k] == (order[k], m[order[k]])
  {
    seq(|order|, k requires 0 <= k < |order| => (order[k], m[order[k]]))
  }

  /**
   * `new Map(pairs)`: entries are set in list order; a later pair for a key
   * already present replaces the value and keeps the key's first position.
   */
  function MapOfPairs(ps: seq<(string, PlanRecord)>): (r: (seq<string>, Ledger))
    ensures OrderedKeys(r.0, r.1)
    decreases |ps|
  {
    if ps == [] then ([], map[])
    else
      var prev := MapOfPairs(ps[..|ps| - 1]);
      var (name, record) := ps[|ps| - 1];
      (if name in prev.1 then prev.0 else prev.0 + [name], prev.1[name := record])
  }

  /** The keys of a pair list. */
  function KeysOf(ps: seq<(string, PlanRecord)>): seq<string> {
    seq(|ps|, k requires 0 <= k < |ps| => ps[k].0)
  }

  /** The part of `m` whose keys `order` lists. */
  function Restrict(m: Ledger, order: seq<string>): Ledger
    requires forall p :: p in order ==> p in m
  {
    map p | p in order :: m[p]
  }

  /** `MapOfPairs` of a list with one more pair at its end. */
  lemma MapOfPairsSnoc(ps: seq<(string, PlanRecord)>, name: string, record: PlanRecord)
    ensures var prev := MapOfPairs(ps);
      MapOfPairs(ps + [(name, record)])
        == (if name in prev.1 then prev.0 else prev.0 + [name], prev.1[name := record])
  {
    assert (ps + [(name, record)])[..|ps|] == ps;
  }

  /** Appending one entry whose key is not yet listed appends one pair. */
  lemma PairsSnoc(order: seq<string>, m: Ledger, name: string, record: PlanRecord)
    requires forall p :: p in order ==> p in m
    requires forall k :: 0 <= k < |order| ==> order[k] != name
    ensures Pairs(order + [name], m[name := record]) == Pairs(order, m) + [(name, record)]
  {
  }

  /** Loading what was saved rebuilds the listed part of the map, in the same order. */
  lemma {:induction false} MapOfPairsOfPairs(order: seq<string>, m: Ledger)
    requires NoDuplicates(order) && forall p :: p in order ==> p in m
    ensures MapOfPairs(Pairs(order, m)) == (order, Restrict(m, order))
    decreases |order|
  {
    if order != [] {
      var pre := order[..|order| - 1];
      var last := order[|order| - 1];
      assert order == pre + [last];
      forall k | 0 <= k < |pre| ensures pre[k] != last {
        assert pre[k] == order[k];
      }
      MapOfPairsOfPairs(pre, m);
      PairsSnoc(pre, m, last, m[last]);
      assert m[last := m[last]] == m;
      MapOfPairsSnoc(Pairs(pre, m), last, m[last]);
      RestrictSnoc(m, pre, last);
    }
  }

  lemma RestrictSnoc(m: Ledger, order: seq<string>, name: string)
    requires forall p :: p in order ==> p in m
    requires name in m
    ensures Restrict(m, order)[name := m[name]] == Restrict(m, order + [name])
  {
  }

  /** Saving, then loading, gives back the same map in the same insertion order. */
  lemma LoadAfterSave(order: seq<string>, m: Ledger)
    requires OrderedKeys(order, m)
    ensures MapOfPairs(Pairs(order, m)) == (order, m)
  {
    MapOfPairsOfPairs(order, m);
    assert Restrict(m, order) == m;
  }

  /** Loading, then saving, gives back a pair list whose keys are distinct. */
  lemma {:induction false} SaveAfterLoad(ps: seq<(string, PlanRecord)>)
    requires NoDuplicates(KeysOf(ps))
    ensures Pairs(MapOfPairs(ps).0, MapOfPairs(ps).1) == ps
    decreases |ps|
  {
    if ps != [] {
      var pre := ps[..|ps| - 1];
      var (name, record) := ps[|ps| - 1];
      assert ps == pre + [(name, record)];
      assert KeysOf(pre) == KeysOf(ps)[..|pre|];
      SaveAfterLoad(pre);
      var (order, m) := MapOfPairs(pre);
      forall k | 0 <= k < |order| ensures order[k] != name {
        assert Pairs(order, m)[k] == pre[k];
        assert KeysOf(ps)[k] == pre[k].0;
        assert KeysOf(ps)[|ps| - 1] == name;
      }
      MapOfPairsSnoc(pre, name, record);
      PairsSnoc(order, m, name, record);
    }
  }

  /** The status file as the run writes it. */
  function Saved(lastBackupStatusDate: Option<int>, order: seq<string>, m: Ledger, ignoreList: seq<string>): (p: PersistedState)
    requires forall q :: q in order ==> q in m
    ensures p.lastBackupStatusDate == lastBackupStatusDate && p.ignoreList == Some(ignoreList)
    ensures p.backupPlanMap.Some? && |p.backupPlanMap.value| == |order|
    ensures NoDuplicates(order) ==> MapOfPairs(p.backupPlanMap.value) == (order, Restrict(m, order))
  {
    var p := PersistedState(lastBackupStatusDate, Some(Pairs(order, m)), Some(ignoreList));
    if NoDuplicates(order) then
      MapOfPairsOfPairs(order, m);
      p
    else p
  }

  // ---------------------------------------------------------------------------
  // The status object

  class ArqBackupStatus {
    var lastBackupStatusDate: Option<int>
    var backupPlanMap: Ledger
    /** The insertion order of `backupPlanMap`, which the report and the file follow. */
    var planOrder: seq<string>
    var ignoreList: seq<string>

    ghost predicate Valid()
      reads this
    {
      OrderedKeys(planOrder, backupPlanMap)
    }

    /** The object a first run starts from (index.js:49-53). */
    constructor ()
      ensures Valid()
      ensures lastBackupStatusDate == None && backupPlanMap == map[] && planOrder == [] && ignoreList == []
    {
      lastBackupStatusDate := None;
      backupPlanMap := map[];
      planOrder := [];
      ignoreList := [];
    }

    /** What the run writes to the status file; loading it back gives the same map in the same order. */
    function Snapshot(): (p: PersistedState)
      reads this
      requires Valid()
      ensures p.lastBackupStatusDate == lastBackupStatusDate && p.ignoreList == Some(ignoreList)
      ensures p.backupPlanMap.Some? && MapOfPairs(p.backupPlanMap.value) == (planOrder, backupPlanMap)
    {
      LoadAfterSave(planOrder, backupPlanMap);
      Saved(lastBackupStatusDate, planOrder, backupPlanMap, ignoreList)
    }

    /**
     * Loading the status file. When it cannot be read or parsed the object is
     * left as it was; otherwise the map is rebuilt from its pairs and a
     * missing ignore list becomes empty.
     */
    method Load(file: Option<PersistedState>)
      requires Valid()
      modifies this
      ensures Valid()
      ensures file.None? ==> unchanged(this)
      ensures file.Some? ==>
        && (planOrder, backupPlanMap) == MapOfPairs(file.value.backupPlanMap.GetOr([]))
        && ignoreList == file.value.ignoreList.GetOr([])
        && lastBackupStatusDate == file.value.lastBackupStatusDate
    {
      if file.Some? {
        var p := file.value;
        lastBackupStatusDate := p.lastBackupStatusDate;
        var rebuilt := MapOfPairs(p.backupPlanMap.GetOr([]));
        planOrder, backupPlanMap := rebuilt.0, rebuilt.1;
        if p.ignoreList.None? {
          ignoreList := [];
        } else {
          ignoreList := p.ignoreList.value;
        }
      }
    }

    /** Merging one notification into the plan map (index.js:241-260). */
    method Ingest(o: Observation, cfg: Config)
      requires Valid()
      modifies this
      ensures Valid()
      ensures backupPlanMap == PlanLedger.Ingest(old(backupPlanMap), o, cfg)
      ensures planOrder == if o.planName in old(planOrder) then old(planOrder) else old(planOrder) + [o.planName]
      ensures ignoreList == old(ignoreList) && lastBackupStatusDate == old(lastBackupStatusDate)
    {
      if o.planName in backupPlanMap {
        var r := backupPlanMap[o.planName];
        if r.date < o.endTime {
          r := r.(date := o.endTime, mostRecentErrors := o.errors);
        }
        r := r.(errors := r.errors + o.errors, totalBackups := r.totalBackups + 1);
        backupPlanMap := backupPlanMap[o.planName := r];
      } else {
        var r := PlanRecord(1, cfg.daysToWarn, cfg.daysToError, o.endTime, o.errors, o.errors);
        backupPlanMap := backupPlanMap[o.planName := r];
        planOrder := planOrder + [o.planName];
      }
    }

    /** The `forEach` of a run over its notifications, in order (index.js:236-261). */
    method IngestAll(obs: seq<Observation>, cfg: Config)
      requires Valid()
      modifies this
      ensures Valid()
      ensures backupPlanMap == PlanLedger.IngestAll(old(backupPlanMap), obs, cfg)
      ensures planOrder == InsertionOrder(old(planOrder), obs)
      ensures ignoreList == old(ignoreList) && lastBackupStatusDate == old(lastBackupStatusDate)
    {
      var i := 0;
      while i < |obs|
        invariant 0 <= i <= |obs|
        invariant Valid()
        invariant backupPlanMap == PlanLedger.IngestAll(old(backupPlanMap), obs[..i], cfg)
        invariant planOrder == InsertionOrder(old(planOrder), obs[..i])
        invariant ignoreList == old(ignoreList) && lastBackupStatusDate == old(lastBackupStatusDate)
      {
        IngestAllStep(old(backupPlanMap), old(planOrder), obs, i, cfg);
        Ingest(obs[i], cfg);
        i := i + 1;
      }
      assert obs[..i] == obs;
    }

    /**
     * The counting loop over the plans, in map order (index.js:277-328): each
     * plan adds one to the total and one to the counter of its class.
     */
    method Tally(now: int) returns (t: RunTally)
      requires Valid()
      ensures t == TallyOf(Classes(planOrder, backupPlanMap, ignoreList, now))
      ensures t.errors + t.warnings + t.successes + t.totalIgnoredBackups == t.totalBackups
      ensures t.totalBackups == |backupPlanMap|
    {
      t := RunTally(0, 0, 0, 0, 0);
      ghost var hs := Classes(planOrder, backupPlanMap, ignoreList, now);
      var i := 0;
      while i < |planOrder|
        invariant 0 <= i <= |planOrder|
        invariant t == TallyOf(hs[..i])
      {
        var name := planOrder[i];
        var r := backupPlanMap[name];
        var elapsed := now - r.date;
        ghost var h := hs[i];
        assert hs[..i + 1] == hs[..i] + [h];
        TallyOfSnoc(hs[..i], h);
        t := t.(totalBackups := t.totalBackups + 1);
        if name in ignoreList {
          assert h == Ignored;
          t := t.(totalIgnoredBackups := t.totalIgnoredBackups + 1);
        } else if elapsed >= r.daysToError * DayMs || r.mostRecentErrors != 0 {
          assert h == Error;
          t := t.(errors := t.errors + 1);
        } else if elapsed >= r.daysToWarn * DayMs {
          assert h == Warning;
          t := t.(warnings := t.warnings + 1);
        } else {
          assert h == Success;
          t := t.(successes := t.successes + 1);
        }
        i := i + 1;
      }
      assert hs[..i] == hs;
      CountsPartition(hs);
      OrderedKeysCardinality(planOrder, backupPlanMap);
    }

    /**
     * One run after the notifications are fetched (index.js:233-381): merge
     * them, tally the plans at time `now`, derive the overall level, record
     * `now` as the last run, and produce what is written to the status file.
     */
    method ProcessObservations(obs: seq<Observation>, cfg: Config, now: int)
      returns (t: RunTally, level: Health, saved: PersistedState)
      requires Valid()
      modifies this
      ensures Valid()
      ensures backupPlanMap == PlanLedger.IngestAll(old(backupPlanMap), obs, cfg)
      ensures planOrder == InsertionOrder(old(planOrder), obs)
      ensures ignoreList == old(ignoreList)
      ensures lastBackupStatusDate == Some(now)
      ensures t == TallyOf(Classes(planOrder, backupPlanMap, ignoreList, now))
      ensures t.totalBackups == |backupPlanMap|
      ensures level == Overall(t)
      ensures saved == Snapshot()
    {
      IngestAll(obs, cfg);
      t := Tally(now);
      level := Overall(t);
      lastBackupStatusDate := Some(now);
      saved := Snapshot();
    }
  }
}
