/** The adminpanel service layer (adminpanel/services.py): backup records,
    configuration updates with their system-log entry, and the audit trail.
    `timezone.now()` is the `now` parameter. */
module AdminServices {
  import opened Base
  import opened AdminRecords

  datatype SystemLog = SystemLog(
    id: int, level: string, category: string, message: string, user: Option<int>,
    ipAddress: Option<string>, requestPath: Option<string>, metadata: map<string, string>, createdAt: int)

  datatype AuditLog = AuditLog(
    id: int, action: string, modelName: string, objectId: string, objectRepr: string,
    changes: map<string, string>, user: Option<int>, ipAddress: Option<string>,
    userAgent: Option<string>, createdAt: int)

  /** The `object_id` argument, a number or a text. */
  datatype ObjectId = IntId(n: int) | TextId(s: string)

  /** `str(object_id)` */
  function ObjectIdText(o: ObjectId): string {
    match o
    case IntId(n) => IntToString(n)
    case TextId(s) => s
  }

  // ---------------------------------------------------------------------
  // backups

  /** The record `complete_backup` saves. */
  function CompletedRecord(b: Backup, filePath: string, fileSize: int, metadata: Option<map<string, string>>, now: int): (r: Backup)
    ensures r.status == BackupCompleted && r.completedAt == Some(now)
    ensures r.filePath == filePath && r.fileSize == fileSize && r.metadata == OrEmpty(metadata)
    ensures r.(filePath := b.filePath, fileSize := b.fileSize, status := b.status,
               completedAt := b.completedAt, metadata := b.metadata) == b
  {
    b.(filePath := filePath, fileSize := fileSize, status := BackupCompleted,
       completedAt := Some(now), metadata := OrEmpty(metadata))
  }

  /** The record `fail_backup` saves. */
  function FailedRecord(b: Backup, errorMessage: string, now: int): (r: Backup)
    ensures r.status == BackupFailed && r.errorMessage == errorMessage && r.completedAt == Some(now)
    ensures r.(status := b.status, errorMessage := b.errorMessage, completedAt := b.completedAt) == b
  {
    b.(status := BackupFailed, errorMessage := errorMessage, completedAt := Some(now))
  }

  /** There is no status guard: completing a failed backup is accepted and
      keeps the failure's message, and failing a completed one keeps its
      file; either way the duration is measured to the last call. */
  lemma NoStatusGuard(b: Backup, filePath: string, fileSize: int, metadata: Option<map<string, string>>,
                      errorMessage: string, t1: int, t2: int)
    ensures var c := CompletedRecord(FailedRecord(b, errorMessage, t1), filePath, fileSize, metadata, t2);
      c.status == BackupCompleted && c.errorMessage == errorMessage && Duration(c) == Some(t2 - b.startedAt)
    ensures var f := FailedRecord(CompletedRecord(b, filePath, fileSize, metadata, t1), errorMessage, t2);
      f.status == BackupFailed && f.filePath == filePath && f.fileSize == fileSize && Duration(f) == Some(t2 - b.startedAt)
  {
  }

  predicate BackupIdsBelow(backups: seq<Backup>, nextId: int) {
    (forall k :: 0 <= k < |backups| ==> backups[k].id < nextId)
    && forall i, j :: 0 <= i < j < |backups| ==> backups[i].id < backups[j].id
  }

  /** `BackupRecord.objects.get(id=...)` */
  function FindBackup(backups: seq<Backup>, id: int): (r: Option<nat>)
    ensures r.Some? ==> r.value < |backups| && backups[r.value].id == id
    ensures r.None? <==> forall k :: 0 <= k < |backups| ==> backups[k].id != id
  {
    IndexWhere(backups, (b: Backup) => b.id == id)
  }

  // ---------------------------------------------------------------------
  // configuration lookup: `filter(key__iexact=key).first()` under the
  // model's ordering ['category', 'key']

  /** (category, key) order. */
  predicate ConfigLe(a: Config, b: Config) {
    StrLe(a.category, b.category) && (a.category == b.category ==> StrLe(a.key, b.key))
  }

  lemma ConfigLeTotal(a: Config, b: Config)
    ensures ConfigLe(a, b) || ConfigLe(b, a)
  {
    StrLeTotal(a.category, b.category);
    StrLeTotal(a.key, b.key);
    if StrLe(a.category, b.category) && StrLe(b.category, a.category) {
      StrLeAntisymmetric(a.category, b.category);
    }
  }

  lemma ConfigLeTrans(a: Config, b: Config, c: Config)
    requires ConfigLe(a, b) && ConfigLe(b, c)
    ensures ConfigLe(a, c)
  {
    StrLeTrans(a.category, b.category, c.category);
    if a.category == c.category {
      StrLeAntisymmetric(a.category, b.category);
      StrLeTrans(a.key, b.key, c.key);
    }
  }

  /** The first configuration whose key equals `key` ignoring case. */
  function ConfigByKey(configs: seq<Config>, key: string): (r: Option<nat>)
    ensures r.Some? ==> r.value < |configs| && EqualsIgnoreCase(configs[r.value].key, key)
    ensures r.Some? ==> forall k :: 0 <= k < |configs| && EqualsIgnoreCase(configs[k].key, key) ==>
      ConfigLe(configs[r.value], configs[k])
    ensures r.None? <==> forall k :: 0 <= k < |configs| ==> !EqualsIgnoreCase(configs[k].key, key)
    decreases |configs|
  {
    if configs == [] then None
    else
      var n := |configs| - 1;
      var init := configs[..n];
      assert forall k :: 0 <= k < n ==> init[k] == configs[k];
      var r := ConfigByKey(init, key);
      if !EqualsIgnoreCase(configs[n].key, key) then r
      else if r.Some? && ConfigLe(init[r.value], configs[n]) then r
      else
        LastIsLeast(configs, key, r);
        Some(n)
  }

  /** The step of `ConfigByKey` that picks the last row. */
  lemma LastIsLeast(configs: seq<Config>, key: string, r: Option<nat>)
    requires configs != [] && EqualsIgnoreCase(configs[|configs| - 1].key, key)
    requires r.Some? ==> r.value < |configs| - 1 && !ConfigLe(configs[r.value], configs[|configs| - 1])
    requires r.Some? ==> forall k :: 0 <= k < |configs| - 1 && EqualsIgnoreCase(configs[k].key, key) ==>
      ConfigLe(configs[r.value], configs[k])
    requires r.None? ==> forall k :: 0 <= k < |configs| - 1 ==> !EqualsIgnoreCase(configs[k].key, key)
    ensures forall k :: 0 <= k < |configs| && EqualsIgnoreCase(configs[k].key, key) ==>
      ConfigLe(configs[|configs| - 1], configs[k])
  {
    var n := |configs| - 1;
    forall k | 0 <= k < |configs| && EqualsIgnoreCase(configs[k].key, key)
      ensures ConfigLe(configs[n], configs[k])
    {
      if k == n {
        StrLeTotal(configs[n].category, configs[n].category);
        StrLeTotal(configs[n].key, configs[n].key);
      } else {
        ConfigLeTotal(configs[r.value], configs[n]);
        ConfigLeTrans(configs[n], configs[r.value], configs[k]);
      }
    }
  }

  /** The message `update_configuration_value` logs. */
  function UpdatedMessage(key: string, value: string): string {
    "Configuration '" + key + "' updated to '" + value + "'"
  }

  // ---------------------------------------------------------------------
  // audit summary

  function ForModel(modelName: string): AuditLog -> bool {
    (l: AuditLog) => l.modelName == modelName
  }

  function ActionIs(action: string): AuditLog -> bool {
    (l: AuditLog) => l.action == action
  }

  /** The loop `summary[log.action] = summary.get(log.action, 0) + 1`. */
  function Tally(logs: seq<AuditLog>): map<string, nat>
    decreases |logs|
  {
    if logs == [] then map[]
    else
      var m := Tally(logs[..|logs| - 1]);
      var x := logs[|logs| - 1].action;
      m[x := (if x in m then m[x] else 0) + 1]
  }

  /** The summary holds exactly the actions present, each with its count. */
  lemma {:induction false} TallyCounts(logs: seq<AuditLog>)
    ensures forall a :: a in Tally(logs) <==> exists k :: 0 <= k < |logs| && logs[k].action == a
    ensures forall a :: a in Tally(logs) ==> Tally(logs)[a] == Count(logs, ActionIs(a))
    decreases |logs|
  {
    if logs != [] {
      var n := |logs| - 1;
      var init := logs[..n];
      TallyCounts(init);
      var m := Tally(init);
      var x := logs[n].action;
      assert logs == init + [logs[n]];
      assert forall k :: 0 <= k < n ==> init[k] == logs[k];
      forall a
        ensures a in Tally(logs) <==> exists k :: 0 <= k < |logs| && logs[k].action == a
      {
        if a == x {
          assert logs[n].action == a;
        } else {
          assert a in Tally(logs) <==> a in m;
        }
      }
      forall a | a in Tally(logs)
        ensures Tally(logs)[a] == Count(logs, ActionIs(a))
      {
        CountSnoc(init, logs[n], ActionIs(a));
        if a == x && x !in m {
          CountNone(init, ActionIs(x));
        }
      }
    }
  }

  /** The distinct actions in order of first appearance. */
  function Actions(logs: seq<AuditLog>): seq<string>
    decreases |logs|
  {
    if logs == [] then []
    else
      var acts := Actions(logs[..|logs| - 1]);
      var x := logs[|logs| - 1].action;
      if x in acts then acts else acts + [x]
  }

  lemma {:induction false} ActionsDistinct(logs: seq<AuditLog>)
    ensures forall i, j :: 0 <= i < j < |Actions(logs)| ==> Actions(logs)[i] != Actions(logs)[j]
    decreases |logs|
  {
    if logs != [] {
      ActionsDistinct(logs[..|logs| - 1]);
    }
  }

  /** The sum of the summary's counts over the given actions. */
  function SumOver(m: map<string, nat>, keys: seq<string>): nat
    requires forall i :: 0 <= i < |keys| ==> keys[i] in m
    decreases |keys|
  {
    if keys == [] then 0 else SumOver(m, keys[..|keys| - 1]) + m[keys[|keys| - 1]]
  }

  /** Keys that are not bumped keep their sum. */
  lemma {:induction false} SumOverOther(m: map<string, nat>, keys: seq<string>, x: string, v: nat)
    requires forall i :: 0 <= i < |keys| ==> keys[i] in m && keys[i] != x
    ensures SumOver(m[x := v], keys) == SumOver(m, keys)
    decreases |keys|
  {
    if keys != [] {
      SumOverOther(m, keys[..|keys| - 1], x, v);
    }
  }

  /** Bumping one of distinct keys by one adds one to the sum. */
  lemma {:induction false} SumOverBump(m: map<string, nat>, keys: seq<string>, x: string)
    requires forall i :: 0 <= i < |keys| ==> keys[i] in m
    requires forall i, j :: 0 <= i < j < |keys| ==> keys[i] != keys[j]
    requires x in keys
    ensures SumOver(m[x := m[x] + 1], keys) == SumOver(m, keys) + 1
    decreases |keys|
  {
    var n := |keys| - 1;
    var init := keys[..n];
    if keys[n] == x {
      assert forall i :: 0 <= i < n ==> init[i] == keys[i] && init[i] != x;
      SumOverOther(m, init, x, m[x] + 1);
    } else {
      assert x in init by {
        var i :| 0 <= i < |keys| && keys[i] == x;
        assert init[i] == x;
      }
      SumOverBump(m, init, x);
    }
  }

  /** A new action counted once adds one to the sum. */
  lemma SumOverNew(m: map<string, nat>, keys: seq<string>, x: string)
    requires forall i :: 0 <= i < |keys| ==> keys[i] in m && keys[i] != x
    ensures forall i :: 0 <= i < |keys + [x]| ==> (keys + [x])[i] in m[x := 1]
    ensures SumOver(m[x := 1], keys + [x]) == SumOver(m, keys) + 1
  {
    assert (keys + [x])[..|keys|] == keys;
    SumOverOther(m, keys, x, 1);
  }

  /** The counts of the summary add up to the number of logs. */
  lemma {:induction false} TallyTotal(logs: seq<AuditLog>)
    ensures forall i :: 0 <= i < |Actions(logs)| ==> Actions(logs)[i] in Tally(logs)
    ensures SumOver(Tally(logs), Actions(logs)) == |logs|
    decreases |logs|
  {
    ActionsAreKeys(logs);
    if logs != [] {
      var n := |logs| - 1;
      var init := logs[..n];
      TallyTotal(init);
      ActionsAreKeys(init);
      var m := Tally(init);
      var a0 := Actions(init);
      var x := logs[n].action;
      if x in a0 {
        ActionsDistinct(init);
        SumOverBump(m, a0, x);
      } else {
        SumOverNew(m, a0, x);
      }
    }
  }

  /** The summary's keys are the distinct actions. */
  lemma {:induction false} ActionsAreKeys(logs: seq<AuditLog>)
    ensures forall a :: a in Tally(logs) <==> a in Actions(logs)
    decreases |logs|
  {
    if logs != [] {
      ActionsAreKeys(logs[..|logs| - 1]);
    }
  }

  /** The counting loop of `get_model_audit_summary`. */
  method TallyLoop(logs: seq<AuditLog>) returns (summary: map<string, nat>)
    ensures summary == Tally(logs)
  {
    summary := map[];
    var k := 0;
    while k < |logs|
      invariant 0 <= k <= |logs|
      invariant summary == Tally(logs[..k])
    {
      assert logs[..k + 1][..k] == logs[..k];
      var a := logs[k].action;
      summary := summary[a := (if a in summary then summary[a] else 0) + 1];
      k := k + 1;
    }
    assert logs[..k] == logs;
  }

  class AdminStore {
    var backups: seq<Backup>
    var configs: seq<Config>
    var systemLogs: seq<SystemLog>
    var auditLogs: seq<AuditLog>
    var nextBackupId: int
    var nextLogId: int
    var nextAuditId: int

    ghost predicate Valid()
      reads this
    {
      BackupIdsBelow(backups, nextBackupId)
    }

    constructor (configs: seq<Config>)
      ensures Valid() && this.configs == configs && backups == [] && systemLogs == [] && auditLogs == []
    {
      this.configs := configs;
      backups, systemLogs, auditLogs := [], [], [];
      nextBackupId, nextLogId, nextAuditId := 1, 1, 1;
    }

    /** `initiate_backup`: a new record, in progress since now. */
    method InitiateBackup(backupType: string, user: Option<int>, now: int) returns (b: Backup)
      requires Valid()
      modifies this`backups, this`nextBackupId
      ensures Valid()
      ensures b == Backup(old(nextBackupId), backupType, "", 0, InProgress, "", user, now, None, map[])
      ensures backups == old(backups) + [b] && nextBackupId == old(nextBackupId) + 1
    {
      b := Backup(nextBackupId, backupType, "", 0, InProgress, "", user, now, None, map[]);
      backups := backups + [b];
      nextBackupId := nextBackupId + 1;
    }

    /** `complete_backup`; an unknown id raises DoesNotExist. */
    method CompleteBackup(id: int, filePath: string, fileSize: int, metadata: Option<map<string, string>>, now: int)
      returns (r: Result<Backup>)
      requires Valid()
      modifies this`backups
      ensures Valid()
      ensures var i := FindBackup(old(backups), id);
        if i.None? then
          r == Failure("DoesNotExist") && backups == old(backups)
        else
          r == Success(CompletedRecord(old(backups)[i.value], filePath, fileSize, metadata, now))
          && backups == old(backups)[i.value := r.value]
    {
      var i := FindBackup(backups, id);
      if i.None? {
        return Failure("DoesNotExist");
      }
      var b := CompletedRecord(backups[i.value], filePath, fileSize, metadata, now);
      backups := backups[i.value := b];
      return Success(b);
    }

    /** `fail_backup`; an unknown id raises DoesNotExist. */
    method FailBackup(id: int, errorMessage: string, now: int) returns (r: Result<Backup>)
      requires Valid()
      modifies this`backups
      ensures Valid()
      ensures var i := FindBackup(old(backups), id);
        if i.None? then
          r == Failure("DoesNotExist") && backups == old(backups)
        else
          r == Success(FailedRecord(old(backups)[i.value], errorMessage, now))
          && backups == old(backups)[i.value := r.value]
    {
      var i := FindBackup(backups, id);
      if i.None? {
        return Failure("DoesNotExist");
      }
      var b := FailedRecord(backups[i.value], errorMessage, now);
      backups := backups[i.value := b];
      return Success(b);
    }

    /** `log_system_event` */
    method LogSystemEvent(level: string, category: string, message: string, user: Option<int>,
                          ip: Option<string>, path: Option<string>, metadata: Option<map<string, string>>, now: int)
      returns (log: SystemLog)
      modifies this`systemLogs, this`nextLogId
      ensures log == SystemLog(old(nextLogId), level, category, message, user, ip, path, OrEmpty(metadata), now)
      ensures systemLogs == old(systemLogs) + [log] && nextLogId == old(nextLogId) + 1
    {
      log := SystemLog(nextLogId, level, category, message, user, ip, path, OrEmpty(metadata), now);
      systemLogs := systemLogs + [log];
      nextLogId := nextLogId + 1;
    }

    /** `update_configuration_value`: an unknown key raises ValueError and
        logs nothing; otherwise the value is set and one INFO/SYSTEM entry
        is logged. */
    method UpdateConfigurationValue(key: string, newValue: string, user: Option<int>, now: int)
      returns (r: Result<Config>)
      modifies this`configs, this`systemLogs, this`nextLogId
      ensures var i := ConfigByKey(old(configs), key);
        if i.None? then
          r == Failure("Configuration key '" + key + "' not found.")
          && configs == old(configs) && systemLogs == old(systemLogs)
        else
          r == Success(old(configs)[i.value].(value := newValue, updatedAt := now))
          && configs == old(configs)[i.value := r.value]
          && systemLogs == old(systemLogs) + [SystemLog(old(nextLogId), "INFO", "SYSTEM",
               UpdatedMessage(key, newValue), user, None, None, map[], now)]
    {
      var i := ConfigByKey(configs, key);
      if i.None? {
        return Failure("Configuration key '" + key + "' not found.");
      }
      var c := configs[i.value].(value := newValue, updatedAt := now);
      configs := configs[i.value := c];
      var _ := LogSystemEvent("INFO", "SYSTEM", UpdatedMessage(key, newValue), user, None, None, None, now);
      return Success(c);
    }

    /** `record_audit_log`: the object id is stored as text and missing
        changes as an empty dictionary. */
    method RecordAuditLog(action: string, modelName: string, objectId: ObjectId, user: Option<int>,
                          changes: Option<map<string, string>>, objectRepr: string,
                          ip: Option<string>, userAgent: Option<string>, now: int)
      returns (log: AuditLog)
      modifies this`auditLogs, this`nextAuditId
      ensures log == AuditLog(old(nextAuditId), action, modelName, ObjectIdText(objectId), objectRepr,
                              OrEmpty(changes), user, ip, userAgent, now)
      ensures auditLogs == old(auditLogs) + [log] && nextAuditId == old(nextAuditId) + 1
    {
      log := AuditLog(nextAuditId, action, modelName, ObjectIdText(objectId), objectRepr,
                      OrEmpty(changes), user, ip, userAgent, now);
      auditLogs := auditLogs + [log];
      nextAuditId := nextAuditId + 1;
    }

    /** `get_model_audit_summary`: each action of the model's logs mapped to
        its count; the counts add up to the number of those logs. */
    method GetModelAuditSummary(modelName: string) returns (summary: map<string, nat>)
      ensures summary == Tally(Filter(auditLogs, ForModel(modelName)))
      ensures var logs := Filter(auditLogs, ForModel(modelName));
        (forall a :: a in summary <==> exists k :: 0 <= k < |logs| && logs[k].action == a)
        && (forall a :: a in summary ==> summary[a] == Count(logs, ActionIs(a)))
      ensures var logs := Filter(auditLogs, ForModel(modelName));
        (forall i :: 0 <= i < |Actions(logs)| ==> Actions(logs)[i] in summary)
        && SumOver(summary, Actions(logs)) == |logs|
    {
      var logs := Filter(auditLogs, ForModel(modelName));
      summary := TallyLoop(logs);
      TallyCounts(logs);
      TallyTotal(logs);
    }
  }
}
