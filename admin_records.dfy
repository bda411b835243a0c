/** The adminpanel records (adminpanel/models.py): a configuration's typed
    value and a backup's duration. Times are whole seconds. */
module AdminRecords {
  import opened Base

  // ---------------------------------------------------------------------
  // `int(text)`

  function StripLeft(s: string): (r: string)
    ensures |r| <= |s| && r == s[|s| - |r|..]
    ensures r != [] ==> !IsSpace(r[0])
  {
    if s != [] && IsSpace(s[0]) then StripLeft(s[1..]) else s
  }

  function StripRight(s: string): (r: string)
    ensures |r| <= |s| && r == s[..|r|]
    ensures r != [] ==> !IsSpace(r[|r| - 1])
  {
    if s != [] && IsSpace(s[|s| - 1]) then StripRight(s[..|s| - 1]) else s
  }

  /** `str.strip()` on ASCII white space. */
  function Strip(s: string): string { StripRight(StripLeft(s)) }

  /** `int(text)`: surrounding white space, an optional sign, then decimal
      digits; anything else raises ValueError. */
  function ParseInt(text: string): (r: Result<int>)
    ensures r.Failure? ==> r.error == "ValueError"
    ensures Strip(text) == [] ==> r.Failure?
  {
    var t := Strip(text);
    if t == [] then Failure("ValueError")
    else
      var negative := t[0] == '-';
      var digits := if t[0] == '-' || t[0] == '+' then t[1..] else t;
      if !AllDigits(digits) then Failure("ValueError")
      else
        var v: int := DigitsValue(digits);
        Success(if negative then -v else v)
  }

  /** Text with no white space at either end is its own strip. */
  lemma StripKeeps(s: string)
    requires s != [] && !IsSpace(s[0]) && !IsSpace(s[|s| - 1])
    ensures Strip(s) == s
  {
    assert StripLeft(s) == s;
  }

  /** `int(str(n)) == n` */
  lemma ParseIntRoundTrip(n: int)
    ensures ParseInt(IntToString(n)) == Success(n)
  {
    if n < 0 {
      var m: nat := -n;
      assert IntToString(n) == "-" + NatToString(m);
      ParseIntMinus(m);
    } else {
      assert IntToString(n) == NatToString(n);
      ParseIntDigits(n);
    }
  }

  /** The digits of m read back as m. */
  lemma ParseIntDigits(m: nat)
    ensures ParseInt(NatToString(m)) == Success(m)
  {
    var d := NatToString(m);
    assert IsDigit(d[0]) && IsDigit(d[|d| - 1]);
    StripKeeps(d);
    assert d[0] != '-' && d[0] != '+';
    assert AllDigits(d);
    NatToStringValue(m);
  }

  /** A minus sign before the digits of m reads back as -m. */
  lemma ParseIntMinus(m: nat)
    ensures ParseInt("-" + NatToString(m)) == Success(-(m as int))
  {
    var d := NatToString(m);
    var s := "-" + d;
    assert s[|s| - 1] == d[|d| - 1] && IsDigit(s[|s| - 1]);
    StripKeeps(s);
    assert s[0] == '-' && s[1..] == d;
    assert AllDigits(d);
    NatToStringValue(m);
  }

  // ---------------------------------------------------------------------
  // SystemConfiguration

  datatype Config = Config(
    id: int, key: string, value: string, dataType: string, description: string,
    category: string, isActive: bool, createdBy: Option<int>, createdAt: int, updatedAt: int)

  /** What `get_typed_value` returns. A FLOAT or JSON value is checked but
      its number or document is not built here. */
  datatype TypedValue = IntValue(i: int) | BoolValue(b: bool) | TextValue(s: string) | Uninterpreted(dataType: string)

  /** Whether Python's `float()` and `json.loads` accept a text; both raise
      on a text they reject. */
  datatype TextReaders = TextReaders(floatAccepts: string -> bool, jsonAccepts: string -> bool)

  const TrueWords: seq<string> := ["true", "1", "yes"]

  /** `value.lower() in ('true', '1', 'yes')` */
  predicate Truthy(value: string) { Lower(value) in TrueWords }

  /** `SystemConfiguration.get_typed_value`: INTEGER and FLOAT raise
      ValueError on a text their conversion rejects, JSON raises
      JSONDecodeError, and BOOLEAN and every other type never fail. */
  function TypedValueOf(c: Config, readers: TextReaders): (r: Result<TypedValue>)
    ensures r.Failure? ==>
      (c.dataType == "INTEGER" && r.error == "ValueError")
      || (c.dataType == "FLOAT" && r.error == "ValueError")
      || (c.dataType == "JSON" && r.error == "JSONDecodeError")
    ensures c.dataType == "INTEGER" ==> (r.Success? <==> ParseInt(c.value).Success?)
    ensures c.dataType == "INTEGER" && r.Success? ==> r.value == IntValue(ParseInt(c.value).value)
    ensures c.dataType == "FLOAT" ==>
      (r.Success? <==> readers.floatAccepts(c.value)) && (r.Success? ==> r.value == Uninterpreted("FLOAT"))
    ensures c.dataType == "JSON" ==>
      (r.Success? <==> readers.jsonAccepts(c.value)) && (r.Success? ==> r.value == Uninterpreted("JSON"))
    ensures c.dataType == "BOOLEAN" ==> r.Success? && r.value.BoolValue? && (r.value.b <==> Lower(c.value) in {"true", "1", "yes"})
    ensures c.dataType !in {"INTEGER", "FLOAT", "BOOLEAN", "JSON"} ==> r == Success(TextValue(c.value))
  {
    if c.dataType == "INTEGER" then
      var n := ParseInt(c.value);
      if n.Success? then Success(IntValue(n.value)) else Failure(n.error)
    else if c.dataType == "FLOAT" then
      if readers.floatAccepts(c.value) then Success(Uninterpreted("FLOAT")) else Failure("ValueError")
    else if c.dataType == "BOOLEAN" then Success(BoolValue(Truthy(c.value)))
    else if c.dataType == "JSON" then
      if readers.jsonAccepts(c.value) then Success(Uninterpreted("JSON")) else Failure("JSONDecodeError")
    else Success(TextValue(c.value))
  }

  /** A boolean read ignores case. */
  lemma BooleanIgnoresCase(c: Config, readers: TextReaders)
    requires c.dataType == "BOOLEAN" && c.value == "TRUE"
    ensures TypedValueOf(c, readers) == Success(BoolValue(true))
  {
    assert Lower(c.value) == "true";
  }

  /** An INTEGER configuration stored from a number reads back that number. */
  lemma IntegerRoundTrip(c: Config, n: int, readers: TextReaders)
    requires c.dataType == "INTEGER" && c.value == IntToString(n)
    ensures TypedValueOf(c, readers) == Success(IntValue(n))
  {
    ParseIntRoundTrip(n);
  }

  /** A value that is not a number makes an INTEGER read raise. */
  lemma IntegerRejectsWord(c: Config, readers: TextReaders)
    requires c.dataType == "INTEGER" && c.value == "ten"
    ensures TypedValueOf(c, readers) == Failure("ValueError")
  {
    StripKeeps(c.value);
    assert !IsDigit(c.value[0]);
  }

  // ---------------------------------------------------------------------
  // BackupRecord

  datatype BackupStatus = BackupPending | InProgress | BackupCompleted | BackupFailed

  function BackupStatusValue(s: BackupStatus): string {
    match s
    case BackupPending => "PENDING"
    case InProgress => "IN_PROGRESS"
    case BackupCompleted => "COMPLETED"
    case BackupFailed => "FAILED"
  }

  datatype Backup = Backup(
    id: int, backupType: string, filePath: string, fileSize: int, status: BackupStatus,
    errorMessage: string, initiatedBy: Option<int>, startedAt: int, completedAt: Option<int>,
    metadata: map<string, string>)

  /** `BackupRecord.duration`: None while unfinished, else the span. */
  function Duration(b: Backup): (r: Option<int>)
    ensures r.None? <==> b.completedAt.None?
    ensures r.Some? ==> b.startedAt + r.value == b.completedAt.value
  {
    if b.completedAt.Some? then Some(b.completedAt.value - b.startedAt) else None
  }
}
