/** The reports records (reports/models.py) and the checks reports/signals.py
    runs before a save. JSON content is a dictionary from keys to the JSON
    text of their values; times are whole seconds. */
module ReportRecords {
  import opened Base

  datatype ReportStatus = Draft | Generated | Reviewed | Published | Archived

  function ReportStatusValue(s: ReportStatus): string {
    match s
    case Draft => "DRAFT"
    case Generated => "GENERATED"
    case Reviewed => "REVIEWED"
    case Published => "PUBLISHED"
    case Archived => "ARCHIVED"
  }

  /** `ReportPriority.MEDIUM`, the default priority. */
  const MediumPriority: int := 2

  /** A doctor or patient row, reduced to the user behind it. */
  datatype Party = Party(id: int, user: int)

  /** `generatedAt` is empty until the first save fills it. */
  datatype Report = Report(
    id: int, title: string, description: Option<string>, doctor: Option<Party>, patient: Option<Party>,
    category: Option<int>, content: map<string, string>, status: ReportStatus, priority: int,
    generatedAt: Option<int>, publishedAt: Option<int>, generatedBy: Option<int>)

  datatype Category = Category(id: int, name: string, description: Option<string>, reportType: string)

  datatype Template = Template(id: int, name: string, structure: map<string, string>, category: Option<int>)

  const PublishedTooEarly: string := "Published time must be after generation time"

  /** `validate_report_before_save`: a publication time strictly before the
      generation time raises; a published report without a publication time
      gets `now`; nothing else changes. */
  function PreSave(r: Report, now: int): (result: Result<Report>)
    ensures result.Failure? <==>
      r.publishedAt.Some? && r.generatedAt.Some? && r.publishedAt.value < r.generatedAt.value
    ensures result.Failure? ==> result.error == PublishedTooEarly
    ensures result.Success? && r.status == Published && r.publishedAt.None? ==>
      result.value == r.(publishedAt := Some(now))
    ensures result.Success? && !(r.status == Published && r.publishedAt.None?) ==> result.value == r
  {
    if r.publishedAt.Some? && r.generatedAt.Some? && r.publishedAt.value < r.generatedAt.value then
      Failure(PublishedTooEarly)
    else if r.status == Published && r.publishedAt.None? then Success(r.(publishedAt := Some(now)))
    else Success(r)
  }

  /** The comparison is strict: publishing in the second of generation is
      accepted, and a report whose times are set fails only when publication
      comes first. Any status other than published keeps an empty publication
      time. */
  lemma PreSaveBoundary(r: Report, now: int)
    ensures r.publishedAt.Some? && r.publishedAt == r.generatedAt ==> PreSave(r, now) == Success(r)
    ensures r.status != Published && PreSave(r, now).Success? ==> PreSave(r, now).value.publishedAt == r.publishedAt
    ensures r.generatedAt.None? ==> PreSave(r, now).Success?
  {
  }

  /** Saving twice is saving once: a report that passed keeps passing and
      is left as it is, provided the clock has not gone back before the
      generation time. The assigned publication time itself is never
      compared with the generation time. */
  lemma PreSaveIdempotent(r: Report, now: int, later: int)
    requires PreSave(r, now).Success?
    requires r.generatedAt.Some? ==> r.generatedAt.value <= now
    ensures PreSave(PreSave(r, now).value, later) == PreSave(r, now)
  {
  }

  const CategoryExists: string := "A category with this name already exists."

  /** `validate_report_category`: another category (a different primary
      key; a new one has none) has this name ignoring case. */
  predicate CategoryClash(rows: seq<Category>, pk: Option<int>, name: string) {
    exists k :: 0 <= k < |rows| && EqualsIgnoreCase(rows[k].name, name) && Some(rows[k].id) != pk
  }

  /** The category names differ even ignoring case. */
  predicate NamesDistinct(rows: seq<Category>) {
    forall i, j :: 0 <= i < j < |rows| ==> !EqualsIgnoreCase(rows[i].name, rows[j].name)
  }

  /** In a table the check keeps consistent, re-saving a stored category
      under its own name passes, while a new category with any stored name,
      in any case, is refused. */
  lemma CategoryResave(rows: seq<Category>, k: nat, name: string)
    requires NamesDistinct(rows) && k < |rows|
    requires EqualsIgnoreCase(name, rows[k].name)
    ensures !CategoryClash(rows, Some(rows[k].id), name)
    ensures CategoryClash(rows, None, name)
  {
    forall j | 0 <= j < |rows| && j != k
      ensures !EqualsIgnoreCase(rows[j].name, name)
    {
      if j < k {
        assert !EqualsIgnoreCase(rows[j].name, rows[k].name);
      } else {
        assert !EqualsIgnoreCase(rows[k].name, rows[j].name);
      }
    }
  }
}
