/** `ReportService` (reports/services.py) over the report and category
    tables, with the pre-save checks of reports/signals.py run on every
    save and the category seeding of reports/signals.py and
    reports/utils.py. `timezone.now()` is the `now` parameter. */
module ReportServices {
  import opened Base
  import opened ReportRecords
  import opened ReportUtils

  predicate ReportIdsBelow(rows: seq<Report>, nextId: int) {
    (forall k :: 0 <= k < |rows| ==> rows[k].id < nextId)
    && forall i, j :: 0 <= i < j < |rows| ==> rows[i].id < rows[j].id
  }

  predicate CategoryIdsBelow(rows: seq<Category>, nextId: int) {
    (forall k :: 0 <= k < |rows| ==> rows[k].id < nextId)
    && forall i, j :: 0 <= i < j < |rows| ==> rows[i].id < rows[j].id
  }

  function FindReport(rows: seq<Report>, id: int): (r: Option<nat>)
    ensures r.Some? ==> r.value < |rows| && rows[r.value].id == id
    ensures r.None? <==> forall k :: 0 <= k < |rows| ==> rows[k].id != id
  {
    IndexWhere(rows, (x: Report) => x.id == id)
  }

  /** `get(name=...)`: the category with exactly this name. */
  function FindCategory(rows: seq<Category>, name: string): (r: Option<nat>)
    ensures r.Some? ==> r.value < |rows| && rows[r.value].name == name
    ensures r.None? <==> forall k :: 0 <= k < |rows| ==> rows[k].name != name
  {
    IndexWhere(rows, (c: Category) => c.name == name)
  }

  /** `report.content.update(template.template_structure)` */
  function Overlay(content: map<string, string>, structure: map<string, string>): (r: map<string, string>)
    ensures r.Keys == content.Keys + structure.Keys
    ensures forall k :: k in structure ==> r[k] == structure[k]
    ensures forall k :: k in content && k !in structure ==> r[k] == content[k]
  {
    content + structure
  }

  /** Applying the same template twice is applying it once, and an empty
      template changes nothing. */
  lemma OverlayLaws(content: map<string, string>, structure: map<string, string>)
    ensures Overlay(Overlay(content, structure), structure) == Overlay(content, structure)
    ensures Overlay(content, map[]) == content
  {
  }

  /** The record `generate_report` saves. */
  function GeneratedRecord(r: Report, template: Option<Template>, now: int): (g: Report)
    ensures g.status == Generated && g.publishedAt == Some(now)
    ensures template.None? ==> g.content == r.content
    ensures template.Some? ==> g.content == Overlay(r.content, template.value.structure)
    ensures g.(content := r.content, status := r.status, publishedAt := r.publishedAt) == r
  {
    r.(content := if template.Some? then Overlay(r.content, template.value.structure) else r.content,
       status := Generated, publishedAt := Some(now))
  }

  /** `export_report`: only 'json' is accepted, and the export is the file
      named after the report's title and the moment of the call. */
  function ExportReport(r: Report, exportFormat: string, now: Moment): (result: Result<string>)
    ensures result.Success? <==> exportFormat == "json"
    ensures result.Success? ==> result.value == ReportFilename(r.title, now)
    ensures result.Failure? ==> result.error == "Unsupported export format: " + exportFormat
  {
    if exportFormat == "json" then Success(ReportFilename(r.title, now))
    else Failure("Unsupported export format: " + exportFormat)
  }

  /** A category to seed: `ReportCategory.objects.get_or_create(name=...,
      defaults=...)`. */
  datatype Seed = Seed(name: string, description: string, reportType: string)

  /** The four categories seeded after migration (`populate_report_categories`). */
  const MigrationSeeds: seq<Seed> := [
    Seed("Medical Reports", "Standard medical reports", "MEDICAL"),
    Seed("Financial Reports", "Financial and billing reports", "FINANCIAL"),
    Seed("Operational Reports", "Hospital operational reports", "OPERATIONAL"),
    Seed("Research Reports", "Academic and clinical research reports", "RESEARCH")]

  /** The three categories `validate_report_configurations` seeds. */
  const ConfigurationSeeds: seq<Seed> := [
    Seed("Medical Reports", "Standard medical reports", "MEDICAL"),
    Seed("Financial Reports", "Financial and billing reports", "FINANCIAL"),
    Seed("Operational Reports", "Hospital operational reports", "OPERATIONAL")]

  predicate NamePresent(rows: seq<Category>, name: string) {
    exists k :: 0 <= k < |rows| && rows[k].name == name
  }

  /** Category `c` is made from one of the first `k` seeds. */
  predicate FromSeed(c: Category, seeds: seq<Seed>, k: nat)
    requires k <= |seeds|
  {
    exists j :: 0 <= j < k && c.name == seeds[j].name
      && c.description == Some(seeds[j].description) && c.reportType == seeds[j].reportType
  }

  /** Every row from `from` on was made from one of the first `k` seeds. */
  predicate FromSeeds(rows: seq<Category>, from: nat, seeds: seq<Seed>, k: nat)
    requires k <= |seeds|
  {
    forall n :: from <= n < |rows| ==> FromSeed(rows[n], seeds, k)
  }

  /** The names of the first `k` seeds are all stored. */
  predicate AllPresent(rows: seq<Category>, seeds: seq<Seed>, k: nat)
    requires k <= |seeds|
  {
    forall j :: 0 <= j < k ==> NamePresent(rows, seeds[j].name)
  }

  lemma FromSeedsWider(rows: seq<Category>, from: nat, seeds: seq<Seed>, k: nat, k': nat)
    requires k <= k' <= |seeds| && FromSeeds(rows, from, seeds, k)
    ensures FromSeeds(rows, from, seeds, k')
  {
    forall n | from <= n < |rows|
      ensures FromSeed(rows[n], seeds, k')
    {
      assert FromSeed(rows[n], seeds, k);
      var j :| 0 <= j < k && rows[n].name == seeds[j].name
        && rows[n].description == Some(seeds[j].description) && rows[n].reportType == seeds[j].reportType;
      assert j < k';
    }
  }

  /** One round of the seeding loop: the seed was found, or its row was appended. */
  lemma SeedStep(before: seq<Category>, prev: seq<Category>, cur: seq<Category>, seeds: seq<Seed>, k: nat, created: bool)
    requires k < |seeds| && |before| <= |prev| && prev[..|before|] == before
    requires FromSeeds(prev, |before|, seeds, k) && AllPresent(prev, seeds, k)
    requires !created ==> cur == prev && FindCategory(prev, seeds[k].name).Some?
    requires created ==>
      |cur| == |prev| + 1 && cur[..|prev|] == prev && cur[|prev|].name == seeds[k].name
      && cur[|prev|].description == Some(seeds[k].description) && cur[|prev|].reportType == seeds[k].reportType
    ensures |before| <= |cur| && cur[..|before|] == before
    ensures FromSeeds(cur, |before|, seeds, k + 1) && AllPresent(cur, seeds, k + 1)
  {
    assert forall n :: 0 <= n < |prev| ==> cur[n] == prev[n];
    assert cur[..|before|] == before by {
      assert forall n :: 0 <= n < |before| ==> cur[n] == before[n];
    }
    FromSeedsWider(prev, |before|, seeds, k, k + 1);
    forall n | |before| <= n < |cur|
      ensures FromSeed(cur[n], seeds, k + 1)
    {
      if n < |prev| {
        assert FromSeed(prev[n], seeds, k + 1);
        assert cur[n] == prev[n];
      } else {
        assert cur[n].name == seeds[k].name;
      }
    }
    forall j | 0 <= j < k + 1
      ensures NamePresent(cur, seeds[j].name)
    {
      if j < k {
        var w :| 0 <= w < |prev| && prev[w].name == seeds[j].name;
        assert cur[w] == prev[w];
      } else if created {
        assert cur[|prev|].name == seeds[k].name;
      } else {
        var i := FindCategory(prev, seeds[k].name).value;
        assert cur[i].name == seeds[k].name;
      }
    }
  }

  /** A new category that passes the pre-save check keeps the table consistent. */
  lemma AppendCategoryKeeps(rows: seq<Category>, nextId: int, c: Category)
    requires CategoryIdsBelow(rows, nextId) && NamesDistinct(rows)
    requires c.id == nextId && !CategoryClash(rows, None, c.name)
    ensures CategoryIdsBelow(rows + [c], nextId + 1) && NamesDistinct(rows + [c])
  {
    var rows' := rows + [c];
    forall i, j | 0 <= i < j < |rows'|
      ensures !EqualsIgnoreCase(rows'[i].name, rows'[j].name) && rows'[i].id < rows'[j].id
    {
      assert rows'[i] == rows[i];
      if j < |rows| {
        assert rows'[j] == rows[j];
      } else {
        assert !EqualsIgnoreCase(rows[i].name, c.name);
      }
    }
  }

  lemma ReplaceReportKeeps(rows: seq<Report>, nextId: int, i: nat, r: Report)
    requires ReportIdsBelow(rows, nextId) && i < |rows| && r.id == rows[i].id
    ensures ReportIdsBelow(rows[i := r], nextId)
  {
  }

  class ReportStore {
    var reports: seq<Report>
    var categories: seq<Category>
    var nextReportId: int
    var nextCategoryId: int

    ghost predicate Valid()
      reads this
    {
      ReportIdsBelow(reports, nextReportId)
      && CategoryIdsBelow(categories, nextCategoryId) && NamesDistinct(categories)
    }

    constructor ()
      ensures Valid() && reports == [] && categories == []
    {
      reports, categories := [], [];
      nextReportId, nextCategoryId := 1, 1;
    }

    /** `ReportService.create_report`: a draft with empty content unless
        some is given. The pre-save check runs before the generation time is
        filled in, so it always passes. */
    method CreateReport(title: string, doctor: Option<Party>, patient: Option<Party>, category: Option<int>,
                        content: Option<map<string, string>>, generatedBy: Option<int>, now: int)
      returns (r: Report)
      requires Valid()
      modifies this`reports, this`nextReportId
      ensures Valid()
      ensures r == Report(old(nextReportId), title, None, doctor, patient, category, OrEmpty(content),
                          Draft, MediumPriority, Some(now), None, generatedBy)
      ensures reports == old(reports) + [r] && nextReportId == old(nextReportId) + 1
    {
      var pending := Report(nextReportId, title, None, doctor, patient, category, OrEmpty(content),
                            Draft, MediumPriority, None, None, generatedBy);
      var checked := PreSave(pending, now);
      r := checked.value.(generatedAt := Some(now));
      reports := reports + [r];
      nextReportId := nextReportId + 1;
    }

    /** `ReportService.generate_report`, whatever the stored status: the
        template's keys are laid over the content, the status becomes
        generated and the publication time is now. A clock earlier than the
        generation time makes the pre-save check raise and the transaction
        leaves the table as it was. */
    method GenerateReport(id: int, template: Option<Template>, now: int) returns (result: Result<Report>)
      requires Valid() && FindReport(reports, id).Some?
      modifies this`reports
      ensures Valid()
      ensures var i := FindReport(old(reports), id).value;
        var g := GeneratedRecord(old(reports)[i], template, now);
        if g.generatedAt.Some? && now < g.generatedAt.value then
          result == Failure(PublishedTooEarly) && reports == old(reports)
        else
          result == Success(g) && reports == old(reports)[i := g]
    {
      var i := FindReport(reports, id).value;
      var g := GeneratedRecord(reports[i], template, now);
      var checked := PreSave(g, now);
      if checked.Failure? {
        return Failure(checked.error);
      }
      ReplaceReportKeeps(reports, nextReportId, i, checked.value);
      reports := reports[i := checked.value];
      return Success(checked.value);
    }

    /** Saving a new category: the pre-save check refuses a name another
        category has in any case. */
    method CreateCategory(name: string, description: Option<string>, reportType: string) returns (r: Result<Category>)
      requires Valid()
      modifies this`categories, this`nextCategoryId
      ensures Valid()
      ensures CategoryClash(old(categories), None, name) ==>
        r == Failure(CategoryExists) && categories == old(categories) && nextCategoryId == old(nextCategoryId)
      ensures !CategoryClash(old(categories), None, name) ==>
        r == Success(Category(old(nextCategoryId), name, description, reportType))
        && categories == old(categories) + [r.value] && nextCategoryId == old(nextCategoryId) + 1
    {
      if CategoryClash(categories, None, name) {
        return Failure(CategoryExists);
      }
      var c := Category(nextCategoryId, name, description, reportType);
      AppendCategoryKeeps(categories, nextCategoryId, c);
      categories := categories + [c];
      nextCategoryId := nextCategoryId + 1;
      return Success(c);
    }

    /** `get_or_create(name=seed.name, defaults=seed)`: the stored category
        with exactly that name, else a new one, which the pre-save check may
        refuse. */
    method GetOrCreateCategory(seed: Seed) returns (r: Result<(Category, bool)>)
      requires Valid()
      modifies this`categories, this`nextCategoryId
      ensures Valid()
      ensures var i := FindCategory(old(categories), seed.name);
        if i.Some? then
          r == Success((old(categories)[i.value], false)) && categories == old(categories)
        else if CategoryClash(old(categories), None, seed.name) then
          r == Failure(CategoryExists) && categories == old(categories)
        else
          r == Success((Category(old(nextCategoryId), seed.name, Some(seed.description), seed.reportType), true))
          && categories == old(categories) + [r.value.0]
      ensures nextCategoryId >= old(nextCategoryId)
    {
      var i := FindCategory(categories, seed.name);
      if i.Some? {
        return Success((categories[i.value], false));
      }
      var c := CreateCategory(seed.name, Some(seed.description), seed.reportType);
      if c.Failure? {
        return Failure(c.error);
      }
      return Success((c.value, true));
    }

    /** The seeding loop. It stops at the first refused category; in a
        transaction (`atomic`) the categories created before it are undone.
        When it finishes every seed name is stored, and when every seed name
        was already stored it changes nothing, so running it again after a
        success changes nothing. */
    method SeedCategories(seeds: seq<Seed>, atomic: bool) returns (r: Outcome)
      requires Valid()
      modifies this`categories, this`nextCategoryId
      ensures Valid()
      ensures r.Fail? ==> r.message == CategoryExists
      ensures r.Fail? && atomic ==> categories == old(categories)
      ensures |old(categories)| <= |categories| && categories[..|old(categories)|] == old(categories)
      ensures FromSeeds(categories, |old(categories)|, seeds, |seeds|)
      ensures r.Pass? ==> AllPresent(categories, seeds, |seeds|)
      ensures AllPresent(old(categories), seeds, |seeds|) ==> r.Pass? && categories == old(categories)
    {
      var before := categories;
      var k := 0;
      while k < |seeds|
        invariant 0 <= k <= |seeds|
        invariant Valid() && nextCategoryId >= old(nextCategoryId)
        invariant |before| <= |categories| && categories[..|before|] == before
        invariant FromSeeds(categories, |before|, seeds, k) && AllPresent(categories, seeds, k)
        invariant AllPresent(before, seeds, |seeds|) ==> categories == before
      {
        ghost var prev := categories;
        var x := GetOrCreateCategory(seeds[k]);
        if x.Failure? {
          if atomic {
            categories := before;
          }
          FromSeedsWider(categories, |before|, seeds, k, |seeds|);
          return Fail(x.error);
        }
        SeedStep(before, prev, categories, seeds, k, x.value.1);
        k := k + 1;
      }
      return Pass;
    }

    /** `populate_report_categories`, in one transaction. */
    method PopulateReportCategories() returns (r: Outcome)
      requires Valid()
      modifies this`categories, this`nextCategoryId
      ensures Valid()
      ensures r.Fail? ==> r.message == CategoryExists && categories == old(categories)
      ensures r.Pass? ==> AllPresent(categories, MigrationSeeds, |MigrationSeeds|)
      ensures AllPresent(old(categories), MigrationSeeds, |MigrationSeeds|) ==> r.Pass? && categories == old(categories)
    {
      r := SeedCategories(MigrationSeeds, true);
    }

    /** `validate_report_configurations`, outside a transaction: a refusal
        keeps the categories created before it. */
    method ValidateReportConfigurations() returns (r: Outcome)
      requires Valid()
      modifies this`categories, this`nextCategoryId
      ensures Valid()
      ensures r.Fail? ==> r.message == CategoryExists
      ensures |old(categories)| <= |categories| && categories[..|old(categories)|] == old(categories)
      ensures r.Pass? ==> AllPresent(categories, ConfigurationSeeds, |ConfigurationSeeds|)
      ensures AllPresent(old(categories), ConfigurationSeeds, |ConfigurationSeeds|) ==> r.Pass? && categories == old(categories)
    {
      r := SeedCategories(ConfigurationSeeds, false);
    }
  }
}
