/** The admin panel page script (adminpanel/static/adminpanel/js/admin.js):
    the request options of `AdminPanel.ajax`, the table search, the
    category tabs, the required-field check, the CSV export and the backup
    button. A page element is reduced to the parts the script reads and
    writes; `style.display = 'none'` is a false "shown" flag. */
module AdminPages {
  import opened Base

  // ---------------------------------------------------------------------
  // `AdminPanel.ajax`

  datatype RequestOptions = RequestOptions(verb: string, headers: map<string, string>, body: Option<string>)

  /** The options `ajax` passes to `fetch`. `csrfToken` is the value of the
      `csrfmiddlewaretoken` field when the page has one; `data` is the JSON
      text of the payload when one is given. */
  function AjaxOptions(verb: string, csrfToken: Option<string>, data: Option<string>): (r: RequestOptions)
    ensures r.verb == verb
    ensures "Content-Type" in r.headers && r.headers["Content-Type"] == "application/json"
    ensures "X-Requested-With" in r.headers && r.headers["X-Requested-With"] == "XMLHttpRequest"
    ensures "X-CSRFToken" in r.headers <==> csrfToken.Some?
    ensures csrfToken.Some? ==> r.headers["X-CSRFToken"] == csrfToken.value
    ensures r.headers.Keys <= {"Content-Type", "X-Requested-With", "X-CSRFToken"}
    ensures r.body.Some? <==> data.Some? && verb != "GET"
    ensures r.body.Some? ==> r.body == data
  {
    var fixed := map["Content-Type" := "application/json", "X-Requested-With" := "XMLHttpRequest"];
    var headers := if csrfToken.Some? then fixed["X-CSRFToken" := csrfToken.value] else fixed;
    RequestOptions(verb, headers, if data.Some? && verb != "GET" then data else None)
  }

  /** A GET never carries a body, and the token header does not depend on
      the method or the payload. */
  lemma AjaxHeadersIndependent(csrfToken: Option<string>, data: Option<string>, verb: string)
    ensures AjaxOptions("GET", csrfToken, data).body == None
    ensures AjaxOptions(verb, csrfToken, data).headers == AjaxOptions("GET", csrfToken, None).headers
  {
  }

  // ---------------------------------------------------------------------
  // `filterTable`

  /** Who matches a longer term matches every prefix of it. */
  lemma {:induction false} ContainsPrefix(s: string, t: string, u: string)
    requires Contains(s, t + u)
    ensures Contains(s, t)
    decreases |s|
  {
    if t + u <= s {
      assert t <= s by {
        assert forall i :: 0 <= i < |t| ==> t[i] == (t + u)[i];
      }
    } else {
      ContainsPrefix(s[1..], t, u);
    }
  }

  /** The body rows of a data table, by their text. */
  class DataTable {
    const rows: seq<string>
    var shown: seq<bool>

    ghost predicate Valid()
      reads this
    {
      |shown| == |rows|
    }

    constructor (rows: seq<string>)
      ensures Valid() && this.rows == rows && forall i :: 0 <= i < |rows| ==> shown[i]
    {
      this.rows := rows;
      shown := seq(|rows|, i => true);
    }

    /** `filterTable(table, searchTerm)`: a row stays shown iff its
        lower-cased text contains the lower-cased term. */
    method FilterTable(searchTerm: string)
      requires Valid()
      modifies this`shown
      ensures Valid()
      ensures forall i :: 0 <= i < |rows| ==> (shown[i] <==> Contains(Lower(rows[i]), Lower(searchTerm)))
    {
      var term := Lower(searchTerm);
      var k := 0;
      while k < |rows|
        invariant 0 <= k <= |rows| && |shown| == |rows|
        invariant forall i :: 0 <= i < k ==> (shown[i] <==> Contains(Lower(rows[i]), term))
      {
        shown := shown[k := Contains(Lower(rows[k]), term)];
        k := k + 1;
      }
    }
  }

  /** An empty search shows every row, and typing more only hides rows. */
  lemma SearchNarrows(row: string, term: string, more: string)
    ensures Contains(Lower(row), Lower(""))
    ensures Contains(Lower(row), Lower(term + more)) ==> Contains(Lower(row), Lower(term))
  {
    ContainsEmpty(Lower(row));
    LowerAppend(term, more);
    if Contains(Lower(row), Lower(term + more)) {
      ContainsPrefix(Lower(row), Lower(term), Lower(more));
    }
  }

  // ---------------------------------------------------------------------
  // `setupCategoryTabs` / `filterByCategory`

  /** Elements with a `data-category` are shown iff the category picked is
      'all' or theirs. */
  function CategoryShown(categories: seq<string>, category: string): (r: seq<bool>)
    ensures |r| == |categories|
    ensures forall i :: 0 <= i < |r| ==> (r[i] <==> category == "all" || categories[i] == category)
  {
    seq(|categories|, i requires 0 <= i < |categories| => category == "all" || categories[i] == category)
  }

  /** The tabs carry `data-category` themselves, so the selector
      `[data-category]` picks them up with the items: choosing a category
      other than 'all' hides the 'all' tab and every other tab. */
  lemma TabsHiddenAsWritten(tabs: seq<string>, k: nat, j: nat)
    requires k < |tabs| && j < |tabs| && tabs[k] != "all" && tabs[j] != tabs[k]
    ensures !CategoryShown(tabs, tabs[k])[j]
    ensures CategoryShown(tabs, tabs[k])[k]
  {
  }

  /** Tabs 'all' and 'A': after a click on 'A' the 'all' tab is hidden, so
      the page cannot go back to showing everything. */
  lemma AllTabLostAsWritten()
    ensures CategoryShown(["all", "A"], "A") == [false, true]
  {
    TabsHiddenAsWritten(["all", "A"], 1, 0);
  }

  /** A page of category tabs and of categorised items. */
  class CategoryPage {
    const tabs: seq<string>
    const items: seq<string>
    var active: seq<bool>
    var tabShown: seq<bool>
    var itemShown: seq<bool>

    ghost predicate Valid()
      reads this
    {
      |active| == |tabs| == |tabShown| && |itemShown| == |items|
    }

    constructor (tabs: seq<string>, items: seq<string>, active: seq<bool>)
      requires |active| == |tabs|
      ensures Valid() && this.tabs == tabs && this.items == items && this.active == active
      ensures (forall i :: 0 <= i < |tabs| ==> tabShown[i]) && forall i :: 0 <= i < |items| ==> itemShown[i]
    {
      this.tabs, this.items, this.active := tabs, items, active;
      tabShown := seq(|tabs|, i => true);
      itemShown := seq(|items|, i => true);
    }

    /** The click handler of tab `k` as written: only the clicked tab is
        active, and the filter runs over tabs and items alike. */
    method ClickTabAsWritten(k: nat)
      requires Valid() && k < |tabs|
      modifies this`active, this`tabShown, this`itemShown
      ensures Valid()
      ensures forall i :: 0 <= i < |tabs| ==> (active[i] <==> i == k)
      ensures tabShown == CategoryShown(tabs, tabs[k]) && itemShown == CategoryShown(items, tabs[k])
    {
      active := seq(|tabs|, i => i == k);
      tabShown := CategoryShown(tabs, tabs[k]);
      itemShown := CategoryShown(items, tabs[k]);
    }

    /** The click handler with the filter kept to the items: only the
        clicked tab is active, every tab stays as it was, and an item is
        shown iff it belongs to the category picked. */
    method ClickTab(k: nat)
      requires Valid() && k < |tabs|
      modifies this`active, this`itemShown
      ensures Valid()
      ensures forall i :: 0 <= i < |tabs| ==> (active[i] <==> i == k)
      ensures tabShown == old(tabShown)
      ensures forall i :: 0 <= i < |items| ==> (itemShown[i] <==> tabs[k] == "all" || items[i] == tabs[k])
    {
      active := seq(|tabs|, i => i == k);
      itemShown := CategoryShown(items, tabs[k]);
    }
  }

  /** Exactly one tab is active after a click. */
  lemma OneActiveTab(active: seq<bool>, k: nat, j: nat)
    requires k < |active| && j < |active|
    requires forall i :: 0 <= i < |active| ==> (active[i] <==> i == k)
    ensures active[j] ==> j == k
    ensures active[k]
  {
  }

  // ---------------------------------------------------------------------
  // `validateForm`

  /** A form's `[required]` fields, by value, and their `error` class. */
  class AdminForm {
    const present: bool
    const values: seq<string>
    var errorClass: seq<bool>

    ghost predicate Valid()
      reads this
    {
      |errorClass| == |values|
    }

    constructor (present: bool, values: seq<string>)
      ensures Valid() && this.present == present && this.values == values
    {
      this.present, this.values := present, values;
      errorClass := seq(|values|, i => false);
    }

    /** `validateForm(formId)`: false without a form; otherwise the error
        class sits exactly on the blank fields and the form is valid iff
        there is none. */
    method ValidateForm() returns (valid: bool)
      requires Valid()
      modifies this`errorClass
      ensures Valid()
      ensures !present ==> !valid && errorClass == old(errorClass)
      ensures present ==> forall i :: 0 <= i < |values| ==> (errorClass[i] <==> IsBlank(values[i]))
      ensures present ==> (valid <==> forall i :: 0 <= i < |values| ==> !IsBlank(values[i]))
    {
      if !present {
        return false;
      }
      valid := true;
      var k := 0;
      while k < |values|
        invariant 0 <= k <= |values| && |errorClass| == |values|
        invariant forall i :: 0 <= i < k ==> (errorClass[i] <==> IsBlank(values[i]))
        invariant valid <==> forall i :: 0 <= i < k ==> !IsBlank(values[i])
      {
        if IsBlank(values[k]) {
          errorClass := errorClass[k := true];
          valid := false;
        } else {
          errorClass := errorClass[k := false];
        }
        k := k + 1;
      }
    }
  }

  // ---------------------------------------------------------------------
  // `exportTable`

  /** Each row's cell texts joined by ",". */
  function Lines(rows: seq<seq<string>>): (r: seq<string>)
    ensures |r| == |rows| && forall i :: 0 <= i < |rows| ==> r[i] == Join(rows[i], ",")
  {
    seq(|rows|, i requires 0 <= i < |rows| => Join(rows[i], ","))
  }

  /** The CSV text: the lines joined by "\n". */
  function Csv(rows: seq<seq<string>>): string {
    Join(Lines(rows), "\n")
  }

  /** `exportTable(tableId)`: nothing without the table; otherwise the CSV
      text handed to the download, built row by row. */
  method ExportTable(table: Option<seq<seq<string>>>) returns (csv: Option<string>)
    ensures table.None? <==> csv.None?
    ensures table.Some? ==> csv == Some(Csv(table.value))
  {
    if table.None? {
      return None;
    }
    var rows := table.value;
    var lines: seq<string> := [];
    var k := 0;
    while k < |rows|
      invariant 0 <= k <= |rows|
      invariant lines == Lines(rows[..k])
    {
      lines := lines + [Join(rows[k], ",")];
      k := k + 1;
    }
    assert rows[..k] == rows;
    return Some(Join(lines, "\n"));
  }

  /** A further row adds a newline and its cells. */
  lemma CsvAppendRow(rows: seq<seq<string>>, row: seq<string>)
    requires rows != []
    ensures Csv(rows + [row]) == Csv(rows) + "\n" + Join(row, ",")
  {
    assert Lines(rows + [row]) == Lines(rows) + [Join(row, ",")];
    JoinSnoc(Lines(rows), Join(row, ","), "\n");
  }

  /** No quoting: a cell holding a comma gives the same text as two cells. */
  lemma CsvNotQuoted()
    ensures Csv([["a,b"]]) == Csv([["a", "b"]])
  {
    assert Lines([["a,b"]]) == ["a,b"];
    assert ["a", "b"][1..] == ["b"];
    assert Join(["a", "b"], ",") == "a,b";
    assert Lines([["a", "b"]]) == ["a,b"];
  }

  // ---------------------------------------------------------------------
  // `initiateBackup`

  /** The backup button and the notices it raises. */
  class BackupButton {
    var disabled: bool
    var caption: string
    var toasts: seq<string>
    var reloadScheduled: bool

    constructor ()
      ensures !disabled && caption == "Create Backup" && toasts == [] && !reloadScheduled
    {
      disabled, caption, toasts, reloadScheduled := false, "Create Backup", [], false;
    }

    /** `initiateBackup(type)`; `succeeded` is how the POST to
        /adminpanel/api/backups/initiate/ ends. The button is disabled before
        the request and enabled again only after a failure; a success
        schedules a reload instead. */
    method InitiateBackup(succeeded: bool)
      modifies this
      ensures disabled <==> succeeded
      ensures caption == if succeeded then "Creating backup..." else "Create Backup"
      ensures toasts == old(toasts) + [if succeeded then "Backup initiated successfully" else "Failed to initiate backup"]
      ensures reloadScheduled <==> succeeded || old(reloadScheduled)
    {
      disabled := true;
      caption := "Creating backup...";
      if succeeded {
        toasts := toasts + ["Backup initiated successfully"];
        reloadScheduled := true;
      } else {
        toasts := toasts + ["Failed to initiate backup"];
        disabled := false;
        caption := "Create Backup";
      }
    }
  }
}
