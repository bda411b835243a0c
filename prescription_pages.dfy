/** The prescriptions page script (prescriptions.js): the medication
    field-set editor of the create page, the list search, the create-form
    checks and the draft kept in the browser's storage. The page is what
    the script reads and writes: medication items with their controls, the
    cards of the list, the form's named fields and the stored draft.
    Confirmation dialogs are a parameter (`confirmed`). */
module PrescriptionPages {
  import opened Base
  import opened PageForms

  // ---------------------------------------------------------------------
  // renaming the controls of a cloned medication item

  /** `pat` occurs in `s` at position `i`. */
  predicate OccursAt(s: string, pat: string, i: int) {
    0 <= i && i + |pat| <= |s| && s[i..i + |pat|] == pat
  }

  /** `s.replace(pat, rep)` with a string pattern: only the first
      occurrence is replaced. */
  function ReplaceFirst(s: string, pat: string, rep: string): string
    requires pat != []
    decreases |s|
  {
    if |s| < |pat| then s
    else if s[..|pat|] == pat then rep + s[|pat|..]
    else [s[0]] + ReplaceFirst(s[1..], pat, rep)
  }

  /** Without an occurrence the text is unchanged. */
  lemma {:induction false} ReplaceFirstAbsent(s: string, pat: string, rep: string)
    requires pat != []
    requires forall i :: !OccursAt(s, pat, i)
    ensures ReplaceFirst(s, pat, rep) == s
    decreases |s|
  {
    if |s| >= |pat| {
      assert !OccursAt(s, pat, 0);
      forall i ensures !OccursAt(s[1..], pat, i) {
        if OccursAt(s[1..], pat, i) {
          assert s[1..][i..i + |pat|] == s[i + 1..i + 1 + |pat|];
          assert OccursAt(s, pat, i + 1);
        }
      }
      ReplaceFirstAbsent(s[1..], pat, rep);
    }
  }

  /** No earlier occurrence in `s` means none in `s[1..]` before `i - 1`. */
  lemma NoEarlierInTail(s: string, pat: string, i: nat)
    requires 0 < i && |s| > 0
    requires forall j :: 0 <= j < i ==> !OccursAt(s, pat, j)
    ensures forall j :: 0 <= j < i - 1 ==> !OccursAt(s[1..], pat, j)
  {
    forall j | 0 <= j < i - 1 ensures !OccursAt(s[1..], pat, j) {
      if OccursAt(s[1..], pat, j) {
        assert s[1..][j..j + |pat|] == s[j + 1..j + 1 + |pat|];
        assert OccursAt(s, pat, j + 1);
      }
    }
  }

  /** With a first occurrence at `i`, exactly that occurrence is replaced. */
  lemma {:induction false} ReplaceFirstAt(s: string, pat: string, rep: string, i: nat)
    requires pat != []
    requires OccursAt(s, pat, i) && forall j :: 0 <= j < i ==> !OccursAt(s, pat, j)
    ensures ReplaceFirst(s, pat, rep) == s[..i] + rep + s[i + |pat|..]
    decreases i
  {
    if i == 0 {
      assert s[..|pat|] == pat;
    } else {
      var t := s[1..];
      assert !OccursAt(s, pat, 0);
      assert ReplaceFirst(s, pat, rep) == [s[0]] + ReplaceFirst(t, pat, rep);
      assert t[i - 1..i - 1 + |pat|] == s[i..i + |pat|];
      NoEarlierInTail(s, pat, i);
      ReplaceFirstAt(t, pat, rep, i - 1);
      ConsSplice(s, rep, i, |pat|);
    }
  }

  /** Putting the first character back in front of a splice of the tail. */
  lemma ConsSplice(s: string, rep: string, i: nat, n: nat)
    requires 0 < i && i + n <= |s|
    ensures [s[0]] + (s[1..][..i - 1] + rep + s[1..][i - 1 + n..]) == s[..i] + rep + s[i + n..]
  {
    assert s[1..][..i - 1] == s[1..i];
    assert s[1..][i - 1 + n..] == s[i + n..];
    assert [s[0]] + s[1..i] == s[..i];
  }

  /** An `input` or `select` of the template: its name and id attributes. */
  datatype Control = Control(name: Option<string>, id: Option<string>)

  /** The medication item of the template: whether it has a number span, its
      controls, the `for` attribute of each label, and the display of its
      remove button (`None` when it has none). */
  datatype Template = Template(numbered: bool, controls: seq<Control>, labels: seq<Option<string>>, remove: Option<bool>)

  /** A medication item on the page: its `data-index`, the number shown (when
      a number span was filled in), its controls and labels, and its remove
      button's display. */
  datatype Item = Item(index: int, number: Option<int>, controls: seq<Control>,
                       labels: seq<Option<string>>, remove: Option<bool>)

  /** `value + '_' + n` when the attribute is present and non-empty. */
  function Suffixed(v: Option<string>, n: nat): (r: Option<string>)
    ensures v.Some? && v.value != "" ==> r == Some(v.value + "_" + NatToString(n))
    ensures !(v.Some? && v.value != "") ==> r == v
  {
    if v.Some? && v.value != "" then Some(v.value + "_" + NatToString(n)) else v
  }

  /** `[n]` */
  function Bracketed(n: nat): string { "[" + NatToString(n) + "]" }

  /** The name and id rewrite of one control (the `inputs.forEach` body). */
  function Renamed(c: Control, n: nat): Control {
    Control(if c.name.Some? && c.name.value != "" then Some(ReplaceFirst(c.name.value, "[]", Bracketed(n))) else c.name,
            Suffixed(c.id, n))
  }

  /** The clone of the template that gets index `n`. */
  function Clone(t: Template, n: nat): (item: Item)
    ensures item.index == n && |item.controls| == |t.controls| && |item.labels| == |t.labels|
    ensures item.number == if t.numbered then Some(n + 1) else None
  {
    Item(n, if t.numbered then Some(n + 1) else None,
         seq(|t.controls|, i requires 0 <= i < |t.controls| => Renamed(t.controls[i], n)),
         seq(|t.labels|, i requires 0 <= i < |t.labels| => Suffixed(t.labels[i], n)),
         t.remove)
  }

  /** In the clone, the first "[]" of each control's name becomes "[n]", a
      name without "[]" is kept, "_n" is appended to every id, and every
      label's `for` gets the same suffix, so a label still names its
      control. */
  lemma CloneAttributes(t: Template, n: nat, k: nat, i: nat)
    requires k < |t.controls|
    ensures var c := t.controls[k]; var r := Clone(t, n).controls[k];
      (c.name.Some? && c.name.value != "" && OccursAt(c.name.value, "[]", i)
        && (forall j :: 0 <= j < i ==> !OccursAt(c.name.value, "[]", j)) ==>
        r.name == Some(c.name.value[..i] + Bracketed(n) + c.name.value[i + 2..]))
      && ((c.name.Some? && forall j :: !OccursAt(c.name.value, "[]", j)) ==> r.name == c.name)
      && (c.id.Some? && c.id.value != "" ==> r.id == Some(c.id.value + "_" + NatToString(n)))
      && (forall l :: 0 <= l < |t.labels| && t.labels[l] == c.id ==> Clone(t, n).labels[l] == r.id)
  {
    var c := t.controls[k];
    if c.name.Some? && c.name.value != "" && OccursAt(c.name.value, "[]", i)
      && (forall j :: 0 <= j < i ==> !OccursAt(c.name.value, "[]", j)) {
      ReplaceFirstAt(c.name.value, "[]", Bracketed(n), i);
    }
    if c.name.Some? && forall j :: !OccursAt(c.name.value, "[]", j) {
      if c.name.value != "" {
        ReplaceFirstAbsent(c.name.value, "[]", Bracketed(n));
      }
    }
  }

  /** Items in page order with strictly increasing indices, all issued below
      the counter. */
  predicate IndicesBelow(items: seq<Item>, counter: int) {
    (forall i, j :: 0 <= i < j < |items| ==> items[i].index < items[j].index)
    && (forall i :: 0 <= i < |items| ==> items[i].index < counter)
  }

  /** `document.querySelector('.medication-form-item[data-index="i"]')` */
  function FindItem(items: seq<Item>, index: int): (r: Option<nat>)
    ensures r.Some? ==> r.value < |items| && items[r.value].index == index
    ensures r.None? <==> forall k :: 0 <= k < |items| ==> items[k].index != index
  {
    IndexWhere(items, (it: Item) => it.index == index)
  }

  /** The item without the one at position `j` (`item.remove()`). */
  function RemovedAt(items: seq<Item>, j: nat): (r: seq<Item>)
    requires j < |items|
    ensures |r| == |items| - 1
    ensures forall k :: 0 <= k < j ==> r[k] == items[k]
    ensures forall k :: j <= k < |r| ==> r[k] == items[k + 1]
  {
    items[..j] + items[j + 1..]
  }

  /** One remove button set to `display` (`flex` is true, `none` false). */
  function WithButton(it: Item, display: bool): Item {
    if it.remove.Some? then it.(remove := Some(display)) else it
  }

  /** `updateRemoveButtons`: every remove button is displayed iff there is
      more than one item; nothing else on the items changes. */
  function ShowButtons(items: seq<Item>): (r: seq<Item>)
    ensures |r| == |items|
    ensures forall k :: 0 <= k < |r| ==> r[k] == WithButton(items[k], |items| > 1)
  {
    seq(|items|, k requires 0 <= k < |items| => WithButton(items[k], |items| > 1))
  }

  /** Index order and bound hold after an add; the new index is above every
      index on the page, so an index is never used twice. */
  lemma AddedIndexFresh(items: seq<Item>, t: Template, counter: nat)
    requires IndicesBelow(items, counter)
    ensures IndicesBelow(ShowButtons(items + [Clone(t, counter)]), counter + 1)
    ensures forall k :: 0 <= k < |items| ==> items[k].index < Clone(t, counter).index
  {
  }

  /** A removal keeps the order and bound, and leaves every other item's
      index and number as they were: the remaining items are not
      renumbered. */
  lemma RemovalKeepsOthers(items: seq<Item>, j: nat, counter: int)
    requires IndicesBelow(items, counter) && j < |items|
    ensures IndicesBelow(ShowButtons(RemovedAt(items, j)), counter)
    ensures forall k :: 0 <= k < |items| - 1 ==>
      ShowButtons(RemovedAt(items, j))[k].number == (if k < j then items[k] else items[k + 1]).number
  {
  }

  /** With distinct indices, looking an item up by its own index finds it. */
  lemma FindOwnIndex(items: seq<Item>, counter: int, k: nat)
    requires IndicesBelow(items, counter) && k < |items|
    ensures FindItem(items, items[k].index) == Some(k)
  {
  }

  /** The removal handler of a cloned item passes the counter as it is when
      the button is clicked; every index on the page is below it, so the
      lookup finds no item. */
  lemma LiveCounterFindsNothing(items: seq<Item>, counter: int)
    requires IndicesBelow(items, counter)
    ensures FindItem(items, counter).None?
  {
  }

  const FieldAdded: string := "Medication field added"
  const MedicationRemoved: string := "Medication removed"

  /** The medication items of the create page, the next `data-index`
      (`medicationCount`) and the notices shown. */
  class MedicationEditor {
    var counter: nat
    var items: seq<Item>
    var toasts: seq<string>

    predicate Valid()
      reads this
    {
      counter >= 1 && IndicesBelow(items, counter)
    }

    /** The page as served: its items (the first one has index 0) and
        `medicationCount = 1`. */
    constructor (initial: seq<Item>)
      requires IndicesBelow(initial, 1)
      ensures Valid()
      ensures counter == 1 && items == initial && toasts == []
    {
      counter := 1;
      items := initial;
      toasts := [];
    }

    /** `updateRemoveButtons`: the `removeButtons.forEach` loop. */
    method UpdateRemoveButtons()
      modifies this`items
      ensures items == ShowButtons(old(items))
    {
      var k := 0;
      var shown := items;
      var many := |items| > 1;
      while k < |shown|
        invariant 0 <= k <= |shown| && |shown| == |old(items)|
        invariant forall i :: 0 <= i < k ==> shown[i] == WithButton(old(items)[i], |old(items)| > 1)
        invariant forall i :: k <= i < |shown| ==> shown[i] == old(items)[i]
      {
        if shown[k].remove.Some? {
          shown := shown[k := shown[k].(remove := Some(many))];
        }
        k := k + 1;
      }
      items := shown;
    }

    /** The attribute rewrite of a fresh clone (the two `forEach` loops). */
    static method CloneTemplate(t: Template, n: nat) returns (item: Item)
      ensures item == Clone(t, n)
    {
      var controls: seq<Control> := [];
      var k := 0;
      while k < |t.controls|
        invariant 0 <= k <= |t.controls| && |controls| == k
        invariant forall i :: 0 <= i < k ==> controls[i] == Renamed(t.controls[i], n)
      {
        var c := t.controls[k];
        if c.name.Some? && c.name.value != "" {
          c := c.(name := Some(ReplaceFirst(c.name.value, "[]", "[" + NatToString(n) + "]")));
          assert "[" + NatToString(n) + "]" == Bracketed(n);
        }
        if c.id.Some? && c.id.value != "" {
          c := c.(id := Some(c.id.value + "_" + NatToString(n)));
        }
        controls := controls + [c];
        k := k + 1;
      }
      var labels: seq<Option<string>> := [];
      k := 0;
      while k < |t.labels|
        invariant 0 <= k <= |t.labels| && |labels| == k
        invariant forall i :: 0 <= i < k ==> labels[i] == Suffixed(t.labels[i], n)
      {
        var l := t.labels[k];
        if l.Some? && l.value != "" {
          l := Some(l.value + "_" + NatToString(n));
        }
        labels := labels + [l];
        k := k + 1;
      }
      item := Item(n, if t.numbered then Some(n + 1) else None, controls, labels, t.remove);
    }

    /** `addMedicationField`: nothing without the container or the template;
        otherwise the clone gets the counter as index and counter + 1 as its
        number, goes last, the counter moves on by one, the remove buttons
        are updated and a notice is shown. */
    method AddMedicationField(hasContainer: bool, template: Option<Template>)
      requires Valid()
      modifies this
      ensures Valid()
      ensures !hasContainer || template.None? ==>
        items == old(items) && counter == old(counter) && toasts == old(toasts)
      ensures hasContainer && template.Some? ==>
        items == ShowButtons(old(items) + [Clone(template.value, old(counter))])
        && counter == old(counter) + 1 && toasts == old(toasts) + [FieldAdded]
    {
      if !hasContainer || template.None? {
        return;
      }
      var item := CloneTemplate(template.value, counter);
      AddedIndexFresh(items, template.value, counter);
      items := items + [item];
      counter := counter + 1;
      UpdateRemoveButtons();
      toasts := toasts + [FieldAdded];
    }

    /** `removeMedication(index)`: nothing when no item has that index or
        the removal is not confirmed; otherwise the item goes, the remove
        buttons are updated and a notice is shown. */
    method RemoveMedication(index: int, confirmed: bool)
      requires Valid()
      modifies this`items, this`toasts
      ensures Valid()
      ensures var j := FindItem(old(items), index);
        if j.None? || !confirmed then items == old(items) && toasts == old(toasts)
        else items == ShowButtons(RemovedAt(old(items), j.value)) && toasts == old(toasts) + [MedicationRemoved]
    {
      var j := FindItem(items, index);
      if j.None? || !confirmed {
        return;
      }
      RemovalKeepsOthers(items, j.value, counter);
      items := RemovedAt(items, j.value);
      UpdateRemoveButtons();
      toasts := toasts + [MedicationRemoved];
    }

    /** A click on the remove button of a cloned item, as written: the handler
        calls `removeMedication(medicationCount)` with the counter's value at
        click time, which names no item, so nothing is ever removed. */
    method ClickRemoveAsWritten(k: nat, confirmed: bool)
      requires Valid() && k < |items|
      modifies this`items, this`toasts
      ensures Valid()
      ensures items == old(items) && toasts == old(toasts)
    {
      LiveCounterFindsNothing(items, counter);
      RemoveMedication(counter, confirmed);
    }

    /** The click as intended: the handler passes the item's own index, so a
        confirmed click removes exactly that item. */
    method ClickRemove(k: nat, confirmed: bool)
      requires Valid() && k < |items|
      modifies this`items, this`toasts
      ensures Valid()
      ensures confirmed ==> items == ShowButtons(RemovedAt(old(items), k)) && toasts == old(toasts) + [MedicationRemoved]
      ensures !confirmed ==> items == old(items) && toasts == old(toasts)
    {
      FindOwnIndex(items, counter, k);
      RemoveMedication(items[k].index, confirmed);
    }
  }

  // ---------------------------------------------------------------------
  // the list search

  /** `card.textContent.toLowerCase().includes(query.toLowerCase())` */
  predicate CardMatches(text: string, query: string) { Contains(Lower(text), Lower(query)) }

  /** The display of each card for a non-empty query. */
  function Matches(cards: seq<string>, query: string): (r: seq<bool>)
    ensures |r| == |cards|
    ensures forall i :: 0 <= i < |cards| ==> (r[i] <==> CardMatches(cards[i], query))
  {
    seq(|cards|, i requires 0 <= i < |cards| => CardMatches(cards[i], query))
  }

  /** Every card contains the empty query, so the early return shows the same
      cards the filter would; it differs only in not touching the message. */
  lemma EmptyQueryShowsAll(cards: seq<string>)
    ensures forall i :: 0 <= i < |cards| ==> Matches(cards, "")[i]
  {
    forall i | 0 <= i < |cards| ensures Matches(cards, "")[i] {
      ContainsEmpty(Lower(cards[i]));
    }
  }

  /** The prescription list: the text and display of each card, whether the
      grid is there, and whether it holds the no-results message. */
  class SearchView {
    var cards: seq<string>
    var shown: seq<bool>
    var hasGrid: bool
    var noResults: bool

    /** `performSearch(query)`: an empty query shows every card and returns;
        otherwise each card is shown iff it matches, and with a grid the
        message is there iff no card matched. */
    method PerformSearch(query: string)
      modifies this`shown, this`noResults
      ensures query == "" ==> shown == seq(|cards|, i => true) && noResults == old(noResults)
      ensures query != "" ==> shown == Matches(cards, query)
      ensures query != "" && hasGrid ==> (noResults <==> forall i :: 0 <= i < |cards| ==> !CardMatches(cards[i], query))
      ensures query != "" && !hasGrid ==> noResults == old(noResults)
    {
      if query == "" {
        shown := seq(|cards|, i => true);
        return;
      }
      var visibleCount := 0;
      var display: seq<bool> := [];
      var k := 0;
      while k < |cards|
        invariant 0 <= k <= |cards| && |display| == k
        invariant forall i :: 0 <= i < k ==> (display[i] <==> CardMatches(cards[i], query))
        invariant visibleCount == 0 <==> forall i :: 0 <= i < k ==> !CardMatches(cards[i], query)
      {
        if Contains(Lower(cards[k]), Lower(query)) {
          display := display + [true];
          visibleCount := visibleCount + 1;
        } else {
          display := display + [false];
        }
        k := k + 1;
      }
      shown := display;
      if hasGrid {
        if visibleCount == 0 {
          if !noResults {
            noResults := true;
          }
        } else if noResults {
          noResults := false;
        }
      }
    }
  }

  // ---------------------------------------------------------------------
  // the create-form checks

  /** The controls of one medication item the submit handler reads (each may
      be missing from the item). */
  datatype ItemInputs = ItemInputs(name: Option<string>, dosage: Option<string>,
                                   frequency: Option<string>, duration: Option<string>)

  const PatientMissing: string := "Please select a patient"
  const NoMedication: string := "Please add at least one medication"
  const NameMissing: string := "Medication name is required"
  const DosageMissing: string := "Dosage is required"
  const FrequencyMissing: string := "Frequency is required"
  const DurationMissing: string := "Duration is required"

  /** The error slot of one control of the k-th item. */
  function ItemKey(k: nat, field: string): string { "medication " + NatToString(k) + " " + field }

  /** A present text control left blank after trimming. */
  predicate BlankInput(v: Option<string>) { v.Some? && Blank(v.value) }

  /** The item passes: name, dosage and duration not blank after trimming,
      frequency not empty (it is not trimmed). */
  predicate ItemOk(it: ItemInputs) {
    !BlankInput(it.name) && !BlankInput(it.dosage) && it.frequency != Some("") && !BlankInput(it.duration)
  }

  /** The marks for the k-th item, in the handler's order. */
  function ItemMarks(k: nat, it: ItemInputs): (r: seq<Mark>)
    ensures r == [] <==> ItemOk(it)
  {
    When(BlankInput(it.name), ItemKey(k, "name"), NameMissing)
    + When(BlankInput(it.dosage), ItemKey(k, "dosage"), DosageMissing)
    + When(it.frequency == Some(""), ItemKey(k, "frequency"), FrequencyMissing)
    + When(BlankInput(it.duration), ItemKey(k, "duration"), DurationMissing)
  }

  /** The `medicationItems.forEach` marks, from the back. */
  function AllItemMarks(items: seq<ItemInputs>): seq<Mark>
    decreases |items|
  {
    if items == [] then []
    else AllItemMarks(items[..|items| - 1]) + ItemMarks(|items| - 1, items[|items| - 1])
  }

  /** The item checks mark nothing iff every item passes. */
  lemma {:induction false} AllItemMarksEmpty(items: seq<ItemInputs>)
    ensures AllItemMarks(items) == [] <==> forall k :: 0 <= k < |items| ==> ItemOk(items[k])
    decreases |items|
  {
    if items != [] {
      var init := items[..|items| - 1];
      AllItemMarksEmpty(init);
      assert forall k :: 0 <= k < |init| ==> init[k] == items[k];
    }
  }

  /** Every mark of the create-form handler, in order. */
  function CreateMarks(patient: Option<string>, items: seq<ItemInputs>): seq<Mark> {
    When(patient == Some(""), "id_patient", PatientMissing) + AllItemMarks(items)
  }

  /** The submission is blocked iff a patient select is there with nothing
      chosen, there is no item, or some item fails its checks. */
  lemma CreateBlockedIff(patient: Option<string>, items: seq<ItemInputs>)
    ensures (CreateMarks(patient, items) == [] && |items| > 0) <==>
      (patient != Some("") && |items| > 0 && forall k :: 0 <= k < |items| ==> ItemOk(items[k]))
  {
    AllItemMarksEmpty(items);
  }

  /** The checks of one medication item (the `forEach` body). */
  method CheckItem(view: FormView, k: nat, it: ItemInputs) returns (ok: bool)
    modifies view`errors
    ensures view.errors == ApplyMarks(old(view.errors), ItemMarks(k, it))
    ensures ok <==> ItemOk(it)
  {
    view.ShowMarks(ItemMarks(k, it));
    ok := ItemMarks(k, it) == [];
  }

  /** The create-form submit handler; it returns whether the submission goes
      ahead. */
  method SubmitCreateForm(view: FormView, patient: Option<string>, items: seq<ItemInputs>) returns (valid: bool)
    modifies view
    ensures view.errors == ApplyMarks(map[], CreateMarks(patient, items))
    ensures view.toasts == old(view.toasts) + (if items == [] then [NoMedication] else [])
    ensures valid <==> CreateMarks(patient, items) == [] && items != []
  {
    valid := true;
    view.ClearFormErrors();
    if patient == Some("") {
      view.ShowFieldError("id_patient", PatientMissing);
      valid := false;
    }
    ghost var first := When(patient == Some(""), "id_patient", PatientMissing);
    ApplyWhen(map[], patient == Some(""), "id_patient", PatientMissing);
    if |items| == 0 {
      view.ShowToast(NoMedication);
      valid := false;
    }
    var k := 0;
    while k < |items|
      invariant 0 <= k <= |items|
      invariant view.errors == ApplyMarks(map[], first + AllItemMarks(items[..k]))
      invariant view.toasts == old(view.toasts) + (if items == [] then [NoMedication] else [])
      invariant valid <==> patient != Some("") && items != [] && forall j :: 0 <= j < k ==> ItemOk(items[j])
    {
      ghost var before := first + AllItemMarks(items[..k]);
      var ok := CheckItem(view, k, items[k]);
      MarksStep(items, k, first);
      ApplyMarksAppend(map[], before, ItemMarks(k, items[k]));
      if !ok {
        valid := false;
      }
      k := k + 1;
    }
    assert items[..k] == items;
    AllItemMarksEmpty(items);
  }

  /** The marks of the first k + 1 items. */
  lemma MarksStep(items: seq<ItemInputs>, k: nat, first: seq<Mark>)
    requires k < |items|
    ensures first + AllItemMarks(items[..k + 1]) == (first + AllItemMarks(items[..k])) + ItemMarks(k, items[k])
  {
    assert items[..k + 1][..k] == items[..k];
  }

  // ---------------------------------------------------------------------
  // the stored draft

  /** The 'prescriptionDraft' entry of the browser's storage: absent (or
      empty), a saved draft, or text that does not parse as JSON. */
  datatype Storage = NoDraft | Saved(draft: map<string, string>) | Malformed

  /** The draft object built from the form data entries: a later entry with
      the same name replaces an earlier one. */
  function DraftOf(entries: seq<(string, string)>): map<string, string>
    decreases |entries|
  {
    if entries == [] then map[]
    else DraftOf(entries[..|entries| - 1])[entries[|entries| - 1].0 := entries[|entries| - 1].1]
  }

  /** A name is in the draft iff some entry has it, and it holds the value of
      the last such entry. */
  lemma {:induction false} DraftOfEntries(entries: seq<(string, string)>, key: string)
    ensures key in DraftOf(entries) <==> exists i :: 0 <= i < |entries| && entries[i].0 == key
    ensures forall i :: (0 <= i < |entries| && entries[i].0 == key
      && (forall j :: i < j < |entries| ==> entries[j].0 != key)) ==> DraftOf(entries)[key] == entries[i].1
    decreases |entries|
  {
    if entries != [] {
      var init := entries[..|entries| - 1];
      DraftOfEntries(init, key);
      assert forall i :: 0 <= i < |init| ==> init[i] == entries[i];
    }
  }

  /** Accepting the draft: each stored value goes into the field of that
      name; names without a field are skipped and fields the draft does not
      name keep their values. */
  function Restored(fields: map<string, string>, draft: map<string, string>): (r: map<string, string>)
    ensures r.Keys == fields.Keys
    ensures forall k :: k in fields && k in draft ==> r[k] == draft[k]
    ensures forall k :: k in fields && k !in draft ==> r[k] == fields[k]
  {
    map k | k in fields :: if k in draft then draft[k] else fields[k]
  }

  /** Saving the form and restoring the draft into the same form changes
      nothing: the draft holds each field's current value. */
  lemma {:induction false} SaveThenRestore(fields: map<string, string>, entries: seq<(string, string)>)
    requires forall i :: 0 <= i < |entries| ==> entries[i].0 in fields && fields[entries[i].0] == entries[i].1
    ensures Restored(fields, DraftOf(entries)) == fields
  {
    forall k | k in fields && k in DraftOf(entries)
      ensures DraftOf(entries)[k] == fields[k]
    {
      DraftLast(entries, k);
    }
  }

  /** The value a draft holds for a name is the value of some entry with that
      name. */
  lemma {:induction false} DraftLast(entries: seq<(string, string)>, key: string)
    requires key in DraftOf(entries)
    ensures exists i :: 0 <= i < |entries| && entries[i] == (key, DraftOf(entries)[key])
    decreases |entries|
  {
    var init := entries[..|entries| - 1];
    var last := entries[|entries| - 1];
    if last.0 != key {
      DraftLast(init, key);
      var i :| 0 <= i < |init| && init[i] == (key, DraftOf(init)[key]);
      assert entries[i] == init[i];
    }
  }

  const DraftLoaded: string := "Draft loaded"

  /** The create form's named fields (the first control of each name), the
      storage entry and the notices shown. */
  class DraftForm {
    var fields: map<string, string>
    var storage: Storage
    var toasts: seq<string>

    /** The body of the 30-second timer of `initAutoSave`: the form data is
        copied into a draft object and stored. */
    method SaveDraft(entries: seq<(string, string)>)
      modifies this`storage
      ensures storage == Saved(DraftOf(entries))
    {
      var draft: map<string, string> := map[];
      var k := 0;
      while k < |entries|
        invariant 0 <= k <= |entries|
        invariant draft == DraftOf(entries[..k])
      {
        assert entries[..k + 1][..k] == entries[..k];
        draft := draft[entries[k].0 := entries[k].1];
        k := k + 1;
      }
      assert entries[..k] == entries;
      storage := Saved(draft);
    }

    /** `loadDraft`: nothing without the form, without a draft, or when the
        draft does not parse; otherwise an accepted draft is written into the
        fields (with a notice) and a declined one is removed from storage. */
    method LoadDraft(hasForm: bool, confirmed: bool)
      modifies this
      ensures !hasForm || !old(storage).Saved? ==> fields == old(fields) && storage == old(storage) && toasts == old(toasts)
      ensures hasForm && old(storage).Saved? && confirmed ==>
        fields == Restored(old(fields), old(storage).draft) && storage == old(storage) && toasts == old(toasts) + [DraftLoaded]
      ensures hasForm && old(storage).Saved? && !confirmed ==>
        fields == old(fields) && storage == NoDraft && toasts == old(toasts)
    {
      if !hasForm || !storage.Saved? {
        return;
      }
      if !confirmed {
        storage := NoDraft;
        return;
      }
      var draft := storage.draft;
      var keys := draft.Keys;
      var out := fields;
      while keys != {}
        invariant keys <= draft.Keys
        invariant out == map k | k in fields :: if k in draft && k !in keys then draft[k] else fields[k]
        decreases keys
      {
        var key :| key in keys;
        if key in out {
          out := out[key := draft[key]];
        }
        keys := keys - {key};
      }
      fields := out;
      toasts := toasts + [DraftLoaded];
    }
  }
}
