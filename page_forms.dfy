/** The error display the page scripts share: `MedApp.clearFormErrors`
    empties a form's field errors, `MedApp.showFieldError` marks one field
    with a message (a later mark on the same field replaces the earlier one)
    and `MedApp.showToast` appends a notice. A submit handler's checks are
    described by the sequence of marks it makes, in order. */
module PageForms {
  import opened Base

  /** A field error: (field name, message). */
  type Mark = (string, string)

  const Required: string := "This field is required"

  /** The errors shown after the marks have been made in order. */
  function ApplyMarks(m: map<string, string>, marks: seq<Mark>): map<string, string>
    decreases |marks|
  {
    if marks == [] then m
    else ApplyMarks(m, marks[..|marks| - 1])[marks[|marks| - 1].0 := marks[|marks| - 1].1]
  }

  /** A field shows an error iff some mark names it or it had one before, and
      it then shows the message of the last mark naming it. */
  lemma {:induction false} ApplyMarksField(m: map<string, string>, marks: seq<Mark>, field: string)
    ensures field in ApplyMarks(m, marks) <==>
      field in m || exists i :: 0 <= i < |marks| && marks[i].0 == field
    ensures forall i :: (0 <= i < |marks| && marks[i].0 == field
      && (forall j :: i < j < |marks| ==> marks[j].0 != field)) ==>
      ApplyMarks(m, marks)[field] == marks[i].1
    ensures (forall i :: 0 <= i < |marks| ==> marks[i].0 != field) && field in m ==>
      ApplyMarks(m, marks)[field] == m[field]
    decreases |marks|
  {
    if marks != [] {
      var init := marks[..|marks| - 1];
      ApplyMarksField(m, init, field);
      assert forall i :: 0 <= i < |init| ==> init[i] == marks[i];
    }
  }

  /** Marks made in two rounds give the same errors as one round. */
  lemma {:induction false} ApplyMarksAppend(m: map<string, string>, a: seq<Mark>, b: seq<Mark>)
    ensures ApplyMarks(m, a + b) == ApplyMarks(ApplyMarks(m, a), b)
    decreases |b|
  {
    if b == [] {
      assert a + b == a;
    } else {
      var b0 := b[..|b| - 1];
      assert (a + b)[..|a + b| - 1] == a + b0;
      ApplyMarksAppend(m, a, b0);
    }
  }

  /** One conditional mark. */
  function When(c: bool, field: string, message: string): seq<Mark> {
    if c then [(field, message)] else []
  }

  lemma ApplyWhen(m: map<string, string>, c: bool, field: string, message: string)
    ensures ApplyMarks(m, When(c, field, message)) == if c then m[field := message] else m
  {
    if c {
      assert When(c, field, message)[..0] == [];
    }
  }

  /** `!field.value.trim()` */
  predicate Blank(value: string) { IsBlank(value) }

  /** The required-field walk: each listed field that is on the page and
      blank after trimming gets "This field is required"; a missing field is
      skipped. */
  function RequiredMarks(fields: map<string, string>, names: seq<string>): (r: seq<Mark>)
    ensures forall i :: 0 <= i < |r| ==> (r[i].1 == Required && r[i].0 in names
      && r[i].0 in fields && Blank(fields[r[i].0]))
    decreases |names|
  {
    if names == [] then []
    else
      var last := names[|names| - 1];
      var r0 := RequiredMarks(fields, names[..|names| - 1]);
      assert forall i :: 0 <= i < |r0| ==> r0[i].0 in names;
      r0 + (if last in fields && Blank(fields[last]) then [(last, Required)] else [])
  }

  /** The walk marks nothing iff every listed field on the page is filled in,
      and it marks every blank one. */
  lemma {:induction false} RequiredMarksComplete(fields: map<string, string>, names: seq<string>)
    ensures RequiredMarks(fields, names) == [] <==>
      forall k :: 0 <= k < |names| && names[k] in fields ==> !Blank(fields[names[k]])
    ensures forall k :: 0 <= k < |names| && names[k] in fields && Blank(fields[names[k]]) ==>
      (names[k], Required) in RequiredMarks(fields, names)
    decreases |names|
  {
    if names != [] {
      var init := names[..|names| - 1];
      var last := names[|names| - 1];
      RequiredMarksComplete(fields, init);
      var r0 := RequiredMarks(fields, init);
      var step := if last in fields && Blank(fields[last]) then [(last, Required)] else [];
      assert RequiredMarks(fields, names) == r0 + step;
      forall k | 0 <= k < |names| && names[k] in fields && Blank(fields[names[k]])
        ensures (names[k], Required) in r0 + step
      {
        if k < |init| {
          assert names[k] == init[k];
          assert (init[k], Required) in r0;
        } else {
          assert names[k] == last;
        }
      }
      if r0 + step == [] {
        forall k | 0 <= k < |names| && names[k] in fields ensures !Blank(fields[names[k]]) {
          if k < |init| {
            assert names[k] == init[k];
          }
        }
      }
    }
  }

  /** The part of a page the scripts write to. */
  class FormView {
    var errors: map<string, string>
    var toasts: seq<string>

    constructor ()
      ensures errors == map[] && toasts == []
    {
      errors := map[];
      toasts := [];
    }

    /** `MedApp.clearFormErrors(form)`. The page scripts call it, but no
        script defines it; the model takes it to clear every field's message
        and to leave the notices alone. */
    method ClearFormErrors()
      modifies this`errors
      ensures errors == map[]
    {
      errors := map[];
    }

    /** `MedApp.showFieldError(field, message)`. The page scripts call it, but
        no script defines it; the model takes it to replace that field's
        message and to leave every other field alone. */
    method ShowFieldError(field: string, message: string)
      modifies this`errors
      ensures errors == old(errors)[field := message]
    {
      errors := errors[field := message];
    }

    /** `if (c) MedApp.showFieldError(field, message)` */
    method ShowFieldErrorWhen(c: bool, field: string, message: string)
      modifies this`errors
      ensures errors == ApplyMarks(old(errors), When(c, field, message))
    {
      ApplyWhen(errors, c, field, message);
      if c {
        ShowFieldError(field, message);
      }
    }

    /** `MedApp.showToast(message, 'error')`. The page scripts call it, but no
        script defines it; the model takes it to append one notice. */
    method ShowToast(message: string)
      modifies this`toasts
      ensures toasts == old(toasts) + [message]
    {
      toasts := toasts + [message];
    }

    /** The `requiredFields.forEach(...)` loop; `valid` drops to false at the
        first blank field. */
    method CheckRequired(fields: map<string, string>, names: seq<string>) returns (valid: bool)
      modifies this`errors
      ensures errors == ApplyMarks(old(errors), RequiredMarks(fields, names))
      ensures valid <==> RequiredMarks(fields, names) == []
    {
      valid := true;
      var k := 0;
      while k < |names|
        invariant 0 <= k <= |names|
        invariant errors == ApplyMarks(old(errors), RequiredMarks(fields, names[..k]))
        invariant valid <==> RequiredMarks(fields, names[..k]) == []
      {
        assert names[..k + 1][..k] == names[..k];
        var name := names[k];
        var step := if name in fields && Blank(fields[name]) then [(name, Required)] else [];
        assert RequiredMarks(fields, names[..k + 1]) == RequiredMarks(fields, names[..k]) + step;
        ApplyMarksAppend(old(errors), RequiredMarks(fields, names[..k]), step);
        if name in fields && Blank(fields[name]) {
          ShowFieldError(name, Required);
          valid := false;
        }
        k := k + 1;
      }
      assert names[..k] == names;
    }

    /** Make each mark in order. */
    method ShowMarks(marks: seq<Mark>)
      modifies this`errors
      ensures errors == ApplyMarks(old(errors), marks)
    {
      var k := 0;
      while k < |marks|
        invariant 0 <= k <= |marks|
        invariant errors == ApplyMarks(old(errors), marks[..k])
      {
        assert marks[..k + 1][..k] == marks[..k];
        ShowFieldError(marks[k].0, marks[k].1);
        k := k + 1;
      }
      assert marks[..k] == marks;
    }
  }
}
