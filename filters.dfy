/** The filter chips (static/js/components/filters.js): each chip's click
    reads a filter value, makes that chip the only active one, and hands the
    value to the page's callback or navigates to `?filter=<value>`. */
module Filters {
  import opened Base

  /** A `.chip` element: its `data-filter` (None when the attribute is
      absent) and its `href` attribute (None when absent). */
  datatype Chip = Chip(filter: Option<string>, href: Option<string>)

  /** A filter value, or JavaScript's undefined. */
  datatype FilterValue = Text(s: string) | Undefined

  predicate NoDataFilter(c: Chip) { c.filter.None? || c.filter.value == "" }

  /** `chip.dataset.filter || chip.getAttribute("href").split("=")[1]`: a
      chip with neither a data-filter nor an href raises a TypeError. */
  function ChipValue(c: Chip): (r: Result<FilterValue>)
    ensures !NoDataFilter(c) ==> r == Success(Text(c.filter.value))
    ensures r.Failure? <==> NoDataFilter(c) && c.href.None?
    ensures r.Failure? ==> r.error == "TypeError"
    ensures r == Success(Undefined) <==> NoDataFilter(c) && c.href.Some? && '=' !in c.href.value
  {
    if !NoDataFilter(c) then Success(Text(c.filter.value))
    else if c.href.None? then Failure("TypeError")
    else
      var parts := Split(c.href.value, '=');
      if |parts| >= 2 then Success(Text(parts[1])) else Success(Undefined)
  }

  /** The second '='-separated piece of `pre=t`, where t is v followed by
      nothing or by another '='. */
  lemma SecondPiece(pre: string, t: string, v: string, rest: string)
    requires '=' !in pre && '=' !in v
    requires t == v + rest && (rest == [] || rest[0] == '=')
    ensures |Split(pre + ['='] + t, '=')| >= 2
    ensures Split(pre + ['='] + t, '=')[1] == v
  {
    SplitPrefix(pre, '=', t);
    if rest == [] {
      assert t == v;
      SplitPrefix(v, '=', "");
    } else {
      assert t == v + ['='] + rest[1..];
      SplitPrefix(v, '=', rest[1..]);
    }
  }

  /** Without a data-filter the value is the href text between the first
      '=' and the next one (or the end). */
  lemma ChipValueBetween(c: Chip, pre: string, v: string, rest: string)
    requires NoDataFilter(c) && c.href == Some(pre + "=" + v + rest)
    requires '=' !in pre && '=' !in v
    requires rest == [] || rest[0] == '='
    ensures ChipValue(c) == Success(Text(v))
  {
    var t := v + rest;
    assert c.href.value == pre + ['='] + t;
    SecondPiece(pre, t, v, rest);
  }

  /** The default navigation target. Template literals do not encode, and
      undefined is written out as a word. */
  function FilterTarget(v: FilterValue): string {
    "?filter=" + (if v.Text? then v.s else "undefined")
  }

  /** A chip whose href is the target of a value without '=' reads that
      value back; a value holding '=' is cut at it. */
  lemma TargetRoundTrip(v: string, tail: string)
    requires '=' !in v
    ensures ChipValue(Chip(None, Some(FilterTarget(Text(v))))) == Success(Text(v))
    ensures '=' !in tail ==> ChipValue(Chip(None, Some(FilterTarget(Text(v + "=" + tail))))) == Success(Text(v))
  {
    assert "?filter=" + v == "?filter" + "=" + v + "";
    ChipValueBetween(Chip(None, Some(FilterTarget(Text(v)))), "?filter", v, "");
    if '=' !in tail {
      var c := Chip(None, Some(FilterTarget(Text(v + "=" + tail))));
      assert "?filter=" + (v + "=" + tail) == "?filter" + "=" + v + ("=" + tail);
      ChipValueBetween(c, "?filter", v, "=" + tail);
    }
  }

  /** The chips of one container and what their clicks did. */
  class ChipGroup {
    /** Whether `document.querySelector(containerSelector)` found the container. */
    const bound: bool
    const chips: seq<Chip>
    /** The "active" class of each chip. */
    var active: seq<bool>
    /** The values handed to `onFilterSelect`, in order. */
    var selections: seq<FilterValue>
    /** The last `window.location.href` assigned. */
    var location: Option<string>

    ghost predicate Valid()
      reads this
    {
      |active| == |chips|
    }

    /** `initFilterChips(containerSelector, onFilterSelect)` on a page where
        the container was found, or not. */
    constructor(found: bool, chips: seq<Chip>, active: seq<bool>)
      requires |active| == |chips|
      ensures Valid()
      ensures this.bound == found && this.chips == chips && this.active == active
      ensures selections == [] && location.None?
    {
      bound := found;
      this.chips := chips;
      this.active := active;
      selections := [];
      location := None;
    }

    /** A click on chip i; `callback` is whether `onFilterSelect` is a
        function. Returns the value read, or the TypeError raised before any
        class changes. On a missing container no handler is bound. */
    method Click(i: nat, callback: bool) returns (r: Option<Result<FilterValue>>)
      requires Valid() && i < |chips|
      modifies this
      ensures Valid()
      ensures !bound ==> r.None? && unchanged(this)
      ensures bound ==> r == Some(ChipValue(chips[i]))
      ensures bound && ChipValue(chips[i]).Failure? ==> unchanged(this)
      ensures bound && ChipValue(chips[i]).Success? ==>
        && (forall j :: 0 <= j < |active| ==> (active[j] <==> j == i))
        && (callback ==> selections == old(selections) + [ChipValue(chips[i]).value] && location == old(location))
        && (!callback ==> selections == old(selections) && location == Some(FilterTarget(ChipValue(chips[i]).value)))
    {
      if !bound {
        return None;
      }
      var value := ChipValue(chips[i]);
      r := Some(value);
      if value.Failure? {
        return;
      }
      var j := 0;
      while j < |active|
        invariant 0 <= j <= |active| == |chips|
        invariant forall k :: 0 <= k < j ==> !active[k]
        invariant selections == old(selections) && location == old(location)
      {
        active := active[j := false];
        j := j + 1;
      }
      active := active[i := true];
      if callback {
        selections := selections + [value.value];
      } else {
        location := Some(FilterTarget(value.value));
      }
    }
  }
}
