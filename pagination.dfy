/** The pagination enhancement (static/js/components/pagination.js and its
    collected copy under staticfiles/, which is the same code): rebuilding
    the query string for a target page, reading the page number back from a
    link, and the click handler with its single-navigation guard.

    The browser's parsing of a URL is a parameter: a link's query is given
    as its decoded name/value pairs, or None when `new URL` throws. */
module Pagination {
  import opened Base

  datatype Pair = Pair(key: string, value: string)

  function Keys(ps: seq<Pair>): (r: seq<string>)
    ensures |r| == |ps|
    ensures forall i :: 0 <= i < |ps| ==> r[i] == ps[i].key
  {
    if ps == [] then [] else [ps[0].key] + Keys(ps[1..])
  }

  predicate KeysDistinct(ps: seq<Pair>) {
    forall i, j :: 0 <= i < j < |ps| ==> ps[i].key != ps[j].key
  }

  /** `URLSearchParams.get(key)`: the value of the first pair with this name. */
  function Lookup(ps: seq<Pair>, key: string): (r: Option<string>)
    ensures r.None? <==> key !in Keys(ps)
  {
    if ps == [] then None
    else if ps[0].key == key then Some(ps[0].value)
    else Lookup(ps[1..], key)
  }

  /** The value of the last pair with this name. */
  function LastValue(ps: seq<Pair>, key: string): Option<string> {
    if ps == [] then None
    else if ps[|ps| - 1].key == key then Some(ps[|ps| - 1].value)
    else LastValue(ps[..|ps| - 1], key)
  }

  // ---------------------------------------------------------------------
  // parseQueryParams: URLSearchParams -> Map

  /** `Map.set`: a present key keeps its place and takes the new value; a
      new key goes last. */
  function MapSet(m: seq<Pair>, key: string, value: string): (r: seq<Pair>)
    ensures key in Keys(m) ==> Keys(r) == Keys(m)
    ensures key !in Keys(m) ==> r == m + [Pair(key, value)]
  {
    if m == [] then [Pair(key, value)]
    else if m[0].key == key then [Pair(key, value)] + m[1..]
    else [m[0]] + MapSet(m[1..], key, value)
  }

  /** `parseQueryParams`: the pairs of the current location, each set in turn
      into a Map. */
  function ToMap(search: seq<Pair>): seq<Pair> {
    if search == [] then []
    else
      var last := search[|search| - 1];
      MapSet(ToMap(search[..|search| - 1]), last.key, last.value)
  }

  lemma {:induction false} MapSetLookup(m: seq<Pair>, key: string, value: string, k: string)
    ensures Lookup(MapSet(m, key, value), k) == if k == key then Some(value) else Lookup(m, k)
    decreases |m|
  {
    if m != [] && m[0].key != key {
      MapSetLookup(m[1..], key, value, k);
    }
  }

  lemma {:induction false} MapSetDistinct(m: seq<Pair>, key: string, value: string)
    requires KeysDistinct(m)
    ensures KeysDistinct(MapSet(m, key, value))
  {
    var r := MapSet(m, key, value);
    if key in Keys(m) {
      assert Keys(r) == Keys(m);
      forall i, j | 0 <= i < j < |r|
        ensures r[i].key != r[j].key
      {
        assert Keys(r)[i] == Keys(m)[i] && Keys(r)[j] == Keys(m)[j];
      }
    }
  }

  /** The Map holds each name once, and a name's value is the last one the
      location gave it. */
  lemma {:induction false} ToMapLookup(search: seq<Pair>, k: string)
    ensures KeysDistinct(ToMap(search))
    ensures Lookup(ToMap(search), k) == LastValue(search, k)
    decreases |search|
  {
    if search != [] {
      var init := search[..|search| - 1];
      var last := search[|search| - 1];
      ToMapLookup(init, k);
      MapSetLookup(ToMap(init), last.key, last.value, k);
      MapSetDistinct(ToMap(init), last.key, last.value);
    }
  }

  // ---------------------------------------------------------------------
  // buildQueryStringWithPage

  predicate NotPage(p: Pair) { p.key != "page" }

  predicate IsPage(p: Pair) { p.key == "page" }

  predicate HasKey(ps: seq<Pair>, key: string) { exists i :: 0 <= i < |ps| && ps[i].key == key }

  /** `URLSearchParams.set` on a list with no pair of this name. */
  function Drop(ps: seq<Pair>, key: string): (r: seq<Pair>)
    ensures !HasKey(r, key)
  {
    if ps == [] then []
    else if ps[0].key == key then Drop(ps[1..], key)
    else [ps[0]] + Drop(ps[1..], key)
  }

  /** `URLSearchParams.set(key, value)`: the first pair of this name takes the
      value and the others are removed; with none, the pair is appended. */
  function SearchSet(ps: seq<Pair>, key: string, value: string): seq<Pair> {
    if ps == [] then [Pair(key, value)]
    else if ps[0].key == key then [Pair(key, value)] + Drop(ps[1..], key)
    else [ps[0]] + SearchSet(ps[1..], key, value)
  }

  lemma {:induction false} SearchSetAppends(ps: seq<Pair>, key: string, value: string)
    requires !HasKey(ps, key)
    ensures SearchSet(ps, key, value) == ps + [Pair(key, value)]
    decreases |ps|
  {
    if ps != [] {
      assert !HasKey(ps[1..], key) by {
        forall i | 0 <= i < |ps[1..]| ensures ps[1..][i].key != key {
          assert ps[1..][i] == ps[i + 1];
        }
      }
      SearchSetAppends(ps[1..], key, value);
    }
  }

  lemma FilterNoPage(ps: seq<Pair>)
    ensures !HasKey(Filter(ps, NotPage), "page")
  {
    var f := Filter(ps, NotPage);
    forall i | 0 <= i < |f| ensures f[i].key != "page" {
      assert NotPage(f[i]);
    }
  }

  /** The pairs of the rebuilt query: every non-page pair in order, then the
      target page. */
  function WithPage(page: int, params: seq<Pair>): seq<Pair> {
    SearchSet(Filter(params, NotPage), "page", IntToString(page))
  }

  /** Exactly one page pair, placed last, after the other pairs in order. */
  lemma WithPageShape(page: int, params: seq<Pair>)
    ensures WithPage(page, params) == Filter(params, NotPage) + [Pair("page", IntToString(page))]
    ensures Count(WithPage(page, params), IsPage) == 1
  {
    FilterNoPage(params);
    SearchSetAppends(Filter(params, NotPage), "page", IntToString(page));
    var kept := Filter(params, NotPage);
    CountSnoc(kept, Pair("page", IntToString(page)), IsPage);
    assert forall k :: 0 <= k < |kept| ==> !IsPage(kept[k]);
    CountNone(kept, IsPage);
  }

  // ---------------------------------------------------------------------
  // application/x-www-form-urlencoded serialisation (URLSearchParams.toString)

  /** Characters the form serialiser leaves as they are. */
  predicate Unreserved(c: char) { IsAlnum(c) || c == '*' || c == '-' || c == '.' || c == '_' }

  /** Characters the serialiser can emit. */
  predicate Emitted(c: char) { Unreserved(c) || c == '+' || c == '%' }

  function HexDigit(n: nat): (c: char)
    requires n < 16
    ensures IsAlnum(c)
  {
    if n < 10 then ('0' as int + n) as char else ('A' as int + n - 10) as char
  }

  /** "%XX" for one byte, upper-case hexadecimal. */
  function PercentByte(b: nat): (r: string)
    requires b < 256
    ensures |r| == 3 && r[0] == '%' && Emitted(r[1]) && Emitted(r[2])
  {
    ['%', HexDigit(b / 16), HexDigit(b % 16)]
  }

  /** The UTF-8 bytes of a code point. */
  function Utf8(cp: nat): (r: seq<nat>)
    requires cp < 0x11_0000
    ensures 1 <= |r| <= 4 && forall i :: 0 <= i < |r| ==> r[i] < 256
  {
    if cp < 0x80 then [cp]
    else if cp < 0x800 then [0xC0 + cp / 64, 0x80 + cp % 64]
    else if cp < 0x1_0000 then [0xE0 + cp / 4096, 0x80 + cp / 64 % 64, 0x80 + cp % 64]
    else [0xF0 + cp / 262144, 0x80 + cp / 4096 % 64, 0x80 + cp / 64 % 64, 0x80 + cp % 64]
  }

  function PercentBytes(bs: seq<nat>): (r: string)
    requires forall i :: 0 <= i < |bs| ==> bs[i] < 256
    ensures |r| == 3 * |bs|
    ensures forall i :: 0 <= i < |r| ==> Emitted(r[i])
    ensures bs != [] ==> r[0] == '%'
  {
    if bs == [] then [] else PercentByte(bs[0]) + PercentBytes(bs[1..])
  }

  function EncodeChar(c: char): (r: string)
    ensures |r| >= 1
    ensures forall i :: 0 <= i < |r| ==> Emitted(r[i])
    ensures Unreserved(c) <==> r == [c]
  {
    if Unreserved(c) then [c]
    else if c == ' ' then "+"
    else PercentBytes(Utf8(c as int))
  }

  /** The form serialiser on one name or value. */
  function Encode(s: string): (r: string)
    ensures forall i :: 0 <= i < |r| ==> Emitted(r[i])
  {
    if s == [] then [] else EncodeChar(s[0]) + Encode(s[1..])
  }

  /** A name or value made of unreserved characters is written as it is. */
  lemma {:induction false} EncodePlain(s: string)
    requires forall i :: 0 <= i < |s| ==> Unreserved(s[i])
    ensures Encode(s) == s
    decreases |s|
  {
    if s != [] {
      EncodePlain(s[1..]);
    }
  }

  /** Only a name that is "page" is written as "page": any other character
      would bring a '+' or a '%' into the output. */
  lemma {:induction false} EncodeReflects(s: string)
    requires forall i :: 0 <= i < |Encode(s)| ==> Unreserved(Encode(s)[i])
    ensures Encode(s) == s
    decreases |s|
  {
    if s != [] {
      var head := EncodeChar(s[0]);
      var r := Encode(s);
      assert r == head + Encode(s[1..]);
      assert forall i :: 0 <= i < |head| ==> r[i] == head[i];
      forall i | 0 <= i < |Encode(s[1..])| ensures Unreserved(Encode(s[1..])[i]) {
        assert r[|head| + i] == Encode(s[1..])[i];
      }
      EncodeReflects(s[1..]);
      assert Unreserved(r[0]);
    }
  }

  lemma EncodeNotPage(key: string)
    requires key != "page"
    ensures Encode(key) != "page"
  {
    if Encode(key) == "page" {
      EncodeReflects(key);
    }
  }

  function EncodePair(p: Pair): string { Encode(p.key) + "=" + Encode(p.value) }

  function EncodePairs(ps: seq<Pair>): (r: seq<string>)
    ensures |r| == |ps|
    ensures forall i :: 0 <= i < |ps| ==> r[i] == EncodePair(ps[i])
  {
    if ps == [] then [] else [EncodePair(ps[0])] + EncodePairs(ps[1..])
  }

  /** `URLSearchParams.toString()` */
  function Serialize(ps: seq<Pair>): string { Join(EncodePairs(ps), "&") }

  /** `buildQueryStringWithPage(page, paramsMap)` */
  function BuildQueryStringWithPage(page: int, params: seq<Pair>): string {
    "?" + Serialize(WithPage(page, params))
  }

  /** The name of a serialised pair: its text up to the first '='. */
  lemma PairName(p: Pair)
    ensures '&' !in EncodePair(p)
    ensures Split(EncodePair(p), '=')[0] == Encode(p.key)
  {
    var k := Encode(p.key);
    var v := Encode(p.value);
    assert '=' !in k && '&' !in k && '&' !in v;
    SplitPrefix(k, '=', v);
    assert EncodePair(p) == k + ['='] + v;
  }

  /** The '&'-separated pieces of a serialised list are its pairs. */
  lemma SerializePieces(ps: seq<Pair>)
    requires ps != []
    ensures Split(Serialize(ps), '&') == EncodePairs(ps)
  {
    var parts := EncodePairs(ps);
    forall k | 0 <= k < |parts| ensures '&' !in parts[k] {
      PairName(ps[k]);
    }
    SplitJoin(parts, '&');
  }

  /** The serialised target page. */
  lemma PagePiece(page: int)
    ensures EncodePair(Pair("page", IntToString(page))) == "page=" + IntToString(page)
  {
    EncodePlain("page");
    EncodePlain(IntToString(page));
  }

  /** A kept pair is not named "page" once serialised. */
  lemma KeptPiece(p: Pair)
    requires NotPage(p)
    ensures Split(EncodePair(p), '=')[0] != "page"
  {
    PairName(p);
    EncodeNotPage(p.key);
  }

  /** The rebuilt query starts with '?'; its '&'-separated pieces are the
      non-page pairs of the map in their order, none of them named "page",
      followed by exactly one "page=<target>". */
  lemma BuildQueryShape(page: int, params: seq<Pair>)
    ensures BuildQueryStringWithPage(page, params)[0] == '?'
    ensures var segs := Split(BuildQueryStringWithPage(page, params)[1..], '&');
      var kept := Filter(params, NotPage);
      && |segs| == |kept| + 1
      && (forall i :: 0 <= i < |kept| ==> segs[i] == EncodePair(kept[i]) && Split(segs[i], '=')[0] != "page")
      && segs[|kept|] == "page=" + IntToString(page)
  {
    var kept := Filter(params, NotPage);
    var all := WithPage(page, params);
    WithPageShape(page, params);
    var q := BuildQueryStringWithPage(page, params);
    assert q[1..] == Serialize(all);
    SerializePieces(all);
    var segs := EncodePairs(all);
    forall i | 0 <= i < |kept|
      ensures segs[i] == EncodePair(kept[i]) && Split(segs[i], '=')[0] != "page"
    {
      assert all[i] == kept[i];
      KeptPiece(kept[i]);
    }
    assert all[|kept|] == Pair("page", IntToString(page));
    PagePiece(page);
  }

  // ---------------------------------------------------------------------
  // getPageFromHref

  /** What `parseInt(text, 10)` returns: a number or NaN. */
  datatype Parsed = Num(n: int) | NaN

  /** The white space `parseInt` skips; the other space separators of
      Unicode are not modelled. */
  predicate JsSpace(c: char) {
    IsSpace(c) || c == 0xA0 as char || c == 0xFEFF as char || c == 0x2028 as char || c == 0x2029 as char
  }

  function TrimStart(s: string): (r: string)
    ensures |r| <= |s| && r == s[|s| - |r|..]
    ensures r != [] ==> !JsSpace(r[0])
  {
    if s != [] && JsSpace(s[0]) then TrimStart(s[1..]) else s
  }

  /** The longest prefix made of digits. */
  function DigitRun(s: string): (r: string)
    ensures r <= s
    ensures forall i :: 0 <= i < |r| ==> IsDigit(r[i])
    ensures |r| < |s| ==> !IsDigit(s[|r|])
  {
    if s != [] && IsDigit(s[0]) then [s[0]] + DigitRun(s[1..]) else []
  }

  /** `parseInt(text, 10)`: leading white space, an optional sign, then as
      many decimal digits as there are; no digit at all gives NaN. */
  function ParseInt(text: string): (r: Parsed)
    ensures TrimStart(text) == [] ==> r == NaN
  {
    var t := TrimStart(text);
    var negative := t != [] && t[0] == '-';
    var body := if t != [] && (t[0] == '-' || t[0] == '+') then t[1..] else t;
    var digits := DigitRun(body);
    if digits == [] then NaN
    else
      var v: int := DigitsValue(digits);
      Num(if negative then -v else v)
  }

  /** `parseInt(String(n), 10) == n` */
  lemma ParseIntRoundTrip(n: int)
    ensures ParseInt(IntToString(n)) == Num(n)
  {
    if n < 0 {
      var m: nat := -n;
      assert IntToString(n) == ['-'] + NatToString(m);
      ParseIntNegative(m);
    } else {
      assert IntToString(n) == NatToString(n) + "";
      ParseIntIgnoresTail(n, "");
    }
  }

  /** A minus sign before the digits of m reads back as -m. */
  lemma ParseIntNegative(m: nat)
    ensures ParseInt(['-'] + NatToString(m)) == Num(-(m as int))
  {
    var d := NatToString(m);
    var s := ['-'] + d;
    assert !JsSpace(s[0]);
    assert TrimStart(s) == s;
    assert s[1..] == d;
    assert DigitRun(d) == d by {
      DigitRunPrefix(d, "");
      assert d + "" == d;
    }
    assert DigitsValue(d) == m by {
      NatToStringValue(m);
    }
  }

  /** Trailing text after the digits is ignored: page "3abc" is page 3. */
  lemma ParseIntIgnoresTail(n: nat, tail: string)
    requires tail == [] || !IsDigit(tail[0])
    ensures ParseInt(NatToString(n) + tail) == Num(n)
  {
    var d := NatToString(n);
    var s := d + tail;
    assert s[0] == d[0] && IsDigit(s[0]);
    assert !JsSpace(s[0]);
    assert TrimStart(s) == s;
    assert s[0] != '-' && s[0] != '+';
    assert DigitRun(s) == d by {
      DigitRunPrefix(d, tail);
    }
    assert DigitsValue(d) == n by {
      NatToStringValue(n);
    }
  }

  lemma {:induction false} DigitRunPrefix(d: string, tail: string)
    requires forall i :: 0 <= i < |d| ==> IsDigit(d[i])
    requires tail == [] || !IsDigit(tail[0])
    ensures DigitRun(d + tail) == d
    decreases |d|
  {
    if d != [] {
      assert (d + tail)[1..] == d[1..] + tail;
      DigitRunPrefix(d[1..], tail);
    }
  }

  /** `getPageFromHref(href)`: None is JavaScript's null. */
  function GetPageFromHref(query: Option<seq<Pair>>): (r: Option<Parsed>)
    ensures r.None? <==> query.None? || Lookup(query.value, "page").None? || Lookup(query.value, "page") == Some("")
  {
    if query.None? then None
    else
      var p := Lookup(query.value, "page");
      if p.None? || p.value == "" then None else Some(ParseInt(p.value))
  }

  /** `if (!targetPage)`: null, NaN and 0 (also -0) are all falsy. */
  predicate Truthy(page: Option<Parsed>) { page.Some? && page.value.Num? && page.value.n != 0 }

  /** Reading the page back from a rebuilt query gives the target page. */
  lemma PageRoundTrip(page: int, params: seq<Pair>)
    ensures GetPageFromHref(Some(WithPage(page, params))) == Some(Num(page))
  {
    WithPageShape(page, params);
    var kept := Filter(params, NotPage);
    FilterNoPage(params);
    var all := kept + [Pair("page", IntToString(page))];
    LookupAppend(kept, Pair("page", IntToString(page)));
    ParseIntRoundTrip(page);
  }

  lemma {:induction false} LookupAppend(ps: seq<Pair>, p: Pair)
    requires !HasKey(ps, p.key)
    ensures Lookup(ps + [p], p.key) == Some(p.value)
    decreases |ps|
  {
    if ps != [] {
      assert (ps + [p])[1..] == ps[1..] + [p];
      assert !HasKey(ps[1..], p.key) by {
        forall i | 0 <= i < |ps[1..]| ensures ps[1..][i].key != p.key {
          assert ps[1..][i] == ps[i + 1];
        }
      }
      LookupAppend(ps[1..], p);
    }
  }

  // ---------------------------------------------------------------------
  // the click handler

  /** A clicked `.page-link`: whether it sits in a `.page-item`, that item's
      classes, and the query of its href. */
  datatype Item = Item(inPageItem: bool, disabled: bool, active: bool, href: Option<seq<Pair>>)

  /** What one click does. `FollowLink` is the browser's own navigation (the
      only case where the default is not prevented); `Assign` navigates to
      the rebuilt query; `StartLoad` hands the page to the AJAX loader. */
  datatype Decision = Ignore | FollowLink | Swallow | Assign(page: int) | StartLoad(page: int)

  predicate Starts(d: Decision) { d.Assign? || d.StartLoad? }

  /** The click handler's branches, given whether a loader is installed and
      the current `isNavigating`. */
  function Decide(item: Item, ajax: bool, navigating: bool): Decision {
    if !item.inPageItem || item.disabled || item.active then Ignore
    else
      var target := GetPageFromHref(item.href);
      if !Truthy(target) then FollowLink
      else if navigating then Swallow
      else if ajax then StartLoad(target.value.n)
      else Assign(target.value.n)
  }

  predicate Prevented(d: Decision) { d != FollowLink }

  /** `isNavigating` after the click. */
  function FlagAfter(d: Decision, navigating: bool): bool { navigating || Starts(d) }

  /** Disabled and active items, and items outside a page item, only have
      their default prevented; a link without a usable page falls back to
      the browser; while a navigation is in flight every usable click is
      swallowed; otherwise exactly one navigation starts, in the mode the
      loader decides. */
  lemma DecideLaws(item: Item, ajax: bool, navigating: bool)
    ensures !item.inPageItem || item.disabled || item.active ==> Decide(item, ajax, navigating) == Ignore
    ensures Decide(item, ajax, navigating) == FollowLink <==>
      item.inPageItem && !item.disabled && !item.active && !Truthy(GetPageFromHref(item.href))
    ensures Starts(Decide(item, ajax, navigating)) <==>
      item.inPageItem && !item.disabled && !item.active && Truthy(GetPageFromHref(item.href)) && !navigating
    ensures Decide(item, ajax, navigating).StartLoad? ==> ajax
    ensures Decide(item, ajax, navigating).Assign? ==> !ajax
    ensures Starts(Decide(item, ajax, navigating)) ==>
      Some(Num(Decide(item, ajax, navigating).page)) == GetPageFromHref(item.href)
  {
  }

  /** A series of clicks with no loader finishing in between. */
  function Run(clicks: seq<(Item, bool)>, navigating: bool): seq<Decision>
    decreases |clicks|
  {
    if clicks == [] then []
    else
      var d := Decide(clicks[0].0, clicks[0].1, navigating);
      [d] + Run(clicks[1..], FlagAfter(d, navigating))
  }

  /** At most one navigation starts in any series of clicks, and none once
      one is in flight: only the AJAX loader's completion clears the flag,
      so in the default mode a second navigation never starts. */
  lemma {:induction false} AtMostOneNavigation(clicks: seq<(Item, bool)>, navigating: bool)
    ensures Count(Run(clicks, navigating), Starts) <= 1
    ensures navigating ==> Count(Run(clicks, navigating), Starts) == 0
    decreases |clicks|
  {
    if clicks != [] {
      var d := Decide(clicks[0].0, clicks[0].1, navigating);
      var rest := Run(clicks[1..], FlagAfter(d, navigating));
      AtMostOneNavigation(clicks[1..], FlagAfter(d, navigating));
      CountCons(d, rest);
    }
  }

  lemma {:induction false} CountCons(d: Decision, rest: seq<Decision>)
    ensures Count([d] + rest, Starts) == Indicator(Starts(d)) + Count(rest, Starts)
    decreases |rest|
  {
    if rest != [] {
      var init := rest[..|rest| - 1];
      assert ([d] + rest)[..|rest|] == [d] + init;
      CountCons(d, init);
    }
  }

  /** The loader's arguments: `paramsObj`, the current parameters but 'page'. */
  function ParamsObject(m: seq<Pair>): (r: map<string, string>)
    ensures "page" !in r
  {
    if m == [] then map[]
    else
      var last := m[|m| - 1];
      var rest := ParamsObject(m[..|m| - 1]);
      if last.key == "page" then rest else rest[last.key := last.value]
  }

  /** Dropping the last pair keeps the names distinct, and the last name
      is not among the others. */
  lemma DistinctInit(m: seq<Pair>)
    requires KeysDistinct(m) && m != []
    ensures KeysDistinct(m[..|m| - 1])
    ensures m[|m| - 1].key !in Keys(m[..|m| - 1])
  {
    var init := m[..|m| - 1];
    forall i | 0 <= i < |init| ensures Keys(init)[i] != m[|m| - 1].key {
      assert init[i] == m[i];
    }
  }

  /** The loader sees every parameter but 'page', with the map's value. */
  lemma {:induction false} ParamsObjectLookup(m: seq<Pair>, k: string)
    requires KeysDistinct(m) && k != "page"
    ensures k in ParamsObject(m) <==> Lookup(m, k).Some?
    ensures k in ParamsObject(m) ==> Some(ParamsObject(m)[k]) == Lookup(m, k)
    decreases |m|
  {
    if m != [] {
      var init := m[..|m| - 1];
      DistinctInit(m);
      ParamsObjectLookup(init, k);
      LookupLast(m, k);
      ParamsObjectLast(m, k);
      if m[|m| - 1].key == k {
        assert Lookup(init, k).None?;
      }
    }
  }

  /** The object of a non-empty list: that of all but the last pair, with
      the last pair's name and value unless it is 'page'. */
  lemma ParamsObjectLast(m: seq<Pair>, k: string)
    requires m != [] && k != "page"
    ensures var o := ParamsObject(m);
      var rest := ParamsObject(m[..|m| - 1]);
      && (k in o <==> k in rest || m[|m| - 1].key == k)
      && (m[|m| - 1].key == k ==> o[k] == m[|m| - 1].value)
      && (m[|m| - 1].key != k && k in o ==> o[k] == rest[k])
  {
  }

  /** The first value of a non-empty list: that of all but the last pair,
      or else the last pair's. */
  lemma LookupLast(m: seq<Pair>, k: string)
    requires m != []
    ensures var init := m[..|m| - 1];
      Lookup(m, k) == if Lookup(init, k).Some? then Lookup(init, k)
                      else if m[|m| - 1].key == k then Some(m[|m| - 1].value) else None
  {
    var init := m[..|m| - 1];
    assert init + [m[|m| - 1]] == m;
    LookupSnoc(init, m[|m| - 1], k);
  }

  lemma {:induction false} LookupSnoc(ps: seq<Pair>, p: Pair, k: string)
    ensures Lookup(ps + [p], k) == if Lookup(ps, k).Some? then Lookup(ps, k) else if p.key == k then Some(p.value) else None
    decreases |ps|
  {
    if ps != [] {
      assert (ps + [p])[1..] == ps[1..] + [p];
      LookupSnoc(ps[1..], p, k);
    }
  }

  /** A loader call in flight: the container it marked busy and its arguments. */
  datatype Load = Load(container: nat, page: int, params: map<string, string>)

  /** The handler's state shared by every pagination container of a page. */
  class Paginator {
    const currentParams: seq<Pair>
    const containers: nat
    var isNavigating: bool
    /** `aria-busy` of each container. */
    var busy: seq<bool>
    var pending: Option<Load>
    /** The targets passed to `window.location.assign`, in order. */
    var visited: seq<string>
    var scrolls: nat

    ghost predicate Valid()
      reads this
    {
      && |busy| == containers
      && (pending.Some? ==> isNavigating && pending.value.container < containers)
    }

    /** Page load: the location's parameters and the number of containers. */
    constructor(search: seq<Pair>, containers: nat)
      ensures Valid()
      ensures this.currentParams == ToMap(search) && this.containers == containers
      ensures !isNavigating && busy == seq(containers, _ => false)
      ensures pending.None? && visited == [] && scrolls == 0
    {
      this.currentParams := ToMap(search);
      this.containers := containers;
      isNavigating := false;
      busy := seq(containers, _ => false);
      pending := None;
      visited := [];
      scrolls := 0;
    }

    /** A click on a link of container `ul`; `ajax` is whether
        `window.MedAppPagination.loadPage` is a function at that moment.
        Returns whether the default navigation was prevented. */
    method Click(ul: nat, item: Item, ajax: bool) returns (prevented: bool)
      requires Valid() && ul < containers
      modifies this
      ensures Valid()
      ensures var d := Decide(item, ajax, old(isNavigating));
        && prevented == Prevented(d)
        && isNavigating == FlagAfter(d, old(isNavigating))
        && (d.StartLoad? ==>
             && pending == Some(Load(ul, d.page, ParamsObject(currentParams)))
             && busy == old(busy)[ul := true] && visited == old(visited) && scrolls == old(scrolls))
        && (d.Assign? ==>
             && pending == old(pending)
             && busy == old(busy)[ul := true]
             && visited == old(visited) + [BuildQueryStringWithPage(d.page, currentParams)]
             && scrolls == old(scrolls) + 1)
        && (!Starts(d) ==>
             pending == old(pending) && busy == old(busy) && visited == old(visited) && scrolls == old(scrolls))
    {
      ghost var d := Decide(item, ajax, isNavigating);
      if !item.inPageItem || item.disabled || item.active {
        assert d == Ignore;
        return true;
      }
      var targetPage := GetPageFromHref(item.href);
      if !Truthy(targetPage) {
        assert d == FollowLink;
        return false;
      }
      if isNavigating {
        assert d == Swallow;
        return true;
      }
      assert d == if ajax then StartLoad(targetPage.value.n) else Assign(targetPage.value.n);
      Begin(ul, targetPage.value.n, ajax);
      prevented := true;
    }

    /** Both branches of a usable click, once no navigation is in flight:
        take the flag, mark the container busy, then hand the loader the
        page and the parameters, or scroll to the top and assign the
        rebuilt query. */
    method Begin(ul: nat, page: int, ajax: bool)
      requires Valid() && ul < containers && !isNavigating
      modifies this
      ensures Valid()
      ensures isNavigating && busy == old(busy)[ul := true]
      ensures ajax ==>
        pending == Some(Load(ul, page, ParamsObject(currentParams))) && visited == old(visited) && scrolls == old(scrolls)
      ensures !ajax ==>
        && pending == old(pending)
        && visited == old(visited) + [BuildQueryStringWithPage(page, currentParams)]
        && scrolls == old(scrolls) + 1
    {
      isNavigating := true;
      busy := busy[ul := true];
      if ajax {
        pending := Some(Load(ul, page, ParamsObject(currentParams)));
      } else {
        var target := BuildQueryStringWithPage(page, currentParams);
        scrolls := scrolls + 1;
        visited := visited + [target];
      }
    }

    /** The loader's promise settles: on a failure the page navigates to the
        rebuilt query; either way `finally` clears the flag and the busy mark
        and scrolls to the top. */
    method Settle(loaderFailed: bool)
      requires Valid() && pending.Some?
      modifies this
      ensures Valid()
      ensures !isNavigating && pending.None?
      ensures busy == old(busy)[old(pending).value.container := false]
      ensures visited == old(visited) +
        (if loaderFailed then [BuildQueryStringWithPage(old(pending).value.page, currentParams)] else [])
      ensures scrolls == old(scrolls) + 1
    {
      var load := pending.value;
      if loaderFailed {
        visited := visited + [BuildQueryStringWithPage(load.page, currentParams)];
      }
      isNavigating := false;
      busy := busy[load.container := false];
      scrolls := scrolls + 1;
      pending := None;
    }
  }
}
