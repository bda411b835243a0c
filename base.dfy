/** Shared value types and string helpers used by every part of the model.
    Strings are sequences of characters; case folding and white space are
    modelled on the ASCII range only. */
module Base {

  datatype Option<T> = None | Some(value: T)

  /** A model instance as Django compares it: two instances are equal iff
      they are rows of the same concrete model with the same primary key. */
  datatype Ref = Ref(model: string, pk: int)

  /** A call that returns a value or raises an error with a message. */
  datatype Result<T> = Success(value: T) | Failure(error: string)

  /** A guard that either lets an operation through or names why it refused. */
  datatype Outcome = Pass | Fail(message: string)

  /** What a serializer or form validator does with its input: accept it,
      reject it with a message for one field (`non_field_errors` / `__all__`
      for errors not tied to a field), or raise an exception by accident. */
  datatype Verdict = Accepted | Invalid(field: string, message: string) | Raises(exception: string)

  /** `x or {}` for an optional dictionary: an absent or empty one is empty. */
  function OrEmpty<K, V>(m: Option<map<K, V>>): map<K, V> {
    if m.Some? then m.value else map[]
  }

  // ---------------------------------------------------------------------
  // characters

  predicate IsUpper(c: char) { 'A' <= c <= 'Z' }
  predicate IsLowerLetter(c: char) { 'a' <= c <= 'z' }
  predicate IsLetter(c: char) { IsUpper(c) || IsLowerLetter(c) }
  predicate IsDigit(c: char) { '0' <= c <= '9' }
  predicate IsAlnum(c: char) { IsLetter(c) || IsDigit(c) }

  /** White space as `String.prototype.trim` and `str.strip` remove it (ASCII part). */
  predicate IsSpace(c: char) { c == ' ' || c == '\t' || c == '\n' || c == '\r' || c == 12 as char || c == 11 as char }

  function LowerChar(c: char): char {
    if IsUpper(c) then (c as int + 32) as char else c
  }

  // ---------------------------------------------------------------------
  // strings

  /** `s.lower()` / `s.toLowerCase()` */
  function Lower(s: string): (r: string)
    ensures |r| == |s|
    ensures forall i :: 0 <= i < |s| ==> r[i] == LowerChar(s[i])
  {
    if s == [] then [] else [LowerChar(s[0])] + Lower(s[1..])
  }

  /** Two strings are equal ignoring case (Django's `__iexact`). */
  predicate EqualsIgnoreCase(a: string, b: string) { Lower(a) == Lower(b) }

  /** `sub in s` / `s.includes(sub)`: `sub` occurs somewhere in `s`. */
  predicate Contains(s: string, sub: string)
    decreases |s|
  {
    sub <= s || (|s| > 0 && Contains(s[1..], sub))
  }

  /** `!s.trim()` / `not s.strip()`: nothing but white space. */
  predicate IsBlank(s: string) { forall i :: 0 <= i < |s| ==> IsSpace(s[i]) }

  /** `sep.join(parts)` / `parts.join(sep)` */
  function Join(parts: seq<string>, sep: string): string {
    if |parts| == 0 then []
    else if |parts| == 1 then parts[0]
    else parts[0] + sep + Join(parts[1..], sep)
  }

  /** `str.isdigit()` on ASCII text: non-empty and only digits. */
  predicate AllDigits(s: string) { |s| > 0 && forall i :: 0 <= i < |s| ==> IsDigit(s[i]) }

  function DigitValue(c: char): nat
    requires IsDigit(c)
  {
    c as int - '0' as int
  }

  /** Decimal value of a string of digits. */
  function DigitsValue(s: string): nat
    requires forall i :: 0 <= i < |s| ==> IsDigit(s[i])
  {
    if s == [] then 0 else DigitsValue(s[..|s| - 1]) * 10 + DigitValue(s[|s| - 1])
  }

  /** Decimal digits of n, most significant first, no leading zeros ("0" for zero). */
  function NatToString(n: nat): (r: string)
    ensures |r| > 0
    ensures forall i :: 0 <= i < |r| ==> IsDigit(r[i])
    decreases n
  {
    if n < 10 then [('0' as int + n) as char]
    else NatToString(n / 10) + [('0' as int + n % 10) as char]
  }

  /** `str(n)` / `String(n)`: an optional minus sign, then the digits. */
  function IntToString(n: int): (r: string)
    ensures r != [] && !IsSpace(r[0]) && !IsSpace(r[|r| - 1])
    ensures forall i :: 0 <= i < |r| ==> IsDigit(r[i]) || (i == 0 && r[i] == '-')
  {
    if n < 0 then "-" + NatToString(-n) else NatToString(n)
  }

  /** `s.split(c)` with a one-character separator: the pieces between the
      separators, one more than there are separators. */
  function Split(s: string, c: char): (r: seq<string>)
    ensures |r| >= 1
    ensures forall k :: 0 <= k < |r| ==> c !in r[k]
    ensures |r| == 1 <==> c !in s
  {
    if s == [] then [""]
    else if s[0] == c then [""] + Split(s[1..], c)
    else
      var rest := Split(s[1..], c);
      [[s[0]] + rest[0]] + rest[1..]
  }

  /** `str(n).zfill(width)`: left-pads with '0' up to the width. */
  function ZeroFill(s: string, width: nat): (r: string)
    ensures |r| == if |s| >= width then |s| else width
    ensures s <= r[|r| - |s|..] && r[|r| - |s|..] == s
    ensures forall i :: 0 <= i < |r| - |s| ==> r[i] == '0'
    decreases width - |s|
  {
    if |s| >= width then s else ZeroFill(['0'] + s, width)
  }

  // ---------------------------------------------------------------------
  // facts about the helpers

  lemma {:induction false} LowerIdempotent(s: string)
    ensures Lower(Lower(s)) == Lower(s)
  {
    if s != [] {
      LowerIdempotent(s[1..]);
    }
  }

  /** Lowercasing works piece by piece. */
  lemma LowerAppend(a: string, b: string)
    ensures Lower(a + b) == Lower(a) + Lower(b)
  {
    assert forall i :: 0 <= i < |a + b| ==> Lower(a + b)[i] == (Lower(a) + Lower(b))[i];
  }

  /** Whatever precedes and follows it, a piece of text is contained in the text around it. */
  lemma {:induction false} ContainsInfix(pre: string, sub: string, post: string)
    ensures Contains(pre + sub + post, sub)
    decreases |pre|
  {
    if pre == [] {
      assert sub + post == pre + sub + post;
      assert sub <= sub + post;
    } else {
      assert (pre + sub + post)[1..] == pre[1..] + sub + post;
      ContainsInfix(pre[1..], sub, post);
    }
  }

  lemma ContainsEmpty(s: string)
    ensures Contains(s, [])
  {
  }

  /** A contained string is never longer than its container. */
  lemma {:induction false} ContainsShorter(s: string, sub: string)
    requires Contains(s, sub)
    ensures |sub| <= |s|
    decreases |s|
  {
    if !(sub <= s) {
      ContainsShorter(s[1..], sub);
    }
  }

  /** Decimal rendering is read back by `DigitsValue`. */
  lemma {:induction false} NatToStringValue(n: nat)
    ensures DigitsValue(NatToString(n)) == n
    decreases n
  {
    if n >= 10 {
      var s := NatToString(n);
      assert s[..|s| - 1] == NatToString(n / 10);
      NatToStringValue(n / 10);
    }
  }

  /** Joining one more part appends the separator and the part. */
  lemma {:induction false} JoinSnoc(parts: seq<string>, p: string, sep: string)
    ensures Join(parts + [p], sep) == if parts == [] then p else Join(parts, sep) + sep + p
    decreases |parts|
  {
    if |parts| >= 2 {
      assert (parts + [p])[1..] == parts[1..] + [p];
      JoinSnoc(parts[1..], p, sep);
    } else if |parts| == 1 {
      assert (parts + [p])[1..] == [p];
    }
  }

  /** Text up to the first separator is the first piece. */
  lemma {:induction false} SplitPrefix(a: string, c: char, t: string)
    requires c !in a
    ensures Split(a + [c] + t, c) == [a] + Split(t, c)
    ensures Split(a, c) == [a]
    decreases |a|
  {
    if a != [] {
      assert (a + [c] + t)[1..] == a[1..] + [c] + t;
      SplitPrefix(a[1..], c, t);
      assert [a[0]] + a[1..] == a;
    } else {
      assert a + [c] + t == [c] + t;
    }
  }

  /** Splitting what was joined gives the parts back, as long as no part
      holds the separator. */
  lemma {:induction false} SplitJoin(parts: seq<string>, c: char)
    requires |parts| >= 1
    requires forall k :: 0 <= k < |parts| ==> c !in parts[k]
    ensures Split(Join(parts, [c]), c) == parts
    decreases |parts|
  {
    if |parts| == 1 {
      SplitPrefix(parts[0], c, "");
    } else {
      SplitJoin(parts[1..], c);
      SplitPrefix(parts[0], c, Join(parts[1..], [c]));
      assert [parts[0]] + parts[1..] == parts;
    }
  }

  /** A number below 10^k needs at most k digits (k >= 1). */
  lemma {:induction false} NatToStringLength(n: nat, k: nat, bound: nat)
    requires k >= 1 && bound == Pow10(k) && n < bound
    ensures |NatToString(n)| <= k
    decreases k
  {
    if n >= 10 {
      Pow10Step(k);
      NatToStringLength(n / 10, k - 1, Pow10(k - 1));
    }
  }

  function Pow10(k: nat): nat {
    if k == 0 then 1 else 10 * Pow10(k - 1)
  }

  lemma Pow10Step(k: nat)
    requires k >= 1
    ensures Pow10(k) == 10 * Pow10(k - 1) && (k >= 2 ==> Pow10(k - 1) >= 10)
  {
    if k >= 2 {
      Pow10Positive(k - 2);
    }
  }

  lemma {:induction false} Pow10Positive(k: nat)
    ensures Pow10(k) >= 1
  {
    if k > 0 {
      Pow10Positive(k - 1);
    }
  }

  /** Leading zeros do not change the value of a digit string. */
  lemma {:induction false} DigitsValueZeroPrefix(s: string)
    requires forall i :: 0 <= i < |s| ==> IsDigit(s[i])
    ensures DigitsValue(['0'] + s) == DigitsValue(s)
    decreases |s|
  {
    if s != [] {
      var t := ['0'] + s;
      assert t[..|t| - 1] == ['0'] + s[..|s| - 1];
      DigitsValueZeroPrefix(s[..|s| - 1]);
    }
  }

  lemma {:induction false} ZeroFillValue(s: string, width: nat)
    requires forall i :: 0 <= i < |s| ==> IsDigit(s[i])
    ensures DigitsValue(ZeroFill(s, width)) == DigitsValue(s)
    decreases width - |s|
  {
    if |s| < width {
      DigitsValueZeroPrefix(s);
      ZeroFillValue(['0'] + s, width);
    }
  }

  // ---------------------------------------------------------------------
  // collections: a queryset `filter(...)` and `order_by(...)` over a table

  /** The elements of `s` that satisfy `p`, in their original order. */
  function Filter<T(!new)>(s: seq<T>, p: T -> bool): (r: seq<T>)
    ensures |r| <= |s|
    ensures forall x :: x in r <==> x in s && p(x)
    ensures forall i :: 0 <= i < |r| ==> p(r[i])
  {
    if s == [] then []
    else if p(s[0]) then [s[0]] + Filter(s[1..], p)
    else Filter(s[1..], p)
  }

  /** 1 for true, 0 for false. */
  function Indicator(b: bool): nat { if b then 1 else 0 }

  /** Number of elements of `s` that satisfy `p`. */
  function Count<T(!new)>(s: seq<T>, p: T -> bool): (n: nat)
    ensures n <= |s|
    ensures n == |Filter(s, p)|
  {
    if s == [] then 0 else (if p(s[0]) then 1 else 0) + Count(s[1..], p)
  }

  /** No element satisfies p: the count is zero. */
  lemma {:induction false} CountNone<T(!new)>(s: seq<T>, p: T -> bool)
    requires forall k :: 0 <= k < |s| ==> !p(s[k])
    ensures Count(s, p) == 0
  {
    if s != [] {
      assert forall k :: 0 <= k < |s[1..]| ==> s[1..][k] == s[k + 1];
      CountNone(s[1..], p);
    }
  }

  predicate SortedBy<T>(s: seq<T>, key: T -> int) {
    forall i, j :: 0 <= i < j < |s| ==> key(s[i]) <= key(s[j])
  }

  /** A sorted sequence stays sorted behind an element whose key is at most
      every key in it. */
  lemma SortedCons<T>(x: T, s: seq<T>, key: T -> int)
    requires SortedBy(s, key)
    requires forall y :: y in s ==> key(x) <= key(y)
    ensures SortedBy([x] + s, key)
  {
    forall i, j | 0 <= i < j < |[x] + s|
      ensures key(([x] + s)[i]) <= key(([x] + s)[j])
    {
      assert ([x] + s)[j] == s[j - 1];
      if i > 0 {
        assert ([x] + s)[i] == s[i - 1];
      }
    }
  }

  /** The head of a sorted sequence has the least key. */
  lemma SortedHead<T>(s: seq<T>, key: T -> int)
    requires SortedBy(s, key) && s != []
    ensures forall y :: y in s[1..] ==> key(s[0]) <= key(y)
    ensures SortedBy(s[1..], key)
  {
    forall y | y in s[1..] ensures key(s[0]) <= key(y) {
      var j :| 0 <= j < |s[1..]| && s[1..][j] == y;
      assert s[j + 1] == y;
    }
  }

  function InsertBy<T(!new)>(x: T, s: seq<T>, key: T -> int): (r: seq<T>)
    requires SortedBy(s, key)
    ensures SortedBy(r, key)
    ensures multiset(r) == multiset(s) + multiset{x}
    ensures forall y :: y in r <==> y in s || y == x
  {
    if s == [] then [x]
    else
      SortedHead(s, key);
      assert s == [s[0]] + s[1..];
      if key(x) <= key(s[0]) then
        SortedCons(x, s, key);
        [x] + s
      else
        var rest := InsertBy(x, s[1..], key);
        SortedCons(s[0], rest, key);
        [s[0]] + rest
  }

  /** `order_by(key)`: a permutation of `s` with non-decreasing keys. */
  function SortBy<T(!new)>(s: seq<T>, key: T -> int): (r: seq<T>)
    ensures SortedBy(r, key)
    ensures multiset(r) == multiset(s)
    ensures |r| == |s|
    ensures forall y :: y in r <==> y in s
  {
    if s == [] then []
    else
      assert s == [s[0]] + s[1..];
      InsertBy(s[0], SortBy(s[1..], key), key)
  }

  /** A filter that every element passes keeps the whole sequence. */
  lemma {:induction false} FilterAll<T(!new)>(s: seq<T>, p: T -> bool)
    requires forall x :: x in s ==> p(x)
    ensures Filter(s, p) == s
  {
    if s != [] {
      FilterAll(s[1..], p);
    }
  }

  /** Filtering a sequence grown by one element. */
  lemma {:induction false} FilterSnoc<T(!new)>(s: seq<T>, x: T, p: T -> bool)
    ensures Filter(s + [x], p) == Filter(s, p) + (if p(x) then [x] else [])
  {
    if s == [] {
      assert s + [x] == [x];
    } else {
      assert (s + [x])[1..] == s[1..] + [x];
      FilterSnoc(s[1..], x, p);
    }
  }

  /** A filter keeps every copy of an element that passes and none of one that fails. */
  lemma {:induction false} FilterMultiset<T(!new)>(s: seq<T>, p: T -> bool, x: T)
    ensures multiset(Filter(s, p))[x] == if p(x) then multiset(s)[x] else 0
  {
    if s != [] {
      FilterMultiset(s[1..], p, x);
      assert s == [s[0]] + s[1..];
      assert multiset(s) == multiset([s[0]]) + multiset(s[1..]);
      if p(s[0]) {
        assert multiset(Filter(s, p)) == multiset([s[0]]) + multiset(Filter(s[1..], p));
      } else {
        assert Filter(s, p) == Filter(s[1..], p);
      }
    }
  }

  /** Splitting a table by a predicate loses and duplicates nothing. */
  lemma {:induction false} FilterPartition<T(!new)>(s: seq<T>, p: T -> bool, q: T -> bool)
    requires forall x :: q(x) <==> !p(x)
    ensures |Filter(s, p)| + |Filter(s, q)| == |s|
  {
    if s != [] {
      FilterPartition(s[1..], p, q);
    }
  }

  /** Counting over a table grown by one row. */
  lemma {:induction false} CountSnoc<T(!new)>(s: seq<T>, x: T, p: T -> bool)
    ensures Count(s + [x], p) == Count(s, p) + (if p(x) then 1 else 0)
  {
    if s == [] {
      assert s + [x] == [x];
    } else {
      assert (s + [x])[1..] == s[1..] + [x];
      CountSnoc(s[1..], x, p);
    }
  }

  /** Count is monotone in the predicate. */
  lemma {:induction false} CountMonotone<T(!new)>(s: seq<T>, p: T -> bool, q: T -> bool)
    requires forall x :: p(x) ==> q(x)
    ensures Count(s, p) <= Count(s, q)
  {
    if s != [] {
      CountMonotone(s[1..], p, q);
    }
  }

  /** Two disjoint predicates never count more than their union. */
  lemma {:induction false} CountDisjointSum<T(!new)>(s: seq<T>, p: T -> bool, q: T -> bool, u: T -> bool)
    requires forall x :: !(p(x) && q(x))
    requires forall x :: p(x) || q(x) ==> u(x)
    ensures Count(s, p) + Count(s, q) <= Count(s, u)
  {
    if s != [] {
      CountDisjointSum(s[1..], p, q, u);
    }
  }

  /** Position of the first element that satisfies `p` (`.get(id=...)`). */
  function IndexWhere<T>(s: seq<T>, p: T -> bool): (r: Option<nat>)
    ensures r.Some? ==> r.value < |s| && p(s[r.value])
    ensures r.Some? ==> forall k :: 0 <= k < r.value ==> !p(s[k])
    ensures r.None? <==> forall k :: 0 <= k < |s| ==> !p(s[k])
  {
    if s == [] then None
    else if p(s[0]) then Some(0)
    else
      var r := IndexWhere(s[1..], p);
      if r.None? then None else Some(r.value + 1)
  }

  /** Appending never moves a match that is already there. */
  lemma IndexWhereAppend<T>(s: seq<T>, t: seq<T>, p: T -> bool)
    requires IndexWhere(s, p).Some?
    ensures IndexWhere(s + t, p) == IndexWhere(s, p)
  {
    var i := IndexWhere(s, p).value;
    assert (s + t)[i] == s[i];
  }

  /** Two sequences that agree on the predicate index by index find the
      same first match. */
  lemma {:induction false} IndexWhereSame<T>(s: seq<T>, t: seq<T>, p: T -> bool)
    requires |s| == |t| && forall k :: 0 <= k < |s| ==> (p(s[k]) <==> p(t[k]))
    ensures IndexWhere(s, p) == IndexWhere(t, p)
  {
    if s != [] {
      assert forall k :: 0 <= k < |s| - 1 ==> s[1..][k] == s[k + 1] && t[1..][k] == t[k + 1];
      IndexWhereSame(s[1..], t[1..], p);
    }
  }

  /** Django's `.get` on a filter: None when nothing matches (the callers
      catch DoesNotExist), the one match, or MultipleObjectsReturned when
      two or more match. */
  function GetWhere<T>(s: seq<T>, p: T -> bool): (r: Result<Option<nat>>)
    ensures r == Success(None) <==> forall k :: 0 <= k < |s| ==> !p(s[k])
    ensures r.Failure? <==> exists i, j :: 0 <= i < j < |s| && p(s[i]) && p(s[j])
    ensures r.Failure? ==> r.error == "MultipleObjectsReturned"
    ensures r.Success? ==> r.value == IndexWhere(s, p)
    ensures r.Success? && r.value.Some? ==>
      r.value.value < |s| && p(s[r.value.value]) && forall k :: 0 <= k < |s| && k != r.value.value ==> !p(s[k])
  {
    var i := IndexWhere(s, p);
    if i.None? then Success(None)
    else
      var rest := IndexWhere(s[i.value + 1..], p);
      SecondMatch(s, p, i.value, rest);
      if rest.Some? then Failure("MultipleObjectsReturned") else Success(i)
  }

  /** Past the first match, the search of the rest finds a second one iff
      there are two. */
  lemma SecondMatch<T>(s: seq<T>, p: T -> bool, i: nat, rest: Option<nat>)
    requires i < |s| && p(s[i]) && forall k :: 0 <= k < i ==> !p(s[k])
    requires rest == IndexWhere(s[i + 1..], p)
    ensures rest.Some? <==> exists a, b :: 0 <= a < b < |s| && p(s[a]) && p(s[b])
    ensures rest.None? ==> forall k :: 0 <= k < |s| && k != i ==> !p(s[k])
  {
    var tail := s[i + 1..];
    if rest.Some? {
      assert tail[rest.value] == s[i + 1 + rest.value];
    } else {
      forall k | 0 <= k < |s| && k != i ensures !p(s[k]) {
        if k > i {
          assert tail[k - i - 1] == s[k];
        }
      }
    }
  }

  /** Keys grow strictly along the sequence (ids in insertion order). */
  predicate Increasing<T>(s: seq<T>, key: T -> int) {
    forall i, j :: 0 <= i < j < |s| ==> key(s[i]) < key(s[j])
  }

  /** Dropping rows keeps the keys of the rest strictly growing. */
  lemma {:induction false} FilterIncreasing<T(!new)>(s: seq<T>, p: T -> bool, key: T -> int)
    requires Increasing(s, key)
    ensures Increasing(Filter(s, p), key)
  {
    if s != [] {
      assert Increasing(s[1..], key);
      FilterIncreasing(s[1..], p, key);
      if p(s[0]) {
        var rest := Filter(s[1..], p);
        HeadBelowTail(s, key);
        forall k | 0 <= k < |rest| ensures key(s[0]) < key(rest[k]) {
          assert rest[k] in rest;
        }
        IncreasingCons(s[0], rest, key);
        assert Filter(s, p) == [s[0]] + rest;
      }
    }
  }

  /** A key below all of an increasing sequence's keys can go in front. */
  lemma IncreasingCons<T>(x: T, rest: seq<T>, key: T -> int)
    requires Increasing(rest, key)
    requires forall k :: 0 <= k < |rest| ==> key(x) < key(rest[k])
    ensures Increasing([x] + rest, key)
  {
    var r := [x] + rest;
    forall i, j | 0 <= i < j < |r| ensures key(r[i]) < key(r[j]) {
      assert r[j] == rest[j - 1];
      if i > 0 {
        assert r[i] == rest[i - 1];
      }
    }
  }

  /** The first key is below every later one. */
  lemma HeadBelowTail<T>(s: seq<T>, key: T -> int)
    requires Increasing(s, key) && s != []
    ensures forall y :: y in s[1..] ==> key(s[0]) < key(y)
  {
    forall y | y in s[1..] ensures key(s[0]) < key(y) {
      var j :| 0 <= j < |s[1..]| && s[1..][j] == y;
      assert s[j + 1] == y;
    }
  }

  // ---------------------------------------------------------------------
  // string order: Python's `<=` on str, code point by code point

  predicate StrLe(a: string, b: string)
    decreases |a|
  {
    a == [] || (b != [] && (a[0] < b[0] || (a[0] == b[0] && StrLe(a[1..], b[1..]))))
  }

  lemma {:induction false} StrLeTotal(a: string, b: string)
    ensures StrLe(a, b) || StrLe(b, a)
    decreases |a|
  {
    if a != [] && b != [] && a[0] == b[0] {
      StrLeTotal(a[1..], b[1..]);
    }
  }

  lemma {:induction false} StrLeTrans(a: string, b: string, c: string)
    requires StrLe(a, b) && StrLe(b, c)
    ensures StrLe(a, c)
    decreases |a|
  {
    if a != [] && a[0] == b[0] && b[0] == c[0] {
      StrLeTrans(a[1..], b[1..], c[1..]);
    }
  }

  lemma {:induction false} StrLeAntisymmetric(a: string, b: string)
    requires StrLe(a, b) && StrLe(b, a)
    ensures a == b
    decreases |a|
  {
    if a != [] {
      StrLeAntisymmetric(a[1..], b[1..]);
      assert a == [a[0]] + a[1..] && b == [b[0]] + b[1..];
    }
  }
}
