/** Departments (departments/services.py over departments/repositories.py
    and departments/models.py): one table keyed by (hospital_id, name),
    which `unique_together` keeps unique and whose listing is ordered by
    name. */
module Departments {
  import opened Base

  datatype Department = Department(
    id: int, hospitalId: int, name: string, description: Option<string>,
    headDoctorId: Option<int>, createdAt: int)

  function DeptId(d: Department): int { d.id }

  /** `filter(hospital_id=..., name=...)` */
  predicate Named(d: Department, hospitalId: int, name: string) {
    d.hospitalId == hospitalId && d.name == name
  }

  function NotNamed(hospitalId: int, name: string): Department -> bool {
    (d: Department) => !Named(d, hospitalId, name)
  }

  function AtHospital(hospitalId: int): Department -> bool {
    (d: Department) => d.hospitalId == hospitalId
  }

  /** Ids grow strictly along the table and stay below the next id. */
  predicate IdsBelow(rows: seq<Department>, nextId: int) {
    Increasing(rows, DeptId) && forall k :: 0 <= k < |rows| ==> rows[k].id < nextId
  }

  /** `unique_together = ("hospital_id", "name")` */
  predicate NamesUnique(rows: seq<Department>) {
    forall i, j :: 0 <= i < j < |rows| ==> !Named(rows[j], rows[i].hospitalId, rows[i].name)
  }

  /** Some row other than `skip` already holds this (hospital_id, name). */
  predicate Taken(rows: seq<Department>, hospitalId: int, name: string, skip: int) {
    exists k :: 0 <= k < |rows| && k != skip && Named(rows[k], hospitalId, name)
  }

  // ---------------------------------------------------------------------
  // queries

  /** `get_department_by_name`: the row with that hospital and name, or None. */
  function DepartmentByName(rows: seq<Department>, hospitalId: int, name: string): (r: Option<Department>)
    ensures r.Some? ==> r.value in rows && Named(r.value, hospitalId, name)
    ensures r.None? <==> !Taken(rows, hospitalId, name, -1)
  {
    var i := IndexWhere(rows, (d: Department) => Named(d, hospitalId, name));
    if i.Some? then Some(rows[i.value]) else None
  }

  /** The row with that id (`objects.get(id=...)`). */
  function FindId(rows: seq<Department>, id: int): (r: Option<nat>)
    ensures r.Some? ==> r.value < |rows| && rows[r.value].id == id
    ensures r.None? <==> forall k :: 0 <= k < |rows| ==> rows[k].id != id
  {
    IndexWhere(rows, (d: Department) => d.id == id)
  }

  predicate SortedByName(s: seq<Department>) {
    forall i, j :: 0 <= i < j < |s| ==> StrLe(s[i].name, s[j].name)
  }

  lemma SortedByNameCons(x: Department, s: seq<Department>)
    requires SortedByName(s)
    requires forall y :: y in s ==> StrLe(x.name, y.name)
    ensures SortedByName([x] + s)
  {
    forall i, j | 0 <= i < j < |[x] + s|
      ensures StrLe(([x] + s)[i].name, ([x] + s)[j].name)
    {
      assert ([x] + s)[j] == s[j - 1];
      if i > 0 {
        assert ([x] + s)[i] == s[i - 1];
      }
    }
  }

  lemma SortedByNameHead(s: seq<Department>)
    requires SortedByName(s) && s != []
    ensures forall y :: y in s[1..] ==> StrLe(s[0].name, y.name)
    ensures SortedByName(s[1..])
  {
    forall y | y in s[1..] ensures StrLe(s[0].name, y.name) {
      var j :| 0 <= j < |s[1..]| && s[1..][j] == y;
      assert s[j + 1] == y;
    }
  }

  function InsertByName(x: Department, s: seq<Department>): (r: seq<Department>)
    requires SortedByName(s)
    ensures SortedByName(r)
    ensures multiset(r) == multiset(s) + multiset{x}
  {
    if s == [] then [x]
    else
      SortedByNameHead(s);
      assert s == [s[0]] + s[1..];
      StrLeTotal(x.name, s[0].name);
      if StrLe(x.name, s[0].name) then
        forall y | y in s ensures StrLe(x.name, y.name) {
          if y != s[0] {
            assert y in s[1..];
            StrLeTrans(x.name, s[0].name, y.name);
          }
        }
        SortedByNameCons(x, s);
        [x] + s
      else
        var rest := InsertByName(x, s[1..]);
        assert forall y :: y in rest ==> y in s[1..] || y == x by {
          forall y | y in rest ensures y in s[1..] || y == x {
            assert y in multiset(rest);
          }
        }
        SortedByNameCons(s[0], rest);
        [s[0]] + rest
  }

  /** `order_by("name")`: a permutation ordered by name. */
  function SortByName(s: seq<Department>): (r: seq<Department>)
    ensures SortedByName(r)
    ensures multiset(r) == multiset(s)
  {
    if s == [] then []
    else
      assert s == [s[0]] + s[1..];
      InsertByName(s[0], SortByName(s[1..]))
  }

  /** `list_departments` / `get_departments_for_hospital`: exactly the
      hospital's rows, each as often as stored, ordered by name. */
  function ListDepartments(rows: seq<Department>, hospitalId: int): (r: seq<Department>)
    ensures SortedByName(r)
    ensures forall x :: multiset(r)[x] == if x.hospitalId == hospitalId then multiset(rows)[x] else 0
    ensures forall x :: x in r ==> x.hospitalId == hospitalId
  {
    var r := SortByName(Filter(rows, AtHospital(hospitalId)));
    forall x ensures multiset(r)[x] == if x.hospitalId == hospitalId then multiset(rows)[x] else 0 {
      FilterMultiset(rows, AtHospital(hospitalId), x);
    }
    r
  }

  /** A department added to a hospital shows up once more in its list. */
  lemma ListAfterAdd(rows: seq<Department>, d: Department)
    ensures |ListDepartments(rows + [d], d.hospitalId)| == |ListDepartments(rows, d.hospitalId)| + 1
    ensures d in ListDepartments(rows + [d], d.hospitalId)
  {
    var before := ListDepartments(rows, d.hospitalId);
    var after := ListDepartments(rows + [d], d.hospitalId);
    ListAddMultiset(rows, d);
    assert |after| == |multiset(after)| == |multiset(before)| + 1;
    assert multiset(after)[d] == multiset(before)[d] + 1;
  }

  /** The list after the add holds one more copy of `d` and nothing else new. */
  lemma ListAddMultiset(rows: seq<Department>, d: Department)
    ensures multiset(ListDepartments(rows + [d], d.hospitalId))
      == multiset(ListDepartments(rows, d.hospitalId)) + multiset{d}
  {
    var p := AtHospital(d.hospitalId);
    FilterSnoc(rows, d, p);
    assert Filter(rows + [d], p) == Filter(rows, p) + [d];
    assert multiset(Filter(rows, p) + [d]) == multiset(Filter(rows, p)) + multiset{d};
  }

  // ---------------------------------------------------------------------
  // updates

  /** `remove_department`: the table without the rows of that hospital and name. */
  function Without(rows: seq<Department>, hospitalId: int, name: string): (r: seq<Department>)
    ensures forall x :: x in r <==> x in rows && !Named(x, hospitalId, name)
  {
    Filter(rows, NotNamed(hospitalId, name))
  }

  /** With the key unique, removing a present key drops exactly one row. */
  lemma {:induction false} WithoutPresent(rows: seq<Department>, hospitalId: int, name: string)
    requires NamesUnique(rows) && Taken(rows, hospitalId, name, -1)
    ensures |Without(rows, hospitalId, name)| == |rows| - 1
  {
    assert rows == [rows[0]] + rows[1..];
    assert NamesUnique(rows[1..]) by {
      forall i, j | 0 <= i < j < |rows[1..]|
        ensures !Named(rows[1..][j], rows[1..][i].hospitalId, rows[1..][i].name)
      {
        assert rows[1..][i] == rows[i + 1] && rows[1..][j] == rows[j + 1];
      }
    }
    if Named(rows[0], hospitalId, name) {
      forall x | x in rows[1..] ensures NotNamed(hospitalId, name)(x) {
        var j :| 0 <= j < |rows[1..]| && rows[1..][j] == x;
        assert rows[j + 1] == x;
      }
      FilterAll(rows[1..], NotNamed(hospitalId, name));
    } else {
      var k :| 0 <= k < |rows| && k != -1 && Named(rows[k], hospitalId, name);
      assert rows[1..][k - 1] == rows[k];
      WithoutPresent(rows[1..], hospitalId, name);
    }
  }

  /** `create` then `remove` of a new key gives back the table. */
  lemma AddThenRemove(rows: seq<Department>, d: Department)
    requires !Taken(rows, d.hospitalId, d.name, -1)
    ensures Without(rows + [d], d.hospitalId, d.name) == rows
  {
    FilterSnoc(rows, d, NotNamed(d.hospitalId, d.name));
    forall x | x in rows ensures NotNamed(d.hospitalId, d.name)(x) {
      var k :| 0 <= k < |rows| && rows[k] == x;
    }
    FilterAll(rows, NotNamed(d.hospitalId, d.name));
  }

  lemma WithoutKeepsTable(rows: seq<Department>, nextId: int, hospitalId: int, name: string)
    requires IdsBelow(rows, nextId) && NamesUnique(rows)
    ensures IdsBelow(Without(rows, hospitalId, name), nextId) && NamesUnique(Without(rows, hospitalId, name))
  {
    var r := Without(rows, hospitalId, name);
    FilterIncreasing(rows, NotNamed(hospitalId, name), DeptId);
    forall k | 0 <= k < |r| ensures r[k].id < nextId {
      assert r[k] in rows;
    }
    forall i, j | 0 <= i < j < |r| ensures !Named(r[j], r[i].hospitalId, r[i].name) {
      assert r[i] in rows && r[j] in rows;
      var p :| 0 <= p < |rows| && rows[p] == r[i];
      var q :| 0 <= q < |rows| && rows[q] == r[j];
      assert r[i].id < r[j].id;
      UniquePair(rows, p, q);
    }
  }

  /** Two different rows of a table with unique keys have different keys,
      whichever comes first. */
  lemma UniquePair(rows: seq<Department>, p: nat, q: nat)
    requires NamesUnique(rows) && p < |rows| && q < |rows| && p != q
    ensures !Named(rows[q], rows[p].hospitalId, rows[p].name)
  {
    if q < p {
      assert !Named(rows[p], rows[q].hospitalId, rows[q].name);
    }
  }

  /** The fields a call of `update_department` passes; None leaves a field alone. */
  datatype Changes = Changes(
    hospitalId: Option<int>, name: Option<string>, description: Option<Option<string>>,
    headDoctorId: Option<Option<int>>)

  const NoChanges: Changes := Changes(None, None, None, None)

  /** `filter(id=...).update(**kwargs)` on one row. */
  function Apply(d: Department, c: Changes): (r: Department)
    ensures r.id == d.id && r.createdAt == d.createdAt
    ensures r.hospitalId == (if c.hospitalId.Some? then c.hospitalId.value else d.hospitalId)
    ensures r.name == (if c.name.Some? then c.name.value else d.name)
    ensures r.description == (if c.description.Some? then c.description.value else d.description)
    ensures r.headDoctorId == (if c.headDoctorId.Some? then c.headDoctorId.value else d.headDoctorId)
  {
    d.(hospitalId := if c.hospitalId.Some? then c.hospitalId.value else d.hospitalId,
       name := if c.name.Some? then c.name.value else d.name,
       description := if c.description.Some? then c.description.value else d.description,
       headDoctorId := if c.headDoctorId.Some? then c.headDoctorId.value else d.headDoctorId)
  }

  /** No keyword arguments change nothing, and applying the same ones twice
      is applying them once. */
  lemma ApplyLaws(d: Department, c: Changes)
    ensures Apply(d, NoChanges) == d
    ensures Apply(Apply(d, c), c) == Apply(d, c)
  {
  }

  lemma ReplaceKeepsTable(rows: seq<Department>, nextId: int, i: nat, d: Department)
    requires IdsBelow(rows, nextId) && NamesUnique(rows) && i < |rows| && d.id == rows[i].id
    requires !Taken(rows, d.hospitalId, d.name, i)
    ensures IdsBelow(rows[i := d], nextId) && NamesUnique(rows[i := d])
  {
    var r := rows[i := d];
    forall p, q | 0 <= p < q < |r| ensures DeptId(r[p]) < DeptId(r[q]) && !Named(r[q], r[p].hospitalId, r[p].name) {
      assert DeptId(rows[p]) < DeptId(rows[q]);
      if p != i && q != i {
        assert r[p] == rows[p] && r[q] == rows[q];
      }
    }
  }

  lemma AppendKeepsTable(rows: seq<Department>, nextId: int, d: Department)
    requires IdsBelow(rows, nextId) && NamesUnique(rows) && d.id == nextId
    requires !Taken(rows, d.hospitalId, d.name, -1)
    ensures IdsBelow(rows + [d], nextId + 1) && NamesUnique(rows + [d])
  {
    var r := rows + [d];
    forall p, q | 0 <= p < q < |r| ensures DeptId(r[p]) < DeptId(r[q]) && !Named(r[q], r[p].hospitalId, r[p].name) {
      assert r[p] == rows[p];
      if q < |rows| {
        assert r[q] == rows[q];
      }
    }
  }

  class DepartmentTable {
    var departments: seq<Department>
    var nextId: int

    ghost predicate Valid()
      reads this
    {
      IdsBelow(departments, nextId) && NamesUnique(departments)
    }

    constructor ()
      ensures Valid() && departments == []
    {
      departments := [];
      nextId := 1;
    }

    /** `create_department`: a key already present raises IntegrityError. */
    method CreateDepartment(hospitalId: int, name: string, description: string, headDoctorId: Option<int>, now: int)
      returns (r: Result<Department>)
      requires Valid()
      modifies this
      ensures Valid()
      ensures Taken(old(departments), hospitalId, name, -1) ==>
        r == Failure("IntegrityError") && departments == old(departments) && nextId == old(nextId)
      ensures !Taken(old(departments), hospitalId, name, -1) ==>
        r == Success(Department(old(nextId), hospitalId, name, Some(description), headDoctorId, now))
        && departments == old(departments) + [r.value] && nextId == old(nextId) + 1
    {
      if Taken(departments, hospitalId, name, -1) {
        return Failure("IntegrityError");
      }
      var d := Department(nextId, hospitalId, name, Some(description), headDoctorId, now);
      AppendKeepsTable(departments, nextId, d);
      departments := departments + [d];
      nextId := nextId + 1;
      return Success(d);
    }

    /** `remove_department`: deletes every row with that key and answers how many. */
    method RemoveDepartment(hospitalId: int, name: string) returns (count: nat)
      requires Valid()
      modifies this`departments
      ensures Valid()
      ensures departments == Without(old(departments), hospitalId, name)
      ensures count == |old(departments)| - |departments|
    {
      var before := departments;
      WithoutKeepsTable(departments, nextId, hospitalId, name);
      departments := Without(departments, hospitalId, name);
      assert |departments| <= |before| by {
        FilterPartition(before, NotNamed(hospitalId, name), (d: Department) => Named(d, hospitalId, name));
      }
      count := |before| - |departments|;
    }

    /** `update_department`: the given fields on the row with that id; the
        final `get` raises DoesNotExist for an unknown id. */
    method UpdateDepartment(id: int, c: Changes) returns (r: Result<Department>)
      requires Valid()
      modifies this`departments
      ensures Valid()
      ensures var i := FindId(old(departments), id);
        if i.None? then r == Failure("DoesNotExist") && departments == old(departments)
        else
          var d := Apply(old(departments)[i.value], c);
          if Taken(old(departments), d.hospitalId, d.name, i.value) then
            r == Failure("IntegrityError") && departments == old(departments)
          else
            r == Success(d) && departments == old(departments)[i.value := d]
    {
      var i := FindId(departments, id);
      if i.None? {
        return Failure("DoesNotExist");
      }
      var d := Apply(departments[i.value], c);
      if Taken(departments, d.hospitalId, d.name, i.value) {
        return Failure("IntegrityError");
      }
      ReplaceKeepsTable(departments, nextId, i.value, d);
      departments := departments[i.value := d];
      return Success(d);
    }

    /** `add_department`: a present key raises before anything is written. */
    method AddDepartment(hospitalId: int, name: string, description: string, headDoctorId: Option<int>, now: int)
      returns (r: Result<Department>)
      requires Valid()
      modifies this
      ensures Valid()
      ensures DepartmentByName(old(departments), hospitalId, name).Some? ==>
        r == Failure("Department already exists.") && departments == old(departments)
      ensures DepartmentByName(old(departments), hospitalId, name).None? ==>
        r == Success(Department(old(nextId), hospitalId, name, Some(description), headDoctorId, now))
        && departments == old(departments) + [r.value]
    {
      if DepartmentByName(departments, hospitalId, name).Some? {
        return Failure("Department already exists.");
      }
      r := CreateDepartment(hospitalId, name, description, headDoctorId, now);
    }

    /** `delete_department`: an absent key raises; a present one is the only
        row removed. */
    method DeleteDepartment(hospitalId: int, name: string) returns (r: Result<nat>)
      requires Valid()
      modifies this`departments
      ensures Valid()
      ensures DepartmentByName(old(departments), hospitalId, name).None? ==>
        r == Failure("Department not found.") && departments == old(departments)
      ensures DepartmentByName(old(departments), hospitalId, name).Some? ==>
        r == Success(1) && departments == Without(old(departments), hospitalId, name)
    {
      if DepartmentByName(departments, hospitalId, name).None? {
        return Failure("Department not found.");
      }
      WithoutPresent(departments, hospitalId, name);
      var count := RemoveDepartment(hospitalId, name);
      return Success(count);
    }

    /** `edit_department` */
    method EditDepartment(id: int, c: Changes) returns (r: Result<Department>)
      requires Valid()
      modifies this`departments
      ensures Valid()
      ensures var i := FindId(old(departments), id);
        if i.None? then r == Failure("DoesNotExist") && departments == old(departments)
        else
          var d := Apply(old(departments)[i.value], c);
          if Taken(old(departments), d.hospitalId, d.name, i.value) then
            r == Failure("IntegrityError") && departments == old(departments)
          else
            r == Success(d) && departments == old(departments)[i.value := d]
    {
      r := UpdateDepartment(id, c);
    }
  }
}
