/** The in-memory face-encoding cache of `FaceRecognitionSystem`: three
    parallel lists of encodings, names and employee ids, rebuilt from the
    employee table and pruned by employee id. Image download, face
    detection and matching are not part of this model. */
module FaceRecognizer {
  import opened Common
  import opened Sorting
  import opened Models

  /** `Employee.objects.all()`: the employee table in the model's
      `ordering = ['name']`. */
  function ByName(es: seq<Employee>): (r: seq<Employee>)
    ensures |r| == |es|
  {
    SortBy(es, NameLe)
  }

  /** The employees of the query `es` whose `face_encoding` is a truthy
      `bytes` value, in the query's order. */
  function Loadable(es: seq<Employee>): (r: seq<Employee>)
    ensures |r| <= |es|
    decreases |es|
  {
    if es == [] then []
    else
      var n := |es| - 1;
      Loadable(es[..n]) + (if es[n].faceEncoding.Pickled? then [es[n]] else [])
  }

  /** The loadable employees are those of the table with a pickled
      encoding. */
  lemma {:induction false} LoadableMembers(es: seq<Employee>, x: Employee)
    ensures x in Loadable(es) <==> x in es && x.faceEncoding.Pickled?
    decreases |es|
  {
    if es != [] {
      var n := |es| - 1;
      LoadableMembers(es[..n], x);
      assert es == es[..n] + [es[n]];
    }
  }

  lemma LoadableStep(es: seq<Employee>, i: nat)
    requires i < |es|
    ensures Loadable(es[..i + 1]) == Loadable(es[..i]) + (if es[i].faceEncoding.Pickled? then [es[i]] else [])
  {
    var t := es[..i + 1];
    assert t[..i] == es[..i] && t[i] == es[i] && |t| - 1 == i;
  }

  /** Loading a query in two parts loads the parts one after the other: the
      cache keeps the query's order. */
  lemma {:induction false} LoadableSplits(xs: seq<Employee>, ys: seq<Employee>)
    ensures Loadable(xs + ys) == Loadable(xs) + Loadable(ys)
    decreases |ys|
  {
    var zs := xs + ys;
    if ys == [] {
      assert zs == xs;
    } else {
      var n := |ys| - 1;
      LoadableSplits(xs, ys[..n]);
      var last := if ys[n].faceEncoding.Pickled? then [ys[n]] else [];
      assert zs[..|zs| - 1] == xs + ys[..n] && zs[|zs| - 1] == ys[n];
      assert Loadable(zs) == Loadable(xs + ys[..n]) + last;
      assert Loadable(ys) == Loadable(ys[..n]) + last;
    }
  }

  /** Filtering a name-ordered query keeps the name order. */
  lemma {:induction false} LoadableSorted(es: seq<Employee>)
    requires SortedBy(es, NameLe)
    ensures SortedBy(Loadable(es), NameLe)
    decreases |es|
  {
    if es != [] {
      var n := |es| - 1;
      var front := Loadable(es[..n]);
      SortedPrefix(es, n, NameLe);
      LoadableSorted(es[..n]);
      if es[n].faceEncoding.Pickled? && front != [] {
        var last := front[|front| - 1];
        LoadableMembers(es[..n], last);
        var k :| 0 <= k < n && es[..n][k] == last;
        NameLeChain(es, k, n);
        SortedAppend(front, es[n], NameLe);
      }
    }
  }

  /** Some employee's bytes fail to unpickle: the `except` path. */
  predicate LoadFails(es: seq<Employee>) {
    exists i :: 0 <= i < |es| && es[i].faceEncoding.Unpicklable?
  }

  /** Whether loading fails does not depend on the order it walks the
      employees in. */
  lemma LoadFailsByName(es: seq<Employee>)
    ensures LoadFails(ByName(es)) <==> LoadFails(es)
  {
    var q := ByName(es);
    if LoadFails(es) {
      var i :| 0 <= i < |es| && es[i].faceEncoding.Unpicklable?;
      SortByMembers(es, NameLe, es[i]);
      assert es[i] in q;
    }
    if LoadFails(q) {
      var i :| 0 <= i < |q| && q[i].faceEncoding.Unpicklable?;
      SortByMembers(es, NameLe, q[i]);
      assert q[i] in es;
    }
  }

  /** One more employee: it fails the load or adds its entry, if any. */
  lemma LoadStep(q: seq<Employee>, i: nat)
    requires i < |q| && !LoadFails(q[..i])
    ensures LoadFails(q[..i + 1]) <==> q[i].faceEncoding.Unpicklable?
    ensures Loadable(q[..i + 1]) == Loadable(q[..i]) + (if q[i].faceEncoding.Pickled? then [q[i]] else [])
  {
    LoadableStep(q, i);
    assert q[..i + 1][..i] == q[..i] && q[..i + 1][i] == q[i];
  }

  /** An unpicklable encoding met on the walk fails the whole load. */
  lemma LoadAborts(es: seq<Employee>, i: nat)
    requires i < |ByName(es)| && ByName(es)[i].faceEncoding.Unpicklable?
    ensures LoadFails(es)
  {
    LoadFailsByName(es);
  }

  /** A walk over every employee without an unpicklable encoding loads the
      whole query. */
  lemma LoadCompletes(es: seq<Employee>)
    requires !LoadFails(ByName(es)[..|ByName(es)|])
    ensures !LoadFails(es)
    ensures ByName(es)[..|ByName(es)|] == ByName(es)
  {
    LoadFailsByName(es);
  }

  function EncodingOf(e: Employee): seq<int> {
    if e.faceEncoding.Pickled? then e.faceEncoding.encoding else []
  }

  function EncodingsOf(es: seq<Employee>): seq<seq<int>> {
    seq(|es|, i requires 0 <= i < |es| => EncodingOf(es[i]))
  }

  function NamesOf(es: seq<Employee>): seq<string> {
    seq(|es|, i requires 0 <= i < |es| => es[i].name)
  }

  function IdsOf(es: seq<Employee>): seq<string> {
    seq(|es|, i requires 0 <= i < |es| => es[i].employeeId)
  }

  lemma ListsAppend(l: seq<Employee>, e: Employee)
    ensures EncodingsOf(l + [e]) == EncodingsOf(l) + [EncodingOf(e)]
    ensures NamesOf(l + [e]) == NamesOf(l) + [e.name]
    ensures IdsOf(l + [e]) == IdsOf(l) + [e.employeeId]
  {
  }

  /** `xs.index(x)`: the first position of `x`. */
  function FirstIndex<T(==)>(xs: seq<T>, x: T): (k: nat)
    requires x in xs
    ensures k < |xs| && xs[k] == x
    ensures forall j :: 0 <= j < k ==> xs[j] != x
  {
    if xs[0] == x then 0 else 1 + FirstIndex(xs[1..], x)
  }

  /** `xs.pop(k)`'s effect on `xs`. */
  function RemoveAt<T>(xs: seq<T>, k: nat): seq<T>
    requires k < |xs|
  {
    xs[..k] + xs[k + 1..]
  }

  /** Removing position `k` shifts the later entries down by one and keeps
      every other entry in order. */
  lemma RemoveAtShifts<T>(xs: seq<T>, k: nat)
    requires k < |xs|
    ensures |RemoveAt(xs, k)| == |xs| - 1
    ensures forall j :: 0 <= j < k ==> RemoveAt(xs, k)[j] == xs[j]
    ensures forall j :: k <= j < |xs| - 1 ==> RemoveAt(xs, k)[j] == xs[j + 1]
  {
  }

  /** With ids held once each, the deleted id is gone and no other id is. */
  lemma RemoveFirstOfDistinct<T>(xs: seq<T>, x: T)
    requires x in xs && Distinct(xs)
    ensures x !in RemoveAt(xs, FirstIndex(xs, x))
    ensures forall y :: y != x ==> (y in RemoveAt(xs, FirstIndex(xs, x)) <==> y in xs)
  {
    var k := FirstIndex(xs, x);
    var r := RemoveAt(xs, k);
    RemoveAtShifts(xs, k);
    forall y | y != x && y in xs ensures y in r {
      var j :| 0 <= j < |xs| && xs[j] == y;
      if j < k {
        assert r[j] == y;
      } else {
        assert j != k;
        assert r[j - 1] == y;
      }
    }
  }

  /** The default `tolerance` keyword argument. */
  const DefaultTolerance: real := 0.6

  class FaceRecognitionSystem {
    var tolerance: real
    var encodings: seq<seq<int>>
    var names: seq<string>
    var employeeIds: seq<string>

    /** The three lists are index-aligned. */
    predicate Aligned()
      reads this
    {
      |encodings| == |names| && |names| == |employeeIds|
    }

    /** The cache as `_load_encodings` leaves it for table `es`: empty when
        an encoding fails to unpickle, otherwise one entry per loadable
        employee, by name. */
    predicate LoadedFrom(es: seq<Employee>)
      reads this
    {
      if LoadFails(es) then encodings == [] && names == [] && employeeIds == []
      else
        var l := Loadable(ByName(es));
        encodings == EncodingsOf(l) && names == NamesOf(l) && employeeIds == IdsOf(l)
    }

    /** `FaceRecognitionSystem(tolerance=...)`: the first construction sets
        the tolerance and loads the cache. */
    constructor (es: seq<Employee>, tolerance: Option<real>)
      ensures this.tolerance == (if tolerance.Some? then tolerance.value else DefaultTolerance)
      ensures LoadedFrom(es) && Aligned()
    {
      this.tolerance := if tolerance.Some? then tolerance.value else DefaultTolerance;
      encodings, names, employeeIds := [], [], [];
      new;
      LoadEncodings(es);
    }

    /** `_load_encodings()` over the employee table `es`. */
    method LoadEncodings(es: seq<Employee>)
      modifies this
      ensures LoadedFrom(es) && Aligned()
      ensures tolerance == old(tolerance)
    {
      var employees := ByName(es);
      encodings, names, employeeIds := [], [], [];
      for i := 0 to |employees|
        invariant !LoadFails(employees[..i])
        invariant encodings == EncodingsOf(Loadable(employees[..i]))
        invariant names == NamesOf(Loadable(employees[..i]))
        invariant employeeIds == IdsOf(Loadable(employees[..i]))
        invariant tolerance == old(tolerance)
      {
        LoadStep(employees, i);
        var e := employees[i];
        match e.faceEncoding {
          case NoEncoding =>
          case NotBytes =>
          case Unpicklable =>
            encodings, names, employeeIds := [], [], [];
            LoadAborts(es, i);
            return;
          case Pickled(encoding) =>
            ListsAppend(Loadable(employees[..i]), e);
            encodings := encodings + [encoding];
            names := names + [e.name];
            employeeIds := employeeIds + [e.employeeId];
        }
      }
      LoadCompletes(es);
    }

    /** `delete_employee_encoding(employee_id)`: removes the entry at the
        id's first position from all three lists, or changes nothing when
        the id is not cached. */
    method DeleteEmployeeEncoding(employeeId: string) returns (deleted: bool)
      requires Aligned()
      modifies this
      ensures Aligned()
      ensures deleted <==> employeeId in old(employeeIds)
      ensures !deleted ==> encodings == old(encodings) && names == old(names) && employeeIds == old(employeeIds)
      ensures deleted ==>
        var k := FirstIndex(old(employeeIds), employeeId);
        && employeeIds == RemoveAt(old(employeeIds), k)
        && encodings == RemoveAt(old(encodings), k)
        && names == RemoveAt(old(names), k)
      ensures tolerance == old(tolerance)
    {
      if employeeId in employeeIds {
        var k := FirstIndex(employeeIds, employeeId);
        employeeIds := employeeIds[..k] + employeeIds[k + 1..];
        encodings := encodings[..k] + encodings[k + 1..];
        names := names[..k] + names[k + 1..];
        return true;
      }
      return false;
    }
  }

  /** After a deletion every remaining entry still pairs the name, id and
      encoding it had: the entry at `j` is the old entry at `j`, or at
      `j + 1` past the removed position. */
  lemma DeleteKeepsEntries(encs: seq<seq<int>>, names: seq<string>, ids: seq<string>, id: string, j: nat)
    requires |encs| == |names| == |ids| && id in ids
    requires j < |ids| - 1
    ensures var k := FirstIndex(ids, id);
      var src := if j < k then j else j + 1;
      && RemoveAt(ids, k)[j] == ids[src]
      && RemoveAt(names, k)[j] == names[src]
      && RemoveAt(encs, k)[j] == encs[src]
  {
    var k := FirstIndex(ids, id);
    RemoveAtShifts(ids, k);
    RemoveAtShifts(names, k);
    RemoveAtShifts(encs, k);
  }

  /** A loaded cache pairs, at each position, the name, id and encoding of
      one loadable employee of the table; the names come in name order. */
  lemma LoadedEntries(es: seq<Employee>, j: nat)
    requires !LoadFails(es) && j < |Loadable(ByName(es))|
    ensures var l := Loadable(ByName(es));
      && l[j] in es && l[j].faceEncoding.Pickled?
      && NamesOf(l)[j] == l[j].name
      && IdsOf(l)[j] == l[j].employeeId
      && EncodingsOf(l)[j] == l[j].faceEncoding.encoding
      && (j > 0 ==> StrLe(NamesOf(l)[j - 1], NamesOf(l)[j]))
  {
    var l := Loadable(ByName(es));
    LoadableMembers(ByName(es), l[j]);
    SortByMembers(es, NameLe, l[j]);
    NameLeTotal();
    SortBySorted(es, NameLe);
    LoadableSorted(ByName(es));
  }
}
