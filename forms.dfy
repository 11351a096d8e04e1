/** `EmployeeForm`: the employee create/edit form's set-up (which fields are
    required, which employees may be chosen as team members) and its
    employee-id uniqueness check. */
module Forms {
  import opened Common
  import opened Sorting
  import opened Models

  const TextDuplicateId: string := "An employee with this ID already exists."

  /** The employee the form is bound to: a new, unsaved one has no primary
      key. A model instance is always truthy in Python, so the form always
      has one. */
  datatype Instance = Instance(pk: Option<nat>, photo: string)

  /** The employee ids are held once each across the table. */
  ghost predicate UniqueEmployeeIds(es: seq<Employee>) {
    forall i, j :: 0 <= i < j < |es| ==> es[i].employeeId != es[j].employeeId
  }

  /** `Employee.objects.filter(employee_id=id).exclude(pk=pk).exists()`;
      excluding `pk=None` excludes no row. */
  function HeldByOther(es: seq<Employee>, id: string, pk: Option<nat>): (b: bool)
    ensures b <==> exists i :: 0 <= i < |es| && es[i].employeeId == id && (pk.None? || es[i].pk != pk.value)
    decreases |es|
  {
    if es == [] then false
    else
      (es[0].employeeId == id && (pk.None? || es[0].pk != pk.value))
      || HeldByOther(es[1..], id, pk)
  }

  datatype Cleaned = Clean(employeeId: string) | Invalid(message: string)

  /** `clean_employee_id()`: the id is refused when another employee holds
      it, and otherwise returned as entered. */
  function CleanEmployeeId(es: seq<Employee>, instance: Instance, id: string): (r: Cleaned)
    ensures r.Clean? ==> r.employeeId == id
    ensures r.Invalid? ==> r.message == TextDuplicateId
    ensures r.Invalid? <==>
      exists i :: 0 <= i < |es| && es[i].employeeId == id && (instance.pk.None? || es[i].pk != instance.pk.value)
  {
    if HeldByOther(es, id, instance.pk) then Invalid(TextDuplicateId) else Clean(id)
  }

  /** The table after the edited employee `pk` is saved with id `id`. */
  function WithId(es: seq<Employee>, pk: nat, id: string): (r: seq<Employee>)
    ensures |r| == |es|
    ensures forall i :: 0 <= i < |es| ==> r[i] == (if es[i].pk == pk then es[i].(employeeId := id) else es[i])
  {
    seq(|es|, i requires 0 <= i < |es| => if es[i].pk == pk then es[i].(employeeId := id) else es[i])
  }

  /** An id the check accepts for a new employee keeps the ids unique once
      the employee is added. */
  lemma CreateKeepsIdsUnique(es: seq<Employee>, e: Employee)
    requires UniqueEmployeeIds(es)
    requires CleanEmployeeId(es, Instance(None, ""), e.employeeId).Clean?
    ensures UniqueEmployeeIds(es + [e])
  {
    var t := es + [e];
    forall i, j | 0 <= i < j < |t| ensures t[i].employeeId != t[j].employeeId {
      if j == |es| {
        assert t[i] == es[i];
      }
    }
  }

  /** An id the check accepts for an edited employee keeps the ids unique
      once the employee is saved with it. */
  lemma UpdateKeepsIdsUnique(es: seq<Employee>, pk: nat, photo: string, id: string)
    requires UniqueEmployeeIds(es) && UniquePks(es)
    requires CleanEmployeeId(es, Instance(Some(pk), photo), id).Clean?
    ensures UniqueEmployeeIds(WithId(es, pk, id))
  {
    var t := WithId(es, pk, id);
    forall i, j | 0 <= i < j < |t| ensures t[i].employeeId != t[j].employeeId {
      if es[i].pk == pk {
        assert es[j].pk != pk;
      } else if es[j].pk == pk {
        assert t[i] == es[i];
      }
    }
  }

  /** An id the check refuses would, once saved, be held twice. */
  lemma RefusedIdWouldRepeat(es: seq<Employee>, pk: nat, photo: string, id: string)
    requires UniquePks(es)
    requires exists k :: 0 <= k < |es| && es[k].pk == pk
    requires CleanEmployeeId(es, Instance(Some(pk), photo), id).Invalid?
    ensures !UniqueEmployeeIds(WithId(es, pk, id))
  {
    var t := WithId(es, pk, id);
    var i :| 0 <= i < |es| && es[i].employeeId == id && es[i].pk != pk;
    var k :| 0 <= k < |es| && es[k].pk == pk;
    assert t[i].employeeId == id && t[k].employeeId == id && i != k;
    if i < k {
      assert !(t[i].employeeId != t[k].employeeId);
    } else {
      assert !(t[k].employeeId != t[i].employeeId);
    }
  }

  /** The team-member choices hold exactly the trainees and developers, in
      name order. */
  lemma TeamChoices(es: seq<Employee>)
    ensures var c := SortBy(Developers(es), NameLe);
      && (forall e :: e in c <==> e in es && DeveloperRole(e.role))
      && SortedBy(c, NameLe)
  {
    var devs := Developers(es);
    NameLeTotal();
    SortBySorted(devs, NameLe);
    forall e ensures e in SortBy(devs, NameLe) <==> e in devs {
      SortByMembers(devs, NameLe, e);
    }
  }

  /** The configured form: which fields must be filled in and the choices
      offered for `team_members`. */
  class EmployeeForm {
    var photoRequired: bool
    var teamMembersRequired: bool
    var teamChoices: seq<Employee>
    var instance: Instance

    /** `EmployeeForm(instance=...)` over the employee table `es`: the photo
        may be left out only when editing a saved employee who has one. */
    constructor (es: seq<Employee>, instance: Instance)
      ensures photoRequired <==> !(instance.pk.Some? && instance.photo != "")
      ensures !teamMembersRequired
      ensures forall e :: e in teamChoices <==> e in es && DeveloperRole(e.role)
      ensures SortedBy(teamChoices, NameLe)
      ensures this.instance == instance
    {
      this.instance := instance;
      photoRequired := true;
      teamChoices := SortBy(Developers(es), NameLe);
      teamMembersRequired := false;
      TeamChoices(es);
      new;
      if instance.pk.Some? && instance.photo != "" {
        photoRequired := false;
      }
    }
  }
}
