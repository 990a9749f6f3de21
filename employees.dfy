/** The employees catalogue: the employee form and its validation, the role names
    of the table and the sortable table itself. */
module Employees {
  import opened Api
  import Text
  import TableSort

  /** The audit name sent as `userCreation` or `userUpdate`. */
  const UserAction: string := "admin"

  const NumberRequired: string := "El número de empleado es requerido"
  const NameRequired: string := "El nombre del empleado es requerido"
  const RoleRequired: string := "Debe seleccionar un rol"
  const PasswordRequired: string := "La contraseña es requerida"
  const PasswordTooShort: string := "La contraseña debe tener al menos 6 caracteres"
  const Updated: string := "Empleado actualizado exitosamente"
  const Created: string := "Empleado creado exitosamente"
  const UpdateFailed: string := "Error al actualizar el empleado"
  const CreateFailed: string := "Error al crear el empleado"
  const LoadFailed: string := "Error al cargar los empleados"
  const NoRoleName: string := "N/A"

  /** The shortest password a new employee's account accepts. */
  const MinPasswordLength: nat := 6

  /** The form `openCreateForm` and `closeForm` restore. */
  const EmptyEmployeeForm: Employee := Employee(0, "", "", 0, None, Some(""), false)

  /** `!password?.trim()`: no password, or only white space. */
  predicate MissingPassword(password: Option<string>) {
    password.None? || Text.IsBlank(password.value)
  }

  /** `validateForm`: number, name and role are always required, in that order; a
      new employee also needs a password that is not blank and has a `length` of at
      least six (UTF-16 code units, white space included). */
  function ValidateEmployeeForm(form: Employee, isEditing: bool): (r: Check)
    ensures Text.IsBlank(form.employeeNumber) ==> r == Fail(NumberRequired)
    ensures !Text.IsBlank(form.employeeNumber) && Text.IsBlank(form.nameEmployee) ==> r == Fail(NameRequired)
    ensures !Text.IsBlank(form.employeeNumber) && !Text.IsBlank(form.nameEmployee) && form.roleID == 0 ==>
      r == Fail(RoleRequired)
    ensures r == Pass <==>
      && !Text.IsBlank(form.employeeNumber) && !Text.IsBlank(form.nameEmployee) && form.roleID != 0
      && (!isEditing ==> !MissingPassword(form.password) && Text.Utf16Length(form.password.value) >= MinPasswordLength)
    ensures r != Pass && !Text.IsBlank(form.employeeNumber) && !Text.IsBlank(form.nameEmployee) && form.roleID != 0 ==>
      !isEditing && r == (if MissingPassword(form.password) then Fail(PasswordRequired) else Fail(PasswordTooShort))
  {
    if Text.IsBlank(form.employeeNumber) then Fail(NumberRequired)
    else if Text.IsBlank(form.nameEmployee) then Fail(NameRequired)
    else if form.roleID == 0 then Fail(RoleRequired)
    else if !isEditing && MissingPassword(form.password) then Fail(PasswordRequired)
    else if !isEditing && form.password.Some? && form.password.value != ""
      && Text.Utf16Length(form.password.value) < MinPasswordLength then Fail(PasswordTooShort)
    else Pass
  }

  /** The first failing field decides the message: with every field empty on a
      new employee, the employee number is reported. */
  lemma EmptyFormReportsNumber()
    ensures ValidateEmployeeForm(EmptyEmployeeForm, false) == Fail(NumberRequired)
  {
    Text.BlankIffAllSpace("");
  }

  /** An accepted new employee also satisfies the edit rules. */
  lemma CreateRulesImplyEditRules(form: Employee)
    requires ValidateEmployeeForm(form, false) == Pass
    ensures ValidateEmployeeForm(form, true) == Pass
  {
  }

  /** `openEditForm`: a copy of the employee whose admin flag is its linked
      user's, false when there is no user or the user has no flag. */
  function EditFormOf(employee: Employee): (r: Employee)
    ensures r.isAdmin <==> employee.user.Some? && employee.user.value.isAdmin == Some(true)
    ensures r.(isAdmin := employee.isAdmin) == employee
  {
    var linkedAdmin := match employee.user
      case Some(u) => u.isAdmin.GetOr(false)
      case None => false;
    employee.(isAdmin := linkedAdmin)
  }

  /** Editing a stored employee that has no password sends none: the copy keeps
      the field absent. */
  lemma EditWithoutPasswordSendsNone(employee: Employee)
    requires employee.password.None?
    ensures EditFormOf(employee).password.None?
    ensures ValidateEmployeeForm(EditFormOf(employee), true) == ValidateEmployeeForm(employee, true)
  {
  }

  /** The role records the employees screen loads: the identifier may come as
      `id` or as `idRole`. */
  datatype RoleRef = RoleRef(id: Option<int>, idRole: Option<int>, nameRole: string)

  predicate Identifies(r: RoleRef, roleID: int) {
    r.id == Some(roleID) || r.idRole == Some(roleID)
  }

  /** `roles.find(...)`: the first role that carries `roleID` under either name. */
  function FindRole(roles: seq<RoleRef>, roleID: int): (r: Option<RoleRef>)
    ensures r.None? <==> forall i :: 0 <= i < |roles| ==> !Identifies(roles[i], roleID)
    ensures r.Some? ==> r.value in roles && Identifies(r.value, roleID)
  {
    if roles == [] then None
    else if Identifies(roles[0], roleID) then Some(roles[0])
    else FindRole(roles[1..], roleID)
  }

  /** The role found is the first one that matches. */
  lemma {:induction false} FindRoleIsFirst(roles: seq<RoleRef>, roleID: int, i: int)
    requires 0 <= i < |roles| && Identifies(roles[i], roleID)
    requires forall j :: 0 <= j < i ==> !Identifies(roles[j], roleID)
    ensures FindRole(roles, roleID) == Some(roles[i])
  {
    if i > 0 {
      assert !Identifies(roles[0], roleID);
      FindRoleIsFirst(roles[1..], roleID, i - 1);
    }
  }

  /** `roles[i]` is the first role that carries `roleID`. */
  predicate FirstMatch(roles: seq<RoleRef>, roleID: int, i: int) {
    0 <= i < |roles| && Identifies(roles[i], roleID) && forall j :: 0 <= j < i ==> !Identifies(roles[j], roleID)
  }

  /** `getRoleName(roleID)`: the name of the first role that carries the
      identifier, or `N/A`. */
  function GetRoleName(roles: seq<RoleRef>, roleID: int): (r: string)
    ensures (forall i :: 0 <= i < |roles| ==> !Identifies(roles[i], roleID)) ==> r == NoRoleName
    ensures forall i :: FirstMatch(roles, roleID, i) ==> r == roles[i].nameRole
  {
    var found := FindRole(roles, roleID);
    assert forall i :: FirstMatch(roles, roleID, i) ==> found == Some(roles[i]) by {
      forall i | FirstMatch(roles, roleID, i)
        ensures found == Some(roles[i])
      {
        FindRoleIsFirst(roles, roleID, i);
      }
    }
    match found
    case Some(r) => r.nameRole
    case None => NoRoleName
  }

  /** A role reached through `idRole` is named just like one reached through `id`. */
  lemma RoleNameEitherIdentifier(name: string, roleID: int, other: Option<int>)
    ensures GetRoleName([RoleRef(Some(roleID), other, name)], roleID) == name
    ensures GetRoleName([RoleRef(other, Some(roleID), name)], roleID) == name
    ensures GetRoleName([RoleRef(None, None, name)], roleID) == NoRoleName
  {
  }

  /** `a[column]` of an employee, as the comparator sees it (a flag as 0 or 1). */
  function EmployeeCell(e: Employee, column: string): TableSort.SortKey {
    if column == "id" then TableSort.Num(e.id as real)
    else if column == "employeeNumber" then TableSort.Str(e.employeeNumber)
    else if column == "nameEmployee" then TableSort.Str(e.nameEmployee)
    else if column == "roleID" then TableSort.Num(e.roleID as real)
    else if column == "is_admin" then TableSort.Num(if e.isAdmin then 1.0 else 0.0)
    else TableSort.Num(0.0)
  }

  function EmployeeKey(column: string): Employee -> TableSort.SortKey {
    e => EmployeeCell(e, column)
  }

  /** The write call of `saveEmployee`. */
  datatype EmployeeRequest =
    | Refused(message: string)
    | UpdateEmployee(id: int, data: Employee, userUpdate: string)
    | CreateEmployee(data: Employee, userCreation: string)

  class EmployeesComponent {
    var employees: seq<Employee>
    var roles: seq<RoleRef>
    var loading: bool
    var showForm: bool
    var isEditing: bool
    var successMessage: string
    var errorMessage: string
    var sortColumn: string
    var sortDirection: TableSort.Direction
    var employeeForm: Employee

    constructor()
      ensures employees == [] && roles == [] && !loading && !showForm && !isEditing
      ensures successMessage == "" && errorMessage == ""
      ensures sortColumn == "" && sortDirection == TableSort.Asc
      ensures employeeForm == EmptyEmployeeForm
    {
      employees, roles := [], [];
      loading, showForm, isEditing := false, false, false;
      successMessage, errorMessage := "", "";
      sortColumn, sortDirection := "", TableSort.Asc;
      employeeForm := EmptyEmployeeForm;
    }

    method ShowSuccess(message: string)
      modifies this`successMessage, this`errorMessage
      ensures successMessage == message && errorMessage == ""
    {
      successMessage := message;
      errorMessage := "";
    }

    method ShowError(message: string)
      modifies this`successMessage, this`errorMessage
      ensures errorMessage == message && successMessage == ""
    {
      errorMessage := message;
      successMessage := "";
    }

    method ClearMessages()
      modifies this`successMessage, this`errorMessage
      ensures successMessage == "" && errorMessage == ""
    {
      successMessage, errorMessage := "", "";
    }

    /** `loadEmployees`. */
    method LoadEmployees(response: Response<seq<Employee>>)
      modifies this`employees, this`loading, this`successMessage, this`errorMessage
      ensures !loading
      ensures employees == (if response.Reply? && response.success then response.data else old(employees))
      ensures response.HttpError? ==> errorMessage == LoadFailed && successMessage == ""
      ensures response.Reply? ==> errorMessage == old(errorMessage) && successMessage == old(successMessage)
    {
      loading := true;
      match response {
        case Reply(ok, data) =>
          if ok {
            employees := data;
          }
        case HttpError =>
          ShowError(LoadFailed);
      }
      loading := false;
    }

    /** `loadRoles`: a failure is only logged. */
    method LoadRoles(response: Response<seq<RoleRef>>)
      modifies this`roles
      ensures roles == (if response.Reply? && response.success then response.data else old(roles))
    {
      if response.Reply? && response.success {
        roles := response.data;
      }
    }

    method OpenCreateForm()
      modifies this`isEditing, this`employeeForm, this`showForm, this`successMessage, this`errorMessage
      ensures !isEditing && employeeForm == EmptyEmployeeForm && showForm
      ensures successMessage == "" && errorMessage == ""
    {
      isEditing := false;
      employeeForm := EmptyEmployeeForm;
      showForm := true;
      ClearMessages();
    }

    method OpenEditForm(employee: Employee)
      modifies this`isEditing, this`employeeForm, this`showForm, this`successMessage, this`errorMessage
      ensures isEditing && employeeForm == EditFormOf(employee) && showForm
      ensures successMessage == "" && errorMessage == ""
    {
      isEditing := true;
      employeeForm := EditFormOf(employee);
      showForm := true;
      ClearMessages();
    }

    method CloseForm()
      modifies this`showForm, this`employeeForm
      ensures !showForm && employeeForm == EmptyEmployeeForm
    {
      showForm := false;
      employeeForm := EmptyEmployeeForm;
    }

    /** The write call `saveEmployee` issues for the current form. */
    function PendingRequest(): (r: EmployeeRequest)
      reads this
      ensures ValidateEmployeeForm(employeeForm, isEditing).Fail? <==> r.Refused?
      ensures r.Refused? ==> ValidateEmployeeForm(employeeForm, isEditing) == Fail(r.message)
      ensures r.UpdateEmployee? <==>
        ValidateEmployeeForm(employeeForm, isEditing) == Pass && isEditing && employeeForm.id != 0
      ensures r.UpdateEmployee? ==> r == UpdateEmployee(employeeForm.id, employeeForm, UserAction)
      ensures r.CreateEmployee? ==> r == CreateEmployee(employeeForm, UserAction)
    {
      if ValidateEmployeeForm(employeeForm, isEditing).Fail? then Refused(ValidateEmployeeForm(employeeForm, isEditing).message)
      else if isEditing && employeeForm.id != 0 then UpdateEmployee(employeeForm.id, employeeForm, UserAction)
      else CreateEmployee(employeeForm, UserAction)
    }

    /** How a write call ends: on success the message, a closed form and a reload;
        on an error the server's message or `fallback`; the loading indicator
        stops either way. */
    twostate predicate WriteSettled(reply: CallOutcome, done: string, fallback: string, reloads: bool)
      reads this
    {
      && !loading
      && (reloads <==> reply == Answered(true))
      && (reloads ==> successMessage == done && errorMessage == "" && !showForm && employeeForm == EmptyEmployeeForm)
      && (!reloads ==> showForm == old(showForm) && employeeForm == old(employeeForm))
      && (reply.Failed? ==> errorMessage == FailureMessage(reply, fallback) && successMessage == "")
      && (reply == Answered(false) ==> successMessage == old(successMessage) && errorMessage == old(errorMessage))
    }

    method SettleWrite(reply: CallOutcome, done: string, fallback: string) returns (reloads: bool)
      modifies this`loading, this`successMessage, this`errorMessage, this`showForm, this`employeeForm
      ensures WriteSettled(reply, done, fallback, reloads)
    {
      reloads := false;
      match reply {
        case Answered(ok) =>
          if ok {
            ShowSuccess(done);
            reloads := true;
            CloseForm();
          }
        case Failed(_) =>
          ShowError(FailureMessage(reply, fallback));
      }
      loading := false;
    }

    /** `saveEmployee`, with `reply` the settlement of the write call. */
    method SaveEmployee(reply: CallOutcome) returns (request: EmployeeRequest, reloads: bool)
      modifies this`loading, this`successMessage, this`errorMessage, this`showForm, this`employeeForm
      ensures request == old(PendingRequest())
      ensures Settled(request, reply, reloads)
    {
      request := PendingRequest();
      reloads := Submit(request, reply);
    }

    /** How a save ends for `request`: a refused form shows the validator's message
        and leaves everything else alone; a write call settles with the texts of its
        kind. */
    twostate predicate Settled(request: EmployeeRequest, reply: CallOutcome, reloads: bool)
      reads this
    {
      && (request.Refused? ==>
            && !reloads
            && errorMessage == request.message && successMessage == ""
            && loading == old(loading) && showForm == old(showForm) && employeeForm == old(employeeForm))
      && (request.UpdateEmployee? ==> WriteSettled(reply, Updated, UpdateFailed, reloads))
      && (request.CreateEmployee? ==> WriteSettled(reply, Created, CreateFailed, reloads))
    }

    /** Shows the refusal, or issues the write call and settles it. */
    method Submit(request: EmployeeRequest, reply: CallOutcome) returns (reloads: bool)
      modifies this`loading, this`successMessage, this`errorMessage, this`showForm, this`employeeForm
      ensures Settled(request, reply, reloads)
    {
      match request {
        case Refused(message) =>
          ShowError(message);
          reloads := false;
        case UpdateEmployee(_, _, _) =>
          loading := true;
          reloads := SettleWrite(reply, Updated, UpdateFailed);
        case CreateEmployee(_, _) =>
          loading := true;
          reloads := SettleWrite(reply, Created, CreateFailed);
      }
    }

    /** `sortBy(column)`: the toggle, then the stable sort of the table by that
        column in the new direction. */
    method SortBy(column: string)
      modifies this`sortColumn, this`sortDirection, this`employees
      ensures (sortColumn, sortDirection) == TableSort.NextSort(old(sortColumn), old(sortDirection), column)
      ensures employees == TableSort.SortRows(old(employees), EmployeeKey(column), sortDirection)
      ensures multiset(employees) == multiset(old(employees))
      ensures TableSort.Ordered(employees, EmployeeKey(column), sortDirection)
      ensures forall v :: TableSort.WithCell(employees, EmployeeKey(column), v) == TableSort.WithCell(old(employees), EmployeeKey(column), v)
    {
      var next := TableSort.NextSort(sortColumn, sortDirection, column);
      sortColumn, sortDirection := next.0, next.1;
      employees := TableSort.SortRows(employees, EmployeeKey(column), sortDirection);
      TableSort.SortRowsOrdered(old(employees), EmployeeKey(column), sortDirection);
      forall v
        ensures TableSort.WithCell(employees, EmployeeKey(column), v) == TableSort.WithCell(old(employees), EmployeeKey(column), v)
      {
        TableSort.SortRowsStable(old(employees), EmployeeKey(column), sortDirection, v);
      }
    }

    /** `getSortIcon(column)`. */
    function SortIcon(column: string): (r: string)
      reads this
      ensures r == "" <==> sortColumn != column
      ensures r == TableSort.Ascending <==> sortColumn == column && sortDirection.Asc?
      ensures r == TableSort.Descending <==> sortColumn == column && sortDirection.Desc?
    {
      TableSort.SortIcon(sortColumn, sortDirection, column)
    }

    /** `getRoleName` over the loaded roles. */
    function RoleName(roleID: int): (r: string)
      reads this
      ensures FindRole(roles, roleID).None? ==> r == NoRoleName
      ensures FindRole(roles, roleID).Some? ==> r == FindRole(roles, roleID).value.nameRole
    {
      GetRoleName(roles, roleID)
    }
  }
}
