/** The roles catalogue: the role form and its validation, the total salary of a
    role, and the sortable table. */
module Roles {
  import opened Api
  import Text
  import TableSort

  /** The audit name sent as `userCreation` and `userUpdate`. */
  const UserAction: string := "Admin"

  const NameRequired: string := "El nombre del role es requerido"
  const SalaryRequired: string := "El salario base debe ser mayor a 0 para roles que no son Admin"
  const Updated: string := "Role actualizado exitosamente"
  const Created: string := "Role creado exitosamente"
  const UpdateFailed: string := "Error al actualizar el role"
  const CreateFailed: string := "Error al crear el role"
  const LoadFailed: string := "Error al cargar los roles"

  /** The form `resetForm` restores: no name, all amounts 0, not admin. */
  const EmptyRoleForm: Role := Role(0, "", 0.0, Some(0.0), Some(0.0), Some(0.0), false)

  /** A name counts as the administrators' role when, trimmed and lower-cased, it
      reads `admin`. */
  predicate IsAdminName(name: string) {
    Text.ToLower(Text.Trim(name)) == "admin"
  }

  /** Any capitalisation of `admin`, with any white space around it, is the admin name. */
  lemma {:induction false} AdminNamePadded(pre: string, w: string, post: string)
    requires forall i :: 0 <= i < |pre| ==> Text.IsSpace(pre[i])
    requires forall i :: 0 <= i < |post| ==> Text.IsSpace(post[i])
    requires Text.ToLower(w) == "admin"
    ensures IsAdminName(pre + w + post)
  {
    assert Text.LowerChar(w[0]) == 'a' && Text.LowerChar(w[4]) == 'n';
    Text.TrimPadding(pre, w, post);
  }

  /** A longer name that merely starts with `admin` is an ordinary role. */
  lemma AdministradorIsNotAdmin()
    ensures !IsAdminName("Administrador")
  {
    assert "Administrador" == "" + "Administrador" + "";
    Text.TrimPadding("", "Administrador", "");
  }

  /** `validateForm`: a name is required; an admin role is then accepted as it is,
      any other role needs a positive base salary. The bonuses are not checked. */
  function ValidateRoleForm(form: Role): (r: Check)
    ensures Text.IsBlank(form.nameRole) ==> r == Fail(NameRequired)
    ensures !Text.IsBlank(form.nameRole) && IsAdminName(form.nameRole) ==> r == Pass
    ensures !Text.IsBlank(form.nameRole) && !IsAdminName(form.nameRole) ==>
      r == (if form.salaryBase > 0.0 then Pass else Fail(SalaryRequired))
  {
    if Text.IsBlank(form.nameRole) then Fail(NameRequired)
    else if !IsAdminName(form.nameRole) && form.salaryBase <= 0.0 then Fail(SalaryRequired)
    else Pass
  }

  /** Changing the bonuses never changes the verdict, and an admin role passes
      even with no base salary. */
  lemma ValidationIgnoresBonuses(form: Role, bonusRole: Option<real>, bonusHours: Option<real>, bonusDeliveries: Option<real>)
    ensures ValidateRoleForm(form) ==
      ValidateRoleForm(form.(bonusRole := bonusRole, bonusHours := bonusHours, bonusDeliveries := bonusDeliveries))
  {
  }

  lemma AdminWithoutSalaryAccepted(form: Role)
    requires form.nameRole == " Admin " && form.salaryBase == 0.0
    ensures ValidateRoleForm(form) == Pass
  {
    assert " Admin " == " " + "Admin" + " ";
    assert Text.ToLower("Admin") == "admin";
    AdminNamePadded(" ", "Admin", " ");
    Text.BlankIffAllSpace(form.nameRole);
    assert !Text.IsSpace(form.nameRole[1]);
  }

  /** `calculateTotalSalary`: base salary plus the three bonuses, a missing
      bonus counting as 0. */
  function TotalSalary(role: Role): real {
    role.salaryBase + role.bonusRole.GetOr(0.0) + role.bonusHours.GetOr(0.0) + role.bonusDeliveries.GetOr(0.0)
  }

  /** A role with no bonuses earns its base salary; non-negative bonuses only add;
      the total grows with every part. */
  lemma TotalSalaryBounds(role: Role)
    ensures role.bonusRole.None? && role.bonusHours.None? && role.bonusDeliveries.None? ==>
      TotalSalary(role) == role.salaryBase
    ensures role.bonusRole.GetOr(0.0) >= 0.0 && role.bonusHours.GetOr(0.0) >= 0.0 && role.bonusDeliveries.GetOr(0.0) >= 0.0 ==>
      TotalSalary(role) >= role.salaryBase
  {
  }

  lemma TotalSalaryMonotone(role: Role, extra: real)
    requires extra >= 0.0
    ensures TotalSalary(role.(salaryBase := role.salaryBase + extra)) == TotalSalary(role) + extra
    ensures TotalSalary(role.(bonusRole := Some(role.bonusRole.GetOr(0.0) + extra))) == TotalSalary(role) + extra
    ensures TotalSalary(role.(bonusHours := Some(role.bonusHours.GetOr(0.0) + extra))) == TotalSalary(role) + extra
    ensures TotalSalary(role.(bonusDeliveries := Some(role.bonusDeliveries.GetOr(0.0) + extra))) == TotalSalary(role) + extra
  {
  }

  /** `a[column]` of a role, as the comparator sees it (a flag as 0 or 1). A column
      the role does not carry is the same for every row. */
  function RoleCell(r: Role, column: string): TableSort.SortKey {
    if column == "id" then TableSort.Num(r.id as real)
    else if column == "nameRole" then TableSort.Str(r.nameRole)
    else if column == "salaryBase" then TableSort.Num(r.salaryBase)
    else if column == "bonusRole" then TableSort.Num(r.bonusRole.GetOr(0.0))
    else if column == "bonusHours" then TableSort.Num(r.bonusHours.GetOr(0.0))
    else if column == "bonusDeliveries" then TableSort.Num(r.bonusDeliveries.GetOr(0.0))
    else if column == "is_admin" then TableSort.Num(if r.isAdmin then 1.0 else 0.0)
    else TableSort.Num(0.0)
  }

  predicate KnownColumn(column: string) {
    column in ["id", "nameRole", "salaryBase", "bonusRole", "bonusHours", "bonusDeliveries", "is_admin"]
  }

  function RoleKey(column: string): Role -> TableSort.SortKey {
    r => RoleCell(r, column)
  }

  /** Sorting by a column the roles do not carry leaves the table as it was. */
  lemma UnknownColumnKeepsOrder(roles: seq<Role>, column: string, dir: TableSort.Direction)
    requires !KnownColumn(column)
    ensures TableSort.SortRows(roles, RoleKey(column), dir) == roles
  {
    TableSort.SortRowsEqualKeys(roles, RoleKey(column), dir);
  }

  /** The write call of `saveRole`: the form plus the audit fields. */
  datatype RoleRequest =
    | Refused(message: string)
    | UpdateRole(id: int, data: Role, userCreation: string, userUpdate: string)
    | CreateRole(data: Role, userCreation: string, userUpdate: string)

  class RolesComponent {
    var roles: seq<Role>
    var selectedRole: Option<Role>
    var isEditing: bool
    var showForm: bool
    var loading: bool
    var errorMessage: string
    var successMessage: string
    var sortColumn: string
    var sortDirection: TableSort.Direction
    var roleForm: Role

    constructor()
      ensures roles == [] && selectedRole == None && !isEditing && !showForm && !loading
      ensures errorMessage == "" && successMessage == ""
      ensures sortColumn == "" && sortDirection == TableSort.Asc
      ensures roleForm == EmptyRoleForm
    {
      roles, selectedRole := [], None;
      isEditing, showForm, loading := false, false, false;
      errorMessage, successMessage := "", "";
      sortColumn, sortDirection := "", TableSort.Asc;
      roleForm := EmptyRoleForm;
    }

    method ShowSuccess(message: string)
      modifies this`successMessage, this`errorMessage
      ensures successMessage == message && errorMessage == ""
    {
      successMessage := message;
      errorMessage := "";
    }

    method ShowError(message: string)
      modifies this`successMessage, this`errorMessage
      ensures errorMessage == message && successMessage == ""
    {
      errorMessage := message;
      successMessage := "";
    }

    /** `loadRoles`: the list is replaced only by a successful reply that carries data
        (an empty list is data, since `[]` is truthy). */
    method LoadRoles(response: Response<Option<seq<Role>>>)
      modifies this`roles, this`loading, this`successMessage, this`errorMessage
      ensures !loading
      ensures response.Reply? && response.success && response.data.Some? ==> roles == response.data.value
      ensures !(response.Reply? && response.success && response.data.Some?) ==> roles == old(roles)
      ensures response.HttpError? ==> errorMessage == LoadFailed && successMessage == ""
      ensures response.Reply? ==> errorMessage == old(errorMessage) && successMessage == old(successMessage)
    {
      loading := true;
      match response {
        case Reply(ok, data) =>
          if ok && data.Some? {
            roles := data.value;
          }
        case HttpError =>
          ShowError(LoadFailed);
      }
      loading := false;
    }

    /** `resetForm`. */
    method ResetForm()
      modifies this`roleForm, this`selectedRole, this`errorMessage
      ensures roleForm == EmptyRoleForm && selectedRole == None && errorMessage == ""
    {
      roleForm := EmptyRoleForm;
      selectedRole := None;
      errorMessage := "";
    }

    method OpenCreateForm()
      modifies this`roleForm, this`selectedRole, this`errorMessage, this`isEditing, this`showForm
      ensures roleForm == EmptyRoleForm && selectedRole == None && errorMessage == ""
      ensures !isEditing && showForm
    {
      ResetForm();
      isEditing := false;
      showForm := true;
    }

    method OpenEditForm(role: Role)
      modifies this`roleForm, this`selectedRole, this`isEditing, this`showForm
      ensures selectedRole == Some(role) && roleForm == role && isEditing && showForm
    {
      selectedRole := Some(role);
      roleForm := role;
      isEditing := true;
      showForm := true;
    }

    method CloseForm()
      modifies this`roleForm, this`selectedRole, this`errorMessage, this`showForm
      ensures !showForm && roleForm == EmptyRoleForm && selectedRole == None && errorMessage == ""
    {
      showForm := false;
      ResetForm();
    }

    /** The write call `saveRole` issues for the current form. */
    function PendingRequest(): (r: RoleRequest)
      reads this
      ensures ValidateRoleForm(roleForm).Fail? <==> r.Refused?
      ensures r.Refused? ==> ValidateRoleForm(roleForm) == Fail(r.message)
      ensures r.UpdateRole? <==> ValidateRoleForm(roleForm) == Pass && isEditing && selectedRole.Some? && selectedRole.value.id != 0
      ensures r.UpdateRole? ==> r == UpdateRole(selectedRole.value.id, roleForm, UserAction, UserAction)
      ensures r.CreateRole? ==> r == CreateRole(roleForm, UserAction, UserAction)
    {
      if ValidateRoleForm(roleForm).Fail? then Refused(ValidateRoleForm(roleForm).message)
      else if isEditing && selectedRole.Some? && selectedRole.value.id != 0 then
        UpdateRole(selectedRole.value.id, roleForm, UserAction, UserAction)
      else CreateRole(roleForm, UserAction, UserAction)
    }

    /** How a write call ends: on success the message, a closed form and a reload;
        on an error the screen's own `failed` text, whatever the server says; the
        loading indicator stops either way. */
    twostate predicate WriteSettled(reply: CallOutcome, done: string, failed: string, reloads: bool)
      reads this
    {
      && !loading
      && (reloads <==> reply == Answered(true))
      && (reloads ==>
            && successMessage == done && errorMessage == ""
            && !showForm && roleForm == EmptyRoleForm && selectedRole == None)
      && (!reloads ==> showForm == old(showForm) && roleForm == old(roleForm) && selectedRole == old(selectedRole))
      && (reply.Failed? ==> errorMessage == failed && successMessage == "")
      && (reply == Answered(false) ==> successMessage == old(successMessage) && errorMessage == old(errorMessage))
    }

    method SettleWrite(reply: CallOutcome, done: string, failed: string) returns (reloads: bool)
      modifies this`loading, this`successMessage, this`errorMessage, this`showForm, this`roleForm, this`selectedRole
      ensures WriteSettled(reply, done, failed, reloads)
    {
      reloads := false;
      match reply {
        case Answered(ok) =>
          if ok {
            ShowSuccess(done);
            reloads := true;
            CloseForm();
          }
        case Failed(_) =>
          ShowError(failed);
      }
      loading := false;
    }

    /** `saveRole`, with `reply` the settlement of the write call. */
    method SaveRole(reply: CallOutcome) returns (request: RoleRequest, reloads: bool)
      modifies this`loading, this`successMessage, this`errorMessage, this`showForm, this`roleForm, this`selectedRole
      ensures request == old(PendingRequest())
      ensures Settled(request, reply, reloads)
    {
      request := PendingRequest();
      reloads := Submit(request, reply);
    }

    /** How a save ends for `request`: a refused form shows the validator's message
        and leaves everything else alone; a write call settles with the texts of its
        kind. */
    twostate predicate Settled(request: RoleRequest, reply: CallOutcome, reloads: bool)
      reads this
    {
      && (request.Refused? ==>
            && !reloads
            && errorMessage == request.message && successMessage == ""
            && loading == old(loading) && showForm == old(showForm) && roleForm == old(roleForm)
            && selectedRole == old(selectedRole))
      && (request.UpdateRole? ==> WriteSettled(reply, Updated, UpdateFailed, reloads))
      && (request.CreateRole? ==> WriteSettled(reply, Created, CreateFailed, reloads))
    }

    /** Shows the refusal, or issues the write call and settles it. */
    method Submit(request: RoleRequest, reply: CallOutcome) returns (reloads: bool)
      modifies this`loading, this`successMessage, this`errorMessage, this`showForm, this`roleForm, this`selectedRole
      ensures Settled(request, reply, reloads)
    {
      match request {
        case Refused(message) =>
          ShowError(message);
          reloads := false;
        case UpdateRole(_, _, _, _) =>
          loading := true;
          reloads := SettleWrite(reply, Updated, UpdateFailed);
        case CreateRole(_, _, _) =>
          loading := true;
          reloads := SettleWrite(reply, Created, CreateFailed);
      }
    }

    /** `sortBy(column)`: the toggle, then the stable sort of the table by that
        column in the new direction. */
    method SortBy(column: string)
      modifies this`sortColumn, this`sortDirection, this`roles
      ensures (sortColumn, sortDirection) == TableSort.NextSort(old(sortColumn), old(sortDirection), column)
      ensures roles == TableSort.SortRows(old(roles), RoleKey(column), sortDirection)
      ensures multiset(roles) == multiset(old(roles))
      ensures TableSort.Ordered(roles, RoleKey(column), sortDirection)
      ensures forall v :: TableSort.WithCell(roles, RoleKey(column), v) == TableSort.WithCell(old(roles), RoleKey(column), v)
    {
      var next := TableSort.NextSort(sortColumn, sortDirection, column);
      sortColumn, sortDirection := next.0, next.1;
      roles := TableSort.SortRows(roles, RoleKey(column), sortDirection);
      TableSort.SortRowsOrdered(old(roles), RoleKey(column), sortDirection);
      forall v
        ensures TableSort.WithCell(roles, RoleKey(column), v) == TableSort.WithCell(old(roles), RoleKey(column), v)
      {
        TableSort.SortRowsStable(old(roles), RoleKey(column), sortDirection, v);
      }
    }

    /** `getSortIcon(column)`. */
    function SortIcon(column: string): (r: string)
      reads this
      ensures r == "" <==> sortColumn != column
      ensures r == TableSort.Ascending <==> sortColumn == column && sortDirection.Asc?
      ensures r == TableSort.Descending <==> sortColumn == column && sortDirection.Desc?
    {
      TableSort.SortIcon(sortColumn, sortDirection, column)
    }
  }
}
