/** The users catalogue: the user form and its validation, the update payload that
    drops an empty password, the password-change modal and the sortable table. */
module Users {
  import opened Api
  import Text
  import TableSort

  /** The audit name sent as `userCreation` or `userUpdate`. */
  const UserAction: string := "admin"

  const NumberRequired: string := "El número de empleado es requerido"
  const PasswordRequired: string := "La contraseña es requerida"
  const PasswordTooShort: string := "La contraseña debe tener al menos 6 caracteres"
  const Updated: string := "Usuario actualizado exitosamente"
  const Created: string := "Usuario creado exitosamente"
  const UpdateFailed: string := "Error al actualizar el usuario"
  const CreateFailed: string := "Error al crear el usuario"
  const LoadFailed: string := "Error al cargar los usuarios"
  const PasswordChanged: string := "Contraseña actualizada exitosamente"
  const PasswordChangeFailed: string := "Error al cambiar la contraseña"

  /** The shortest password the screens accept. */
  const MinPasswordLength: nat := 6

  /** The form `openCreateForm` and `closeForm` restore. */
  const EmptyUserForm: User := User(0, "", Some(""), None, None, false, false)

  /** `!password?.trim()`: no password, or only white space. */
  predicate MissingPassword(password: Option<string>) {
    password.None? || Text.IsBlank(password.value)
  }

  /** `validateForm`: the employee number is always required; a new user also needs
      a password that is not blank and has a `length` of at least six (UTF-16 code
      units, white space included). An edit does not look at the password at all. */
  function ValidateUserForm(form: User, isEditing: bool): (r: Check)
    ensures Text.IsBlank(form.employeeNumber) ==> r == Fail(NumberRequired)
    ensures !Text.IsBlank(form.employeeNumber) && isEditing ==> r == Pass
    ensures !Text.IsBlank(form.employeeNumber) && !isEditing && MissingPassword(form.password) ==>
      r == Fail(PasswordRequired)
    ensures !Text.IsBlank(form.employeeNumber) && !isEditing && !MissingPassword(form.password) ==>
      r == (if Text.Utf16Length(form.password.value) < MinPasswordLength then Fail(PasswordTooShort) else Pass)
  {
    if Text.IsBlank(form.employeeNumber) then Fail(NumberRequired)
    else if !isEditing && MissingPassword(form.password) then Fail(PasswordRequired)
    else if !isEditing && form.password.Some? && form.password.value != "" && Text.Utf16Length(form.password.value) < MinPasswordLength then
      Fail(PasswordTooShort)
    else Pass
  }

  /** On an edit only the employee number matters: the password is free to change. */
  lemma EditIgnoresPassword(form: User, password: Option<string>)
    ensures ValidateUserForm(form, true) == ValidateUserForm(form.(password := password), true)
  {
  }

  /** `changePassword`'s test: a `length` of at least six, white space or not. */
  predicate AcceptsNewPassword(password: string) {
    Text.Utf16Length(password) >= MinPasswordLength
  }

  /** Three characters outside the Basic Multilingual Plane have a `length` of six:
      the modal takes them. */
  lemma AstralPasswordAccepted()
    ensures AcceptsNewPassword("\U{1F600}\U{1F600}\U{1F600}")
  {
    Text.AstralLength();
  }

  /** The body of `changePassword(userId, newPassword, userAction)`. */
  datatype PasswordRequest = PasswordRequest(userId: int, newPassword: string, userAction: string)

  /** The call `changePassword` makes for the selected user id: one with the typed
      password and the audit name when the password is long enough, none otherwise.
      The id is sent as it is, 0 included. */
  function PasswordChangeRequest(userId: int, password: string): (r: Option<PasswordRequest>)
    ensures r.Some? <==> AcceptsNewPassword(password)
    ensures r.Some? ==> r.value.userId == userId && r.value.newPassword == password && r.value.userAction == UserAction
  {
    if AcceptsNewPassword(password) then Some(PasswordRequest(userId, password, UserAction)) else None
  }

  /** Six spaces or more: the password-change modal takes them, the create form
      refuses them as missing. */
  lemma BlankPasswordOnlyInModal(form: User)
    requires !Text.IsBlank(form.employeeNumber)
    requires form.password.Some? && |form.password.value| >= MinPasswordLength
    requires forall i :: 0 <= i < |form.password.value| ==> form.password.value[i] == ' '
    ensures AcceptsNewPassword(form.password.value)
    ensures ValidateUserForm(form, false) == Fail(PasswordRequired)
  {
    Text.BlankIffAllSpace(form.password.value);
  }

  /** Whenever a new user is accepted, its password would pass the modal too. */
  lemma CreatedPasswordAcceptedByModal(form: User)
    requires ValidateUserForm(form, false) == Pass
    ensures form.password.Some? && AcceptsNewPassword(form.password.value)
  {
  }

  /** `openEditForm`: a copy of the user with the password blanked. */
  function EditFormOf(user: User): (r: User)
    ensures r.password == Some("")
    ensures r.(password := user.password) == user
  {
    user.(password := Some(""))
  }

  /** The write call of `saveUser`. */
  datatype UserRequest =
    | Refused(message: string)
    | UpdateUser(id: int, data: User, userUpdate: string)
    | CreateUser(data: User, userCreation: string)

  /** The update payload: the form without its password when that is empty. */
  function UpdatePayload(form: User): (r: User)
    ensures r.password.None? <==> form.password.None? || form.password == Some("")
    ensures r.password.Some? ==> r.password == form.password
    ensures r.(password := form.password) == form
  {
    if form.password.None? || form.password == Some("") then form.(password := None) else form
  }

  /** Editing a user without typing a password never sends one. */
  lemma EditWithoutPasswordSendsNone(user: User)
    ensures UpdatePayload(EditFormOf(user)).password == None
    ensures UpdatePayload(EditFormOf(user)).(password := user.password) == user
  {
  }

  /** `a[column]` of a user, as the comparator sees it (a flag as 0 or 1). */
  function UserCell(u: User, column: string): TableSort.SortKey {
    if column == "id" then TableSort.Num(u.id as real)
    else if column == "employeeNumber" then TableSort.Str(u.employeeNumber)
    else if column == "attempts" then TableSort.Num(u.attempts.GetOr(0) as real)
    else if column == "isBlock" then TableSort.Num(if u.isBlock == Some(true) then 1.0 else 0.0)
    else if column == "changePass" then TableSort.Num(if u.changePass then 1.0 else 0.0)
    else if column == "is_admin" then TableSort.Num(if u.isAdmin then 1.0 else 0.0)
    else TableSort.Num(0.0)
  }

  function UserKey(column: string): User -> TableSort.SortKey {
    u => UserCell(u, column)
  }

  class UsersComponent {
    var users: seq<User>
    var loading: bool
    var showForm: bool
    var showPasswordModal: bool
    var isEditing: bool
    var successMessage: string
    var errorMessage: string
    var sortColumn: string
    var sortDirection: TableSort.Direction
    var selectedUserId: int
    var newPassword: string
    var userForm: User

    constructor()
      ensures users == [] && !loading && !showForm && !showPasswordModal && !isEditing
      ensures successMessage == "" && errorMessage == ""
      ensures sortColumn == "" && sortDirection == TableSort.Asc
      ensures selectedUserId == 0 && newPassword == "" && userForm == EmptyUserForm
    {
      users := [];
      loading, showForm, showPasswordModal, isEditing := false, false, false, false;
      successMessage, errorMessage := "", "";
      sortColumn, sortDirection := "", TableSort.Asc;
      selectedUserId, newPassword := 0, "";
      userForm := EmptyUserForm;
    }

    method ShowSuccess(message: string)
      modifies this`successMessage, this`errorMessage
      ensures successMessage == message && errorMessage == ""
    {
      successMessage := message;
      errorMessage := "";
    }

    method ShowError(message: string)
      modifies this`successMessage, this`errorMessage
      ensures errorMessage == message && successMessage == ""
    {
      errorMessage := message;
      successMessage := "";
    }

    method ClearMessages()
      modifies this`successMessage, this`errorMessage
      ensures successMessage == "" && errorMessage == ""
    {
      successMessage, errorMessage := "", "";
    }

    /** `loadUsers`. */
    method LoadUsers(response: Response<seq<User>>)
      modifies this`users, this`loading, this`successMessage, this`errorMessage
      ensures !loading
      ensures users == (if response.Reply? && response.success then response.data else old(users))
      ensures response.HttpError? ==> errorMessage == LoadFailed && successMessage == ""
      ensures response.Reply? ==> errorMessage == old(errorMessage) && successMessage == old(successMessage)
    {
      loading := true;
      match response {
        case Reply(ok, data) =>
          if ok {
            users := data;
          }
        case HttpError =>
          ShowError(LoadFailed);
      }
      loading := false;
    }

    method OpenCreateForm()
      modifies this`isEditing, this`userForm, this`showForm, this`successMessage, this`errorMessage
      ensures !isEditing && userForm == EmptyUserForm && showForm
      ensures successMessage == "" && errorMessage == ""
    {
      isEditing := false;
      userForm := EmptyUserForm;
      showForm := true;
      ClearMessages();
    }

    method OpenEditForm(user: User)
      modifies this`isEditing, this`userForm, this`showForm, this`successMessage, this`errorMessage
      ensures isEditing && userForm == EditFormOf(user) && showForm
      ensures successMessage == "" && errorMessage == ""
    {
      isEditing := true;
      userForm := user.(password := Some(""));
      showForm := true;
      ClearMessages();
    }

    method CloseForm()
      modifies this`showForm, this`userForm
      ensures !showForm && userForm == EmptyUserForm
    {
      showForm := false;
      userForm := EmptyUserForm;
    }

    /** The write call `saveUser` issues for the current form. */
    function PendingRequest(): (r: UserRequest)
      reads this
      ensures ValidateUserForm(userForm, isEditing).Fail? <==> r.Refused?
      ensures r.Refused? ==> ValidateUserForm(userForm, isEditing) == Fail(r.message)
      ensures r.UpdateUser? <==> ValidateUserForm(userForm, isEditing) == Pass && isEditing && userForm.id != 0
      ensures r.UpdateUser? ==> r == UpdateUser(userForm.id, UpdatePayload(userForm), UserAction)
      ensures r.CreateUser? ==> r == CreateUser(userForm, UserAction)
    {
      if ValidateUserForm(userForm, isEditing).Fail? then Refused(ValidateUserForm(userForm, isEditing).message)
      else if isEditing && userForm.id != 0 then UpdateUser(userForm.id, UpdatePayload(userForm), UserAction)
      else CreateUser(userForm, UserAction)
    }

    /** How a write call ends: on success the message, a closed form and a reload;
        on an error the server's message or `fallback`; the loading indicator
        stops either way. */
    twostate predicate WriteSettled(reply: CallOutcome, done: string, fallback: string, reloads: bool)
      reads this
    {
      && !loading
      && (reloads <==> reply == Answered(true))
      && (reloads ==> successMessage == done && errorMessage == "" && !showForm && userForm == EmptyUserForm)
      && (!reloads ==> showForm == old(showForm) && userForm == old(userForm))
      && (reply.Failed? ==> errorMessage == FailureMessage(reply, fallback) && successMessage == "")
      && (reply == Answered(false) ==> successMessage == old(successMessage) && errorMessage == old(errorMessage))
    }

    method SettleWrite(reply: CallOutcome, done: string, fallback: string) returns (reloads: bool)
      modifies this`loading, this`successMessage, this`errorMessage, this`showForm, this`userForm
      ensures WriteSettled(reply, done, fallback, reloads)
    {
      reloads := false;
      match reply {
        case Answered(ok) =>
          if ok {
            ShowSuccess(done);
            reloads := true;
            CloseForm();
          }
        case Failed(_) =>
          ShowError(FailureMessage(reply, fallback));
      }
      loading := false;
    }

    /** `saveUser`, with `reply` the settlement of the write call. */
    method SaveUser(reply: CallOutcome) returns (request: UserRequest, reloads: bool)
      modifies this`loading, this`successMessage, this`errorMessage, this`showForm, this`userForm
      ensures request == old(PendingRequest())
      ensures Settled(request, reply, reloads)
    {
      request := PendingRequest();
      reloads := Submit(request, reply);
    }

    /** How a save ends for `request`: a refused form shows the validator's message
        and leaves everything else alone; a write call settles with the texts of its
        kind. */
    twostate predicate Settled(request: UserRequest, reply: CallOutcome, reloads: bool)
      reads this
    {
      && (request.Refused? ==>
            && !reloads
            && errorMessage == request.message && successMessage == ""
            && loading == old(loading) && showForm == old(showForm) && userForm == old(userForm))
      && (request.UpdateUser? ==> WriteSettled(reply, Updated, UpdateFailed, reloads))
      && (request.CreateUser? ==> WriteSettled(reply, Created, CreateFailed, reloads))
    }

    /** Shows the refusal, or issues the write call and settles it. */
    method Submit(request: UserRequest, reply: CallOutcome) returns (reloads: bool)
      modifies this`loading, this`successMessage, this`errorMessage, this`showForm, this`userForm
      ensures Settled(request, reply, reloads)
    {
      match request {
        case Refused(message) =>
          ShowError(message);
          reloads := false;
        case UpdateUser(_, _, _) =>
          loading := true;
          reloads := SettleWrite(reply, Updated, UpdateFailed);
        case CreateUser(_, _) =>
          loading := true;
          reloads := SettleWrite(reply, Created, CreateFailed);
      }
    }

    /** `openPasswordModal(user)`. */
    method OpenPasswordModal(user: User)
      modifies this`selectedUserId, this`newPassword, this`showPasswordModal, this`successMessage, this`errorMessage
      ensures selectedUserId == user.id && newPassword == "" && showPasswordModal
      ensures successMessage == "" && errorMessage == ""
    {
      selectedUserId := user.id;
      newPassword := "";
      showPasswordModal := true;
      ClearMessages();
    }

    /** `closePasswordModal()`. */
    method ClosePasswordModal()
      modifies this`showPasswordModal, this`selectedUserId, this`newPassword
      ensures !showPasswordModal && selectedUserId == 0 && newPassword == ""
    {
      showPasswordModal := false;
      selectedUserId := 0;
      newPassword := "";
    }

    /** `changePassword()` for the selected user, with the server's `reply` as a
        parameter: `request` is the call made, if any. The failure text is the
        component's own; the server's message is not shown. */
    method ChangePassword(reply: CallOutcome) returns (request: Option<PasswordRequest>, reloads: bool)
      modifies this`loading, this`successMessage, this`errorMessage, this`showPasswordModal, this`selectedUserId, this`newPassword
      ensures request == PasswordChangeRequest(old(selectedUserId), old(newPassword))
      ensures reloads <==> request.Some? && reply == Answered(true)
      ensures request.None? ==>
                && errorMessage == PasswordTooShort && successMessage == ""
                && loading == old(loading) && showPasswordModal == old(showPasswordModal)
                && selectedUserId == old(selectedUserId) && newPassword == old(newPassword)
      ensures request.Some? ==> !loading
      ensures reloads ==>
                && successMessage == PasswordChanged && errorMessage == ""
                && !showPasswordModal && selectedUserId == 0 && newPassword == ""
      ensures request.Some? && reply.Failed? ==> errorMessage == PasswordChangeFailed && successMessage == ""
      ensures request.Some? && reply == Answered(false) ==>
                errorMessage == old(errorMessage) && successMessage == old(successMessage)
      ensures request.Some? && !reloads ==>
                && showPasswordModal == old(showPasswordModal)
                && selectedUserId == old(selectedUserId) && newPassword == old(newPassword)
    {
      request := PasswordChangeRequest(selectedUserId, newPassword);
      reloads := false;
      if request.None? {
        ShowError(PasswordTooShort);
      } else {
        loading := true;
        match reply {
          case Answered(ok) =>
            if ok {
              ShowSuccess(PasswordChanged);
              reloads := true;
              ClosePasswordModal();
            }
          case Failed(_) =>
            ShowError(PasswordChangeFailed);
        }
        loading := false;
      }
    }

    /** `sortBy(column)`: the toggle, then the stable sort of the table by that
        column in the new direction. */
    method SortBy(column: string)
      modifies this`sortColumn, this`sortDirection, this`users
      ensures (sortColumn, sortDirection) == TableSort.NextSort(old(sortColumn), old(sortDirection), column)
      ensures users == TableSort.SortRows(old(users), UserKey(column), sortDirection)
      ensures multiset(users) == multiset(old(users))
      ensures TableSort.Ordered(users, UserKey(column), sortDirection)
      ensures forall v :: TableSort.WithCell(users, UserKey(column), v) == TableSort.WithCell(old(users), UserKey(column), v)
    {
      var next := TableSort.NextSort(sortColumn, sortDirection, column);
      sortColumn, sortDirection := next.0, next.1;
      users := TableSort.SortRows(users, UserKey(column), sortDirection);
      TableSort.SortRowsOrdered(old(users), UserKey(column), sortDirection);
      forall v
        ensures TableSort.WithCell(users, UserKey(column), v) == TableSort.WithCell(old(users), UserKey(column), v)
      {
        TableSort.SortRowsStable(old(users), UserKey(column), sortDirection, v);
      }
    }

    /** `getSortIcon(column)`. */
    function SortIcon(column: string): (r: string)
      reads this
      ensures r == "" <==> sortColumn != column
      ensures r == TableSort.Ascending <==> sortColumn == column && sortDirection.Asc?
      ensures r == TableSort.Descending <==> sortColumn == column && sortDirection.Desc?
    {
      TableSort.SortIcon(sortColumn, sortDirection, column)
    }
  }
}
