/** The signed-in user and the role predicates (src/auth.ts). */
module Auth {
  import opened Wrappers

  datatype Role = Admin | Customer

  /** `WineUser`; `role` and `canEdit` are optional in the stored record. */
  datatype User = User(id: int, nombre: string, apellido: string, email: string,
                       role: Option<Role>, canEdit: Option<bool>)

  /** What the `wine_user` storage slot holds: nothing (or the empty string), text that
      does not parse, or a parsed user record. */
  datatype StoredUser = NoEntry | Unparsable | Json(user: User)

  /** `isAdmin(user)` */
  predicate IsAdmin(user: Option<User>)
  {
    user.Some? && user.value.role == Some(Admin)
  }

  /** `canEdit(user)`: admins always may edit; anyone else only with the flag set. */
  function CanEdit(user: Option<User>): (r: bool)
    ensures user.None? ==> !r
    ensures IsAdmin(user) ==> r
    ensures user.Some? && !IsAdmin(user) ==> (r <==> user.value.canEdit == Some(true))
  {
    if user.None? then false
    else if user.value.role == Some(Admin) then true
    else user.value.canEdit == Some(true)
  }

  /** The browser's storage slot for the signed-in user. */
  class Session {
    var slot: StoredUser

    constructor ()
      ensures slot == NoEntry
    {
      slot := NoEntry;
    }

    /** `getCurrentUser()`: `null` when nothing is stored or the stored text does not parse. */
    function GetCurrentUser(): (r: Option<User>)
      reads this
      ensures slot == NoEntry || slot == Unparsable ==> r == None
      ensures slot.Json? ==> r == Some(slot.user)
    {
      match slot
      case Json(u) => Some(u)
      case _ => None
    }

    /** `setCurrentUser(user)` */
    method SetCurrentUser(user: User)
      modifies this
      ensures slot == Json(user)
      ensures GetCurrentUser() == Some(user)
    {
      slot := Json(user);
    }

    /** `clearCurrentUser()` */
    method ClearCurrentUser()
      modifies this
      ensures slot == NoEntry
      ensures GetCurrentUser() == None && !IsAdmin(GetCurrentUser()) && !CanEdit(GetCurrentUser())
    {
      slot := NoEntry;
    }
  }
}
