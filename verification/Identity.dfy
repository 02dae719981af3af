/** Roles, account states and the transitions the account lifecycle permits. */
module Identity {
  datatype Role = SystemAdministrator | DepartmentAdministrator | DispatcherOperator | Responder | ReadOnlyAuditor

  predicate RequiresMFA(r: Role) {
    r.SystemAdministrator? || r.DepartmentAdministrator?
  }

  datatype AccountState = Invited | PasswordChangeRequired | Active | Suspended | Disabled | Expired

  predicate CanAuthenticate(s: AccountState) {
    s.Active?
  }

  predicate AllowedTransition(from: AccountState, to: AccountState) {
    match from
    case Invited => to in {PasswordChangeRequired, Expired, Suspended, Disabled}
    case PasswordChangeRequired => to in {Active, Expired, Suspended, Disabled, PasswordChangeRequired}
    case Active => to in {Suspended, Disabled, PasswordChangeRequired}
    case Suspended => to in {Active, Invited, Expired, Disabled, PasswordChangeRequired}
    case Disabled => to in {Active, Invited, Expired, Suspended, PasswordChangeRequired}
    case Expired => to in {Invited, Suspended, Disabled}
  }
}
