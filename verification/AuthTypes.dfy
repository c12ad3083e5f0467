/** The closed sets and records of the auth domain. */
module AuthTypes {

  datatype Role = BasicUser | Developer | Support | Admin

  datatype UserState = Pending | Active | Rejected | Banned

  datatype RequestStatus = Undecided | Approved | Declined

  datatype Option<+T> = None | Some(value: T)

  /** UUIDs in their text form. */
  type Id = string

  /** A row of `users`. */
  datatype Account = Account(
    id: Id,
    email: string,
    passwordHash: string,
    displayName: string,
    role: Role,
    state: UserState,
    createdAt: int)
}
