/** Records of the accounts form: the shapes declared in src/types/account.ts. */
module Types {

  /** A value or its explicit absence (`T | null` in the source). */
  datatype Option<+T> = None | Some(value: T)

  /** The two permitted kinds of account; no other value exists. */
  datatype AccountType = LDAP | LOCAL

  /** A single tag attached to an account. */
  datatype Label = Label(text: string)

  /** A stored credential record. The source's field `type` is called `kind`
      here because `type` is a reserved word. A `None` password is the
      explicit `null` of an LDAP account that defers credential entry. */
  datatype Account = Account(labels: seq<Label>, kind: AccountType, login: string, password: Option<string>)
}
