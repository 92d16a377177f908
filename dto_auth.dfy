/** Request bodies of sign-up and sign-in. */
module AuthDtos {
  import opened Common
  import opened Entities

  datatype SignupDto = SignupDto(
    account: string,
    password: string,
    confirmPassword: string,
    name: Option<string>,
    email: Option<string>)
  {
    /**
     * The member row to insert: the identifying fields and the password are
     * copied as given (sign-up replaces the password by its hash afterwards),
     * the store-managed timestamps are left empty.
     */
    function ToEntity(): (m: MemberEntity)
      ensures m.account == account && m.password == password
      ensures m.name == name && m.email == email
      ensures m.createdAt == None && m.updatedAt == None
    {
      MemberEntity(account, password, name, email, None, None)
    }
  }

  datatype SigninDto = SigninDto(account: string, password: string)

  /** The confirmation field is not carried into the member row. */
  lemma ToEntityIgnoresConfirmation(d: SignupDto, confirm: string)
    ensures d.(confirmPassword := confirm).ToEntity() == d.ToEntity()
  {
  }
}
