/** The identity view returned by authentication. */
module MemberDtos {
  import opened Common
  import opened Entities
  import opened AuthModel

  datatype AuthMemberDto = AuthMemberDto(
    account: string,
    name: Option<string>,
    email: Option<string>,
    loginAt: Option<Timestamp>,
    prevLoginAt: Option<Timestamp>)
  {
    /** Account, name and email from the member; login history from the session. */
    static function FromEntity(member: MemberEntity, auth: AuthRow): (d: AuthMemberDto)
      ensures d.account == member.account && d.name == member.name && d.email == member.email
      ensures d.loginAt == auth.loginAt && d.prevLoginAt == auth.prevLoginAt
    {
      AuthMemberDto(member.account, member.name, member.email, auth.loginAt, auth.prevLoginAt)
    }
  }

  /**
   * The view exposes nothing else: two members and two sessions that agree on
   * the five projected fields give the same view, whatever their password
   * hashes, timestamps, token fields and mismatch counters.
   */
  lemma FromEntityHidesSecrets(m1: MemberEntity, m2: MemberEntity, a1: AuthRow, a2: AuthRow)
    requires m1.account == m2.account && m1.name == m2.name && m1.email == m2.email
    requires a1.loginAt == a2.loginAt && a1.prevLoginAt == a2.prevLoginAt
    ensures AuthMemberDto.FromEntity(m1, a1) == AuthMemberDto.FromEntity(m2, a2)
  {
  }
}
