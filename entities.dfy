/** The member and content records, as rows of their tables. */
module Entities {
  import opened Common

  /** One row of the `member` table; `password` holds the password hash. */
  datatype MemberEntity = MemberEntity(
    account: string,
    password: string,
    name: Option<string>,
    email: Option<string>,
    createdAt: Option<Timestamp>,
    updatedAt: Option<Timestamp>)

  /** One row of the `content` table; `contentId` is the auto-increment key. */
  datatype ContentEntity = ContentEntity(
    contentId: int,
    account: string,
    postAt: Timestamp,
    title: string,
    body: string,
    createdAt: Option<Timestamp>,
    updatedAt: Option<Timestamp>)
}
