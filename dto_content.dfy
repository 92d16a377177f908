/** The content payload exchanged with clients. */
module ContentDtos {
  import opened Common
  import opened Entities

  datatype ContentDto = ContentDto(
    contentId: int,
    account: string,
    postAt: Timestamp,
    title: string,
    body: string)
  {
    /** The five payload fields of a row; its timestamps are dropped. */
    static function FromEntity(e: ContentEntity): (d: ContentDto)
      ensures d.contentId == e.contentId && d.account == e.account && d.postAt == e.postAt
      ensures d.title == e.title && d.body == e.body
    {
      ContentDto(e.contentId, e.account, e.postAt, e.title, e.body)
    }

    /** A row carrying the five payload fields and no timestamps. */
    function ToEntity(): (e: ContentEntity)
      ensures e.contentId == contentId && e.account == account && e.postAt == postAt
      ensures e.title == title && e.body == body
      ensures e.createdAt == None && e.updatedAt == None
    {
      ContentEntity(contentId, account, postAt, title, body, None, None)
    }
  }

  /** Converting a payload to a row and back gives the payload. */
  lemma FromEntityToEntity(d: ContentDto)
    ensures ContentDto.FromEntity(d.ToEntity()) == d
  {
  }

  /** Converting a row to a payload and back loses exactly the two timestamps. */
  lemma ToEntityFromEntity(e: ContentEntity)
    ensures ContentDto.FromEntity(e).ToEntity() == e.(createdAt := None, updatedAt := None)
  {
  }
}
