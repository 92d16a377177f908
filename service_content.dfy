/** Content use cases: post, get, edit and remove over the content table. */
module ContentService {
  import opened Common
  import opened ContentDtos
  import opened ContentStore

  class ContentUseCases {
    const repo: ContentRepository

    constructor (repo: ContentRepository)
      requires repo.Valid()
      ensures this.repo == repo && this.repo.Valid()
    {
      this.repo := repo;
    }

    /**
     * Stores the payload as a new row and returns that row's payload: the
     * caller's payload under the freshly assigned key.
     */
    method Post(dto: ContentDto, now: Timestamp) returns (r: Result<ContentDto>)
      requires repo.Valid()
      modifies repo
      ensures repo.Valid() && repo.nextId == old(repo.nextId) + 1
      ensures r == Ok(dto.(contentId := old(repo.nextId)))
      ensures old(repo.Find(r.value.contentId)) == None
      ensures repo.rows == old(repo.rows) + [dto.ToEntity().(contentId := old(repo.nextId), createdAt := Some(now), updatedAt := Some(now))]
      ensures repo.Find(r.value.contentId).Some?
      ensures ContentDto.FromEntity(repo.Find(r.value.contentId).value) == r.value
    {
      var content := repo.Create(dto.ToEntity(), now);
      return Ok(ContentDto.FromEntity(content));
    }

    /** The payload of the row with key `id`, or none when no row has it. */
    method Get(id: int) returns (r: Option<ContentDto>)
      requires repo.Valid()
      ensures r.Some? <==> exists i :: 0 <= i < |repo.rows| && repo.rows[i].contentId == id
      ensures r.Some? ==> r.value.contentId == id
      ensures forall e :: e in repo.rows && e.contentId == id ==> r == Some(ContentDto.FromEntity(e))
    {
      var content := repo.Find(id);
      r := match content
        case Some(c) => Some(ContentDto.FromEntity(c))
        case None => None;
    }

    /**
     * Overwrites account, post time, title and body of the row with the
     * payload's key and returns the payload itself; a missing key is an error
     * and nothing changes.
     */
    method Edit(dto: ContentDto) returns (r: Result<ContentDto>)
      requires repo.Valid()
      modifies repo
      ensures repo.Valid() && repo.nextId == old(repo.nextId)
      ensures old(repo.Find(dto.contentId)).None? ==> r == Err(RowNotFound) && repo.rows == old(repo.rows)
      ensures old(repo.Find(dto.contentId)).Some? ==>
        && r == Ok(dto)
        && repo.Find(dto.contentId) == Some(Revised(old(repo.Find(dto.contentId)).value, dto.ToEntity()))
      ensures |repo.rows| == |old(repo.rows)|
      ensures forall i :: 0 <= i < |repo.rows| && old(repo.rows)[i].contentId != dto.contentId ==>
        repo.rows[i] == old(repo.rows)[i]
    {
      var content := repo.Update(dto.ToEntity());
      if content.None? {
        return Err(RowNotFound);
      }
      return Ok(ContentDto.FromEntity(content.value));
    }

    /**
     * Deletes the row with key `id` and reports the one row removed; when no
     * row has the key it is an error and nothing changes.
     */
    method Remove(id: int) returns (r: Result<nat>)
      requires repo.Valid()
      modifies repo
      ensures repo.Valid() && repo.nextId == old(repo.nextId)
      ensures old(repo.Find(id)).None? ==> r == Err(RowNotFound) && repo.rows == old(repo.rows)
      ensures old(repo.Find(id)).Some? ==> r == Ok(1) && |repo.rows| == |old(repo.rows)| - 1
      ensures repo.Find(id) == None
      ensures forall e :: e in repo.rows <==> e in old(repo.rows) && e.contentId != id
    {
      var count := repo.Delete(id);
      if count == 0 {
        return Err(RowNotFound);
      }
      return Ok(count);
    }
  }

  /**
   * Post a payload, read it back, edit its title and body, remove it: every
   * step succeeds and exactly one row is removed.
   */
  method PostGetEditRemove(account: string, postAt: Timestamp, now: Timestamp) returns (r: Result<nat>)
    ensures r == Ok(1)
  {
    var repo := new ContentRepository();
    var useCases := new ContentUseCases(repo);
    var posted := useCases.Post(ContentDto(0, account, postAt, "title", "body"), now);
    var got := useCases.Get(posted.value.contentId);
    assert repo.rows[0].contentId == posted.value.contentId;
    var dto := got.value.(title := "title2", body := "body2");
    var edited := useCases.Edit(dto);
    assert edited == Ok(dto);
    r := useCases.Remove(dto.contentId);
  }
}
