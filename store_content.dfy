/**
 * The `content` table: rows kept in rowid order (ascending `contentId`), an
 * auto-increment counter, and the listing queries (title-prefix filter,
 * newest first, one page).
 */
module ContentStore {
  import opened Common
  import opened Entities

  /** `title LIKE p || '%'` read as a plain prefix test; no filter without a title. */
  predicate MatchesTitle(e: ContentEntity, title: Option<string>)
  {
    title.None? || title.value <= e.title
  }

  /** The rows passing the title filter, in table order, each as often as in the table. */
  function Filter(s: seq<ContentEntity>, title: Option<string>): (r: seq<ContentEntity>)
    ensures forall e :: multiset(r)[e] == if MatchesTitle(e, title) then multiset(s)[e] else 0
    ensures title.None? ==> r == s
    ensures |r| <= |s|
  {
    if s == [] then []
    else
      assert s == [s[0]] + s[1..];
      (if MatchesTitle(s[0], title) then [s[0]] else []) + Filter(s[1..], title)
  }

  /** `ORDER BY post_at DESC`: no row is newer than one before it. */
  predicate SortedByPostAtDesc(s: seq<ContentEntity>)
  {
    forall i, j :: 0 <= i < j < |s| ==> s[i].postAt >= s[j].postAt
  }

  /** Every row of a newest-first sequence is no newer than its head. */
  lemma SortedHead(s: seq<ContentEntity>)
    requires SortedByPostAtDesc(s) && s != []
    ensures forall x :: x in s ==> s[0].postAt >= x.postAt
  {
    forall x | x in s
      ensures s[0].postAt >= x.postAt
    {
      var k :| 0 <= k < |s| && s[k] == x;
    }
  }

  /** Putting a row in front of the rows no newer than it keeps the order. */
  lemma ConsSorted(h: ContentEntity, t: seq<ContentEntity>)
    requires SortedByPostAtDesc(t)
    requires forall x :: x in t ==> h.postAt >= x.postAt
    ensures SortedByPostAtDesc([h] + t)
  {
    var r := [h] + t;
    forall i, j | 0 <= i < j < |r|
      ensures r[i].postAt >= r[j].postAt
    {
      if i == 0 {
        assert r[j] == t[j - 1];
        assert t[j - 1] in t;
      } else {
        assert r[i] == t[i - 1] && r[j] == t[j - 1];
      }
    }
  }

  /** Places `e` before the first row it is at least as new as. */
  function Insert(e: ContentEntity, s: seq<ContentEntity>): (r: seq<ContentEntity>)
    requires SortedByPostAtDesc(s)
    ensures SortedByPostAtDesc(r)
    ensures multiset(r) == multiset(s) + multiset{e}
    ensures forall x :: x in r ==> x == e || x in s
  {
    if s == [] then [e]
    else if e.postAt >= s[0].postAt then
      SortedHead(s);
      ConsSorted(e, s);
      [e] + s
    else
      assert s == [s[0]] + s[1..];
      var rest := Insert(e, s[1..]);
      SortedHead(s);
      ConsSorted(s[0], rest);
      [s[0]] + rest
  }

  /**
   * The rows newest first, as a permutation of the input.  Rows with equal
   * `postAt` keep their table order (the database leaves that order open).
   */
  function SortByPostAtDesc(s: seq<ContentEntity>): (r: seq<ContentEntity>)
    ensures SortedByPostAtDesc(r)
    ensures multiset(r) == multiset(s)
  {
    if s == [] then []
    else
      assert s == [s[0]] + s[1..];
      Insert(s[0], SortByPostAtDesc(s[1..]))
  }

  /** Where an `OFFSET` starts in `n` rows: a negative offset counts as zero. */
  function Start(offset: int, n: nat): (k: nat)
    ensures k <= n
  {
    if offset < 0 then 0 else Min(offset, n)
  }

  /**
   * `LIMIT limit OFFSET offset`: the contiguous run of at most `limit` rows
   * after the offset, or every row after it when the limit is negative.
   */
  function Page<T>(s: seq<T>, offset: int, limit: int): (r: seq<T>)
    ensures Start(offset, |s|) + |r| <= |s|
    ensures r == s[Start(offset, |s|)..Start(offset, |s|) + |r|]
    ensures limit >= 0 ==> |r| == Min(limit, |s| - Start(offset, |s|))
    ensures limit < 0 ==> |r| == |s| - Start(offset, |s|)
  {
    var from := Start(offset, |s|);
    var to := if limit < 0 then |s| else Min(from + limit, |s|);
    s[from..to]
  }

  /** The `OFFSET` the listing binds for page `page` of `size` rows. */
  function Offset(page: int, size: int): int
  {
    (page - 1) * size
  }

  /** A contiguous run of a newest-first sequence is newest first. */
  lemma SortedSlice(s: seq<ContentEntity>, a: nat, b: nat)
    requires a <= b <= |s| && SortedByPostAtDesc(s)
    ensures SortedByPostAtDesc(s[a..b])
  {
  }

  /** A contiguous run holds no row more often than the whole sequence. */
  lemma SliceMultiset<T>(s: seq<T>, a: nat, b: nat)
    requires a <= b <= |s|
    ensures multiset(s[a..b]) <= multiset(s)
  {
    assert s == s[..a] + s[a..b] + s[b..];
  }

  /** A page of a newest-first sequence is newest first and holds only its rows. */
  lemma PageOfSorted(s: seq<ContentEntity>, offset: int, limit: int)
    requires SortedByPostAtDesc(s)
    ensures SortedByPostAtDesc(Page(s, offset, limit))
    ensures multiset(Page(s, offset, limit)) <= multiset(s)
  {
    var a := Start(offset, |s|);
    var r := Page(s, offset, limit);
    SortedSlice(s, a, a + |r|);
    SliceMultiset(s, a, a + |r|);
  }

  /** Any rearrangement of the filtered rows holds only matching rows of the table. */
  lemma FilteredRowsInTable(rows: seq<ContentEntity>, title: Option<string>, t: seq<ContentEntity>)
    requires multiset(t) == multiset(Filter(rows, title))
    ensures forall e :: e in t ==> e in rows && MatchesTitle(e, title)
  {
    forall e | e in t
      ensures e in rows && MatchesTitle(e, title)
    {
      assert multiset(t)[e] > 0;
    }
  }

  /** How many rows page `page` of `size` rows holds, out of `n`. */
  lemma PageLength(n: nat, page: int, size: int)
    ensures page >= 1 && size >= 0 ==>
      Min(size, n - Start((page - 1) * size, n)) == Min(size, Max(0, n - (page - 1) * size))
  {
    if page >= 1 && size >= 0 {
      var offset := (page - 1) * size;
      assert offset >= 0;
    }
  }

  /**
   * The first index whose row has key `id` (`fetch_optional` returns the first
   * matching row), or none when no row has it.
   */
  function IndexOf(s: seq<ContentEntity>, id: int): (r: Option<nat>)
    ensures r.Some? ==> r.value < |s| && s[r.value].contentId == id
    ensures r.Some? ==> forall i :: 0 <= i < r.value ==> s[i].contentId != id
    ensures r.None? ==> forall i :: 0 <= i < |s| ==> s[i].contentId != id
  {
    if s == [] then None
    else if s[0].contentId == id then Some(0)
    else
      match IndexOf(s[1..], id)
      case None => None
      case Some(k) => Some(k + 1)
  }

  /** The UPDATE's SET clause: account, post time, title and body; key and timestamps stay. */
  function Revised(row: ContentEntity, e: ContentEntity): ContentEntity
  {
    row.(account := e.account, postAt := e.postAt, title := e.title, body := e.body)
  }

  class ContentRepository {
    /** The table in rowid order. */
    var rows: seq<ContentEntity>
    /** The next key AUTOINCREMENT hands out; keys are never reused. */
    var nextId: int

    /** Keys are positive, below the counter, and strictly increasing in table order. */
    ghost predicate Valid()
      reads this
    {
      && 1 <= nextId
      && (forall i :: 0 <= i < |rows| ==> 1 <= rows[i].contentId < nextId)
      && (forall i, j :: 0 <= i < j < |rows| ==> rows[i].contentId < rows[j].contentId)
    }

    constructor ()
      ensures Valid() && rows == [] && nextId == 1
    {
      rows, nextId := [], 1;
    }

    /**
     * The row with key `id`, if any.  Keys are unique, so the row found is the
     * only row of the table with that key.
     */
    function Find(id: int): (r: Option<ContentEntity>)
      reads this
      requires Valid()
      ensures r.Some? ==> r.value in rows && r.value.contentId == id
      ensures forall e :: e in rows && e.contentId == id ==> r == Some(e)
      ensures r.None? <==> forall i :: 0 <= i < |rows| ==> rows[i].contentId != id
    {
      match IndexOf(rows, id)
      case None => None
      case Some(i) => Some(rows[i])
    }

    /**
     * INSERT of account, post time, title and body: the supplied key is
     * ignored and the next auto-increment key assigned; both timestamps take
     * the column default, the current time.
     */
    method Create(e: ContentEntity, now: Timestamp) returns (created: ContentEntity)
      requires Valid()
      modifies this
      ensures Valid()
      ensures created == e.(contentId := old(nextId), createdAt := Some(now), updatedAt := Some(now))
      ensures old(Find(created.contentId)) == None
      ensures rows == old(rows) + [created] && nextId == old(nextId) + 1
      ensures Find(created.contentId) == Some(created)
    {
      created := e.(contentId := nextId, createdAt := Some(now), updatedAt := Some(now));
      rows := rows + [created];
      nextId := nextId + 1;
    }

    /**
     * UPDATE ... WHERE content_id = e.contentId: the row with that key is
     * revised in place, every other row stays, and the revised row is returned.
     */
    method Update(e: ContentEntity) returns (r: Option<ContentEntity>)
      requires Valid()
      modifies this
      ensures Valid() && nextId == old(nextId)
      ensures |rows| == |old(rows)|
      ensures forall i :: 0 <= i < |rows| ==>
        rows[i] == if old(rows)[i].contentId == e.contentId then Revised(old(rows)[i], e) else old(rows)[i]
      ensures old(Find(e.contentId)).None? ==> r == None && rows == old(rows)
      ensures old(Find(e.contentId)).Some? ==>
        r == Some(Revised(old(Find(e.contentId)).value, e)) && Find(e.contentId) == r
    {
      var idx := IndexOf(rows, e.contentId);
      var table := rows;
      rows := seq(|table|, i requires 0 <= i < |table| =>
        if table[i].contentId == e.contentId then Revised(table[i], e) else table[i]);
      r := if idx.Some? then Some(rows[idx.value]) else None;
    }

    /** DELETE by key: the number of rows removed is 1 or 0; nothing else goes. */
    method Delete(id: int) returns (n: nat)
      requires Valid()
      modifies this
      ensures Valid() && nextId == old(nextId)
      ensures n == (if old(Find(id)).Some? then 1 else 0)
      ensures n == 0 ==> rows == old(rows)
      ensures Find(id) == None
      ensures forall e :: e in rows <==> e in old(rows) && e.contentId != id
      ensures |rows| == |old(rows)| - n
    {
      var idx := IndexOf(rows, id);
      if idx.None? {
        return 0;
      }
      var i := idx.value;
      ghost var before := rows;
      rows := rows[..i] + rows[i + 1..];
      assert forall k :: 0 <= k < |rows| ==> rows[k] == if k < i then before[k] else before[k + 1];
      n := 1;
    }

    /** `SELECT COUNT(*)`, filtered by title prefix when a title is given. */
    function Count(title: Option<string>): (n: nat)
      reads this
      ensures n == |Filter(rows, title)|
      ensures n <= |rows|
      ensures title.None? ==> n == |rows|
    {
      |Filter(rows, title)|
    }

    /**
     * Page `page` of `size` rows of the filtered table, newest first: every
     * row returned is a matching row of the table, at most `size` of them, and
     * exactly as many as remain after skipping `(page - 1) * size`.
     */
    function List(title: Option<string>, page: int, size: int): (r: seq<ContentEntity>)
      reads this
      ensures SortedByPostAtDesc(r)
      ensures multiset(r) <= multiset(Filter(rows, title))
      ensures forall e :: e in r ==> e in rows && MatchesTitle(e, title)
      ensures size >= 0 ==> |r| <= size
      ensures page >= 1 && size >= 0 ==> |r| == Min(size, Max(0, Count(title) - (page - 1) * size))
    {
      var matching := Filter(rows, title);
      var sorted := SortByPostAtDesc(matching);
      PageOfSorted(sorted, Offset(page, size), size);
      FilteredRowsInTable(rows, title, sorted);
      assert |sorted| == |matching| by {
        assert |multiset(sorted)| == |multiset(matching)|;
      }
      PageLength(|sorted|, page, size);
      Page(sorted, Offset(page, size), size)
    }
  }

  /** Two runs of a sequence, the first ending before the second starts, hold no row more often than the sequence. */
  lemma DisjointSlices<T>(s: seq<T>, a: nat, c: nat, b: nat, d: nat)
    requires a <= c <= b <= d <= |s|
    ensures multiset(s[a..c]) + multiset(s[b..d]) <= multiset(s)
  {
    assert s == s[..a] + s[a..c] + s[c..b] + s[b..d] + s[d..];
  }

  /** In a newest-first sequence, no row of a later run is newer than a row of an earlier one. */
  lemma SlicesInOrder(s: seq<ContentEntity>, a: nat, c: nat, b: nat, d: nat)
    requires SortedByPostAtDesc(s) && a <= c <= b <= d <= |s|
    ensures forall x, y :: x in s[a..c] && y in s[b..d] ==> x.postAt >= y.postAt
  {
    forall x, y | x in s[a..c] && y in s[b..d]
      ensures x.postAt >= y.postAt
    {
      var i :| 0 <= i < c - a && s[a..c][i] == x;
      var j :| 0 <= j < d - b && s[b..d][j] == y;
      assert s[a + i] == x && s[b + j] == y;
    }
  }

  /**
   * In a newest-first sequence, the page after `off` and the page after
   * `off + size` follow each other: no row of the second is newer than a row
   * of the first, and the two are disjoint runs of the sequence.
   */
  lemma AdjacentPages(s: seq<ContentEntity>, off: int, size: int)
    requires SortedByPostAtDesc(s) && off >= 0 && size >= 1
    ensures forall x, y :: x in Page(s, off, size) && y in Page(s, off + size, size) ==> x.postAt >= y.postAt
    ensures multiset(Page(s, off, size)) + multiset(Page(s, off + size, size)) <= multiset(s)
  {
    var a := Start(off, |s|);
    var c := a + |Page(s, off, size)|;
    var b := Start(off + size, |s|);
    var d := b + |Page(s, off + size, size)|;
    assert c <= b;
    assert Page(s, off, size) == s[a..c];
    assert Page(s, off + size, size) == s[b..d];
    SlicesInOrder(s, a, c, b, d);
    DisjointSlices(s, a, c, b, d);
  }

  /** The listing is the page of the filtered rows sorted newest first. */
  lemma ListIsPage(repo: ContentRepository, title: Option<string>, page: int, size: int)
    ensures repo.List(title, page, size) == Page(SortByPostAtDesc(Filter(repo.rows, title)), Offset(page, size), size)
  {
  }

  /** Page `page + 1` starts `size` rows after page `page`. */
  lemma NextOffset(page: int, size: int)
    requires page >= 1 && size >= 1
    ensures Offset(page, size) >= 0
    ensures Offset(page + 1, size) == Offset(page, size) + size
  {
  }

  /**
   * Consecutive pages of the listing follow each other: no row of page
   * `page + 1` is newer than a row of page `page`, and together they hold no
   * matching row more often than the table does, so they share no row.
   */
  lemma ConsecutivePages(repo: ContentRepository, title: Option<string>, page: int, size: int)
    requires page >= 1 && size >= 1
    ensures forall x, y :: x in repo.List(title, page, size) && y in repo.List(title, page + 1, size) ==>
      x.postAt >= y.postAt
    ensures multiset(repo.List(title, page, size)) + multiset(repo.List(title, page + 1, size))
      <= multiset(Filter(repo.rows, title))
  {
    var s := SortByPostAtDesc(Filter(repo.rows, title));
    NextOffset(page, size);
    ListIsPage(repo, title, page, size);
    ListIsPage(repo, title, page + 1, size);
    AdjacentPages(s, Offset(page, size), size);
  }

  /** The listing starts with the newest matching row: page one opens with a row no other matching row is newer than. */
  lemma FirstPageStartsNewest(repo: ContentRepository, title: Option<string>, size: int)
    requires size >= 1 && repo.Count(title) >= 1
    ensures |repo.List(title, 1, size)| >= 1
    ensures forall e :: e in Filter(repo.rows, title) ==> repo.List(title, 1, size)[0].postAt >= e.postAt
  {
    var s := SortByPostAtDesc(Filter(repo.rows, title));
    ListIsPage(repo, title, 1, size);
    assert Offset(1, size) == 0;
    assert |s| == |Filter(repo.rows, title)| by {
      assert |multiset(s)| == |multiset(Filter(repo.rows, title))|;
    }
    assert repo.List(title, 1, size)[0] == s[0];
    SortedHead(s);
    forall e | e in Filter(repo.rows, title)
      ensures s[0].postAt >= e.postAt
    {
      assert multiset(Filter(repo.rows, title))[e] > 0;
      assert e in s;
    }
  }

  /**
   * When every row of `a` fails the filter and every row of `b` passes it,
   * the filtered rows of `a + b` are the rows of `b`.
   */
  lemma FilterKeepsMatchingPart(a: seq<ContentEntity>, b: seq<ContentEntity>, title: Option<string>)
    requires forall e :: e in a ==> !MatchesTitle(e, title)
    requires forall e :: e in b ==> MatchesTitle(e, title)
    ensures multiset(Filter(a + b, title)) == multiset(b)
    ensures |Filter(a + b, title)| == |b|
  {
    var r := Filter(a + b, title);
    forall e
      ensures multiset(r)[e] == multiset(b)[e]
    {
      if MatchesTitle(e, title) {
        assert e !in a;
        assert multiset(a)[e] == 0;
      } else {
        assert e !in b;
      }
    }
    assert multiset(r) == multiset(b);
    assert |multiset(r)| == |multiset(b)|;
  }

  /**
   * Ten rows titled "test" followed by ten titled "title": the prefix
   * "title" matches ten of them, and the first page of ten for the prefix
   * "tit" is full.
   */
  lemma TitlePrefixOnTwentyRows(repo: ContentRepository)
    requires |repo.rows| == 20
    requires forall i :: 0 <= i < 10 ==> repo.rows[i].title == "test"
    requires forall i :: 10 <= i < 20 ==> repo.rows[i].title == "title"
    ensures repo.Count(Some("title")) == 10
    ensures |repo.List(Some("tit"), 1, 10)| == 10
  {
    var tests, titles := repo.rows[..10], repo.rows[10..];
    assert repo.rows == tests + titles;
    assert !("title" <= "test") && !("tit" <= "test") && "title" <= "title" && "tit" <= "title" by {
      assert "title"[1] != "test"[1];
    }
    forall e | e in tests
      ensures e.title == "test"
    {
      var i :| 0 <= i < 10 && tests[i] == e;
    }
    forall e | e in titles
      ensures e.title == "title"
    {
      var i :| 0 <= i < 10 && titles[i] == e;
      assert e == repo.rows[10 + i];
    }
    FilterKeepsMatchingPart(tests, titles, Some("title"));
    FilterKeepsMatchingPart(tests, titles, Some("tit"));
  }

  /** Twenty rows in pages of ten: the second page is full and the third is empty. */
  lemma TwentyRowsInPagesOfTen(repo: ContentRepository)
    requires |repo.rows| == 20
    ensures |repo.List(None, 2, 10)| == 10
    ensures |repo.List(None, 3, 10)| == 0
  {
  }
}
