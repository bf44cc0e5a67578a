/** The four request handlers with HTTP responses as a datatype: 201 is
    `Created`, 200 is `Ok` (one document) or `OkList` (a list), 400 is
    `BadRequest`, 404 is `NotFound`. The create handler changes the store and
    is the `CreateBlog` method of `Store.BlogStore`; the three readers are
    functions of the store's tables. */
module Handlers {
  import opened Wrappers
  import opened Seqs
  import opened Tables
  import opened Assembler
  import opened Creation
  import opened Search

  datatype Response =
    | Created(blogId: nat)
    | Ok(data: Document)
    | OkList(items: seq<Document>)
    | BadRequest(error: string)
    | NotFound(error: string)

  const MissingFieldsError := "Missing required fields"
  const BlogNotFoundError := "Blog not found"
  const KeywordRequiredError := "Keyword is required"

  /** The list and search handlers report each blog with its `id`. */
  function Listed(db: Db): Blog -> Document {
    (b: Blog) => Assemble(db, b, true)
  }

  /** `GET /api/blogs`: every stored blog, in storage order, with its id. */
  function GetBlogs(db: Db): (r: Response)
    ensures r.OkList? && |r.items| == |db.blogs|
    ensures forall i :: 0 <= i < |db.blogs| ==> r.items[i].id == Some(db.blogs[i].id)
  {
    OkList(Map(Listed(db), db.blogs))
  }

  /** `GET /api/blog/<id>`: 404 when no blog has that key; otherwise its document without `id`. */
  function GetBlogById(db: Db, blogId: nat): (r: Response)
    ensures r.NotFound? <==> forall i :: 0 <= i < |db.blogs| ==> db.blogs[i].id != blogId
    ensures r.NotFound? ==> r.error == BlogNotFoundError
    ensures r.Ok? || r.NotFound?
    ensures r.Ok? ==> r.data.id == None
  {
    match FindBlog(db.blogs, blogId)
    case None => NotFound(BlogNotFoundError)
    case Some(blog) => Ok(Assemble(db, blog, false))
  }

  /** `GET /api/blogs/search?keyword=`: 400 for an empty keyword; otherwise the
      matching blogs, in storage order, with their ids. */
  function SearchBlogs(db: Db, keyword: string): (r: Response)
    ensures r.BadRequest? <==> keyword == ""
    ensures r.BadRequest? ==> r.error == KeywordRequiredError
    ensures r.OkList? || r.BadRequest?
    ensures r.OkList? ==> forall i :: 0 <= i < |r.items| ==> r.items[i].id.Some?
  {
    var k := Lower(keyword);
    if k == "" then BadRequest(KeywordRequiredError)
    else OkList(Map(Listed(db), Hits(db.blogs, k)))
  }

  /** The search filter read on a listed document: `Matches` of the blog
      columns the document carries. */
  predicate DocMatches(d: Document, keyword: string) {
    Matches(Blog(0, d.title, d.author, d.readTime, d.date, d.githubLink), keyword)
  }

  function DocMatchesKeyword(keyword: string): Document -> bool {
    (d: Document) => DocMatches(d, keyword)
  }

  /** The search result is the full list filtered on the keyword: the same
      documents, in storage order, each once. */
  lemma SearchInStorageOrder(db: Db, keyword: string)
    requires keyword != ""
    ensures SearchBlogs(db, keyword).items == Filter(DocMatchesKeyword(keyword), GetBlogs(db).items)
  {
    LowerIdempotent(keyword);
    MapFilter(Listed(db), MatchesKeyword(Lower(keyword)), DocMatchesKeyword(keyword), db.blogs);
  }

  /** Two different blogs of a well-formed store have different documents in a list. */
  lemma ListedInjective(db: Db, a: Blog, b: Blog)
    requires WellFormed(db) && a in db.blogs && b in db.blogs
    ensures Assemble(db, a, true) == Assemble(db, b, true) ==> a == b
  {
  }

  /** A blog's document is in the search result exactly when the blog matches the keyword. */
  lemma SearchFindsExactly(db: Db, keyword: string, blog: Blog)
    requires WellFormed(db) && keyword != "" && blog in db.blogs
    ensures Assemble(db, blog, true) in SearchBlogs(db, keyword).items <==> Matches(blog, keyword)
  {
    var k := Lower(keyword);
    var hits := Hits(db.blogs, k);
    HitsIgnoreKeywordCase(db.blogs, keyword);
    HitsMember(db.blogs, keyword, blog);
    var docs := Map(Listed(db), hits);
    if Assemble(db, blog, true) in docs {
      var i :| 0 <= i < |docs| && docs[i] == Assemble(db, blog, true);
      HitsMember(db.blogs, keyword, hits[i]);
      ListedInjective(db, hits[i], blog);
    }
    if Matches(blog, keyword) {
      var i :| 0 <= i < |hits| && hits[i] == blog;
      assert docs[i] == Assemble(db, blog, true);
    }
  }

  /** Every search result is also in the full list. */
  lemma SearchWithinList(db: Db, keyword: string)
    requires keyword != ""
    ensures forall d :: d in SearchBlogs(db, keyword).items ==> d in GetBlogs(db).items
  {
    var hits := Hits(db.blogs, Lower(keyword));
    var docs := Map(Listed(db), hits);
    forall d | d in docs
      ensures d in GetBlogs(db).items
    {
      var i :| 0 <= i < |docs| && docs[i] == d;
      FilterMember(MatchesKeyword(Lower(keyword)), db.blogs, hits[i]);
      var j :| 0 <= j < |db.blogs| && db.blogs[j] == hits[i];
      assert GetBlogs(db).items[j] == d;
    }
  }

  /** A keyword that matches no blog gives 200 with an empty list, not an error. */
  lemma SearchNoMatch(db: Db, keyword: string)
    requires keyword != ""
    requires forall i :: 0 <= i < |db.blogs| ==> !Matches(db.blogs[i], keyword)
    ensures SearchBlogs(db, keyword) == OkList([])
  {
    HitsIgnoreKeywordCase(db.blogs, keyword);
    FilterEmpty(MatchesKeyword(keyword), db.blogs);
  }

  /** Searching for a fragment of a blog's title, in any case, finds that blog. */
  lemma SearchFindsTitleFragment(db: Db, blog: Blog, before: string, keyword: string, after: string)
    requires WellFormed(db) && blog in db.blogs && keyword != ""
    requires Lower(blog.title) == before + Lower(keyword) + after
    ensures Assemble(db, blog, true) in SearchBlogs(db, keyword).items
  {
    ILikeOccurrence(blog.title, before, keyword, after);
    SearchFindsExactly(db, keyword, blog);
  }

  /** The get-by-id document is the list document of the same blog without its `id`. */
  lemma GetByIdOmitsOnlyId(db: Db, blogId: nat)
    requires WellFormed(db) && 1 <= blogId <= |db.blogs|
    ensures GetBlogById(db, blogId) == Ok(GetBlogs(db).items[blogId - 1].(id := None))
  {
    FindBlogAt(db, blogId);
  }

  /** Appending a blog whose arrival changes no other document appends its document to the list. */
  lemma ListAppend(db: Db, db': Db, blog: Blog)
    requires db'.blogs == db.blogs + [blog]
    requires forall i :: 0 <= i < |db.blogs| ==> Assemble(db', db.blogs[i], true) == Assemble(db, db.blogs[i], true)
    ensures GetBlogs(db').items == GetBlogs(db).items + [Assemble(db', blog, true)]
  {
    var listed := GetBlogs(db).items;
    var listed' := GetBlogs(db').items;
    assert forall i :: 0 <= i < |db.blogs| ==> listed'[i] == Assemble(db', db.blogs[i], true);
    assert listed'[|db.blogs|] == Assemble(db', blog, true);
    assert listed' == listed + [Assemble(db', blog, true)];
  }

  /** Round trip: after a create that validated, get-by-id on the returned key
      gives back the submitted document, and the list gains just that document. */
  lemma CreateThenRead(db: Db, input: BlogInput)
    requires WellFormed(db) && HasRequiredFields(input)
    ensures var db' := Cascade(db, input);
            var blogId := |db.blogs| + 1;
            && GetBlogById(db', blogId) == Ok(Submitted(input))
            && GetBlogs(db').items == GetBlogs(db).items + [Submitted(input).(id := Some(blogId))]
  {
    var db' := Cascade(db, input);
    CascadeRoundTrip(db, input);
    forall i | 0 <= i < |db.blogs|
      ensures Assemble(db', db.blogs[i], true) == Assemble(db, db.blogs[i], true)
    {
      CascadeKeepsDocuments(db, input, db.blogs[i], true);
    }
    ListAppend(db, db', db'.blogs[|db.blogs|]);
  }
}
