/** The seven tables of the relational store, as rows in storage order.
    Every table has an auto-assigned integer primary key; every child table
    carries a non-null foreign key to its parent. */
module Tables {
  import opened Wrappers
  import opened Seqs

  /** A row of the `blog` table; `githubLink` is the one nullable column. */
  datatype Blog = Blog(id: nat, title: string, author: string, readTime: string, date: string,
                       githubLink: Option<string>)

  /** A row of the `introduction` table, under a blog. */
  datatype Introduction = Introduction(id: nat, blogId: nat, summary: string, images: Option<string>)

  /** A row of the `paragraph` table, under a blog; `order` is stored as given. */
  datatype Paragraph = Paragraph(id: nat, blogId: nat, order: int, title: string, content: string,
                                 images: Option<string>)

  /** The layout shared by the `topic`, `bullet_point`, `resource` and
      `acknowledgment` tables: a key, the foreign key of the parent
      (`introduction_id`, `paragraph_id`, `blog_id`, `blog_id`) and one
      non-null text column (`topic`, `point`, `url`, `text`). */
  datatype TextRow = TextRow(id: nat, parentId: nat, text: string)

  datatype Db = Db(
    blogs: seq<Blog>,
    introductions: seq<Introduction>,
    topics: seq<TextRow>,              // parent: introduction
    paragraphs: seq<Paragraph>,
    bulletPoints: seq<TextRow>,        // parent: paragraph
    resources: seq<TextRow>,           // parent: blog
    acknowledgments: seq<TextRow>)     // parent: blog

  const EmptyDb := Db([], [], [], [], [], [], [])

  /** Every row of a text table has key index + 1 and points at one of `parents` parent rows. */
  predicate TextTable(rows: seq<TextRow>, parents: nat) {
    forall i :: 0 <= i < |rows| ==> rows[i].id == i + 1 && 1 <= rows[i].parentId <= parents
  }

  /** The invariant the create cascade keeps: keys are assigned 1, 2, 3, ... in
      insertion order (nothing is ever deleted), every foreign key names an
      existing parent, required blog columns are non-empty and every stored
      introduction has a non-empty summary. */
  predicate WellFormed(db: Db) {
    && (forall i :: 0 <= i < |db.blogs| ==>
          db.blogs[i].id == i + 1 && db.blogs[i].title != "" && db.blogs[i].author != ""
          && db.blogs[i].readTime != "" && db.blogs[i].date != "")
    && (forall i :: 0 <= i < |db.introductions| ==>
          db.introductions[i].id == i + 1 && 1 <= db.introductions[i].blogId <= |db.blogs|
          && db.introductions[i].summary != "")
    && TextTable(db.topics, |db.introductions|)
    && (forall i :: 0 <= i < |db.paragraphs| ==>
          db.paragraphs[i].id == i + 1 && 1 <= db.paragraphs[i].blogId <= |db.blogs|)
    && TextTable(db.bulletPoints, |db.paragraphs|)
    && TextTable(db.resources, |db.blogs|)
    && TextTable(db.acknowledgments, |db.blogs|)
  }

  function HasId(id: nat): Blog -> bool {
    (b: Blog) => b.id == id
  }

  /** Primary-key lookup of a blog (`Blog.query.get(id)`). */
  function FindBlog(blogs: seq<Blog>, id: nat): (r: Option<Blog>)
    ensures r.None? <==> forall i :: 0 <= i < |blogs| ==> blogs[i].id != id
    ensures r.Some? ==> r.value in blogs && r.value.id == id
  {
    First(HasId(id), blogs)
  }

  /** In a well-formed store the blog with key `id` is the one at index `id - 1`. */
  lemma FindBlogAt(db: Db, id: nat)
    requires WellFormed(db) && 1 <= id <= |db.blogs|
    ensures FindBlog(db.blogs, id) == Some(db.blogs[id - 1])
  {
    FirstAt(HasId(id), db.blogs, id - 1);
  }
}
