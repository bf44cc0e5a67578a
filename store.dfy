/** The relational store as an object whose seven tables are appended to in
    place, and the create handler that inserts a blog and all its children. */
module Store {
  import opened Wrappers
  import opened Tables
  import opened Creation
  import opened Handlers

  class BlogStore {
    var blogs: seq<Blog>
    var introductions: seq<Introduction>
    var topics: seq<TextRow>
    var paragraphs: seq<Paragraph>
    var bulletPoints: seq<TextRow>
    var resources: seq<TextRow>
    var acknowledgments: seq<TextRow>

    /** The current contents of the tables, which the read handlers take. */
    function Tables(): Db
      reads this
    {
      Db(blogs, introductions, topics, paragraphs, bulletPoints, resources, acknowledgments)
    }

    predicate Valid()
      reads this
    {
      WellFormed(Tables())
    }

    constructor ()
      ensures Valid() && Tables() == EmptyDb
    {
      blogs, introductions, topics, paragraphs := [], [], [], [];
      bulletPoints, resources, acknowledgments := [], [], [];
    }

    /** Adds a blog row under the next key. */
    method InsertBlog(title: string, author: string, readTime: string, date: string,
                      githubLink: Option<string>) returns (id: nat)
      requires Valid()
      requires title != "" && author != "" && readTime != "" && date != ""
      modifies this
      ensures Valid()
      ensures id == |old(blogs)| + 1
      ensures Tables() == old(Tables()).(blogs := old(blogs) + [Blog(id, title, author, readTime, date, githubLink)])
    {
      id := |blogs| + 1;
      blogs := blogs + [Blog(id, title, author, readTime, date, githubLink)];
    }

    /** Adds an introduction row under the next key. */
    method InsertIntroduction(blogId: nat, summary: string, images: Option<string>) returns (id: nat)
      requires Valid() && 1 <= blogId <= |blogs| && summary != ""
      modifies this
      ensures Valid()
      ensures id == |old(introductions)| + 1
      ensures Tables() == old(Tables()).(
                introductions := old(introductions) + [Introduction(id, blogId, summary, images)])
    {
      id := |introductions| + 1;
      introductions := introductions + [Introduction(id, blogId, summary, images)];
    }

    /** Adds one topic row per text under the introduction, in order. */
    method InsertTopics(introductionId: nat, texts: seq<string>)
      requires Valid() && 1 <= introductionId <= |introductions|
      modifies this
      ensures Valid()
      ensures Tables() == old(Tables()).(
                topics := old(topics) + TextRows(introductionId, |old(topics)| + 1, texts))
    {
      var i := 0;
      while i < |texts|
        invariant 0 <= i <= |texts|
        invariant Valid()
        invariant Tables() == old(Tables()).(
                    topics := old(topics) + TextRows(introductionId, |old(topics)| + 1, texts[..i]))
      {
        topics := topics + [TextRow(|topics| + 1, introductionId, texts[i])];
        assert texts[..i + 1] == texts[..i] + [texts[i]];
        i := i + 1;
      }
      assert texts[..i] == texts;
    }

    /** Adds one bullet row per text under the paragraph, in order. */
    method InsertBullets(paragraphId: nat, texts: seq<string>)
      requires Valid() && 1 <= paragraphId <= |paragraphs|
      modifies this
      ensures Valid()
      ensures Tables() == old(Tables()).(
                bulletPoints := old(bulletPoints) + TextRows(paragraphId, |old(bulletPoints)| + 1, texts))
    {
      var i := 0;
      while i < |texts|
        invariant 0 <= i <= |texts|
        invariant Valid()
        invariant Tables() == old(Tables()).(
                    bulletPoints := old(bulletPoints) + TextRows(paragraphId, |old(bulletPoints)| + 1, texts[..i]))
      {
        bulletPoints := bulletPoints + [TextRow(|bulletPoints| + 1, paragraphId, texts[i])];
        assert texts[..i + 1] == texts[..i] + [texts[i]];
        i := i + 1;
      }
      assert texts[..i] == texts;
    }

    /** Adds a paragraph row under the next key, then its bullets. */
    method InsertParagraph(blogId: nat, p: ParagraphInput) returns (id: nat)
      requires Valid() && 1 <= blogId <= |blogs|
      modifies this
      ensures Valid()
      ensures id == |old(paragraphs)| + 1
      ensures Tables() == old(Tables()).(
                paragraphs := old(paragraphs) + [Paragraph(id, blogId, p.order, p.title, p.content, p.images)],
                bulletPoints := old(bulletPoints) + TextRows(id, |old(bulletPoints)| + 1, p.bullets))
    {
      id := |paragraphs| + 1;
      paragraphs := paragraphs + [Paragraph(id, blogId, p.order, p.title, p.content, p.images)];
      InsertBullets(id, p.bullets);
    }

    /** Adds the paragraphs under the blog, in order, each followed by its bullets. */
    method InsertParagraphs(blogId: nat, ps: seq<ParagraphInput>)
      requires Valid() && 1 <= blogId <= |blogs|
      modifies this
      ensures Valid()
      ensures Tables() == old(Tables()).(
                paragraphs := old(paragraphs) + ParagraphRows(blogId, |old(paragraphs)| + 1, ps),
                bulletPoints := old(bulletPoints) + BulletRows(|old(paragraphs)| + 1, |old(bulletPoints)| + 1, ps))
    {
      var firstParagraphId := |paragraphs| + 1;
      var firstBulletId := |bulletPoints| + 1;
      var i := 0;
      while i < |ps|
        invariant 0 <= i <= |ps|
        invariant Valid()
        invariant Tables() == old(Tables()).(
                    paragraphs := old(paragraphs) + ParagraphRows(blogId, firstParagraphId, ps[..i]),
                    bulletPoints := old(bulletPoints) + BulletRows(firstParagraphId, firstBulletId, ps[..i]))
      {
        var paragraphId := InsertParagraph(blogId, ps[i]);
        assert ps[..i + 1][..i] == ps[..i];
        assert ParagraphRows(blogId, firstParagraphId, ps[..i + 1]) ==
               ParagraphRows(blogId, firstParagraphId, ps[..i])
               + [Paragraph(paragraphId, blogId, ps[i].order, ps[i].title, ps[i].content, ps[i].images)];
        i := i + 1;
      }
      assert ps[..i] == ps;
    }

    /** Adds one resource row per URL under the blog, in order. */
    method InsertResources(blogId: nat, urls: seq<string>)
      requires Valid() && 1 <= blogId <= |blogs|
      modifies this
      ensures Valid()
      ensures Tables() == old(Tables()).(
                resources := old(resources) + TextRows(blogId, |old(resources)| + 1, urls))
    {
      var i := 0;
      while i < |urls|
        invariant 0 <= i <= |urls|
        invariant Valid()
        invariant Tables() == old(Tables()).(
                    resources := old(resources) + TextRows(blogId, |old(resources)| + 1, urls[..i]))
      {
        resources := resources + [TextRow(|resources| + 1, blogId, urls[i])];
        assert urls[..i + 1] == urls[..i] + [urls[i]];
        i := i + 1;
      }
      assert urls[..i] == urls;
    }

    /** Adds one acknowledgment row per text under the blog, in order. */
    method InsertAcknowledgments(blogId: nat, texts: seq<string>)
      requires Valid() && 1 <= blogId <= |blogs|
      modifies this
      ensures Valid()
      ensures Tables() == old(Tables()).(
                acknowledgments := old(acknowledgments) + TextRows(blogId, |old(acknowledgments)| + 1, texts))
    {
      var i := 0;
      while i < |texts|
        invariant 0 <= i <= |texts|
        invariant Valid()
        invariant Tables() == old(Tables()).(
                    acknowledgments := old(acknowledgments) + TextRows(blogId, |old(acknowledgments)| + 1, texts[..i]))
      {
        acknowledgments := acknowledgments + [TextRow(|acknowledgments| + 1, blogId, texts[i])];
        assert texts[..i + 1] == texts[..i] + [texts[i]];
        i := i + 1;
      }
      assert texts[..i] == texts;
    }

    /** `POST /api/blog`. A payload missing a required field is rejected with
        400 before any row is written; otherwise the blog, its introduction
        (only for a truthy summary) with its topics, its paragraphs with their
        bullets, its resources and its acknowledgments are inserted in that
        order, each child under the key of the parent just inserted, and the
        new blog's key is returned. */
    method CreateBlog(input: BlogInput) returns (r: Response)
      requires Valid()
      modifies this
      ensures Valid()
      ensures !HasRequiredFields(input) ==>
                r == BadRequest(MissingFieldsError) && Tables() == old(Tables())
      ensures HasRequiredFields(input) ==>
                r == Created(|old(blogs)| + 1) && Tables() == Cascade(old(Tables()), input)
    {
      if !HasRequiredFields(input) {
        return BadRequest(MissingFieldsError);
      }
      var blogId := InsertBlog(input.title.value, input.author.value, input.readTime.value,
                               input.date.value, input.githubLink);

      var intro := input.introduction;
      if Truthy(intro.summary) {
        var introId := InsertIntroduction(blogId, intro.summary.value, intro.images);
        InsertTopics(introId, intro.topics);
      }
      InsertParagraphs(blogId, input.paragraphs);
      InsertResources(blogId, input.resources);
      InsertAcknowledgments(blogId, input.acknowledgments);
      r := Created(blogId);
    }
  }
}
