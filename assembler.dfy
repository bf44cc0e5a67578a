/** The document assembler: rebuilds the nested blog document from the flat
    tables by filtering each child table on its foreign key. The list, the
    get-by-id and the search handlers all assemble documents this way; they
    differ only in whether the document carries the blog's `id`. */
module Assembler {
  import opened Wrappers
  import opened Seqs
  import opened Tables

  datatype IntroductionDoc = IntroductionDoc(summary: string, images: Option<string>, topics: seq<string>)

  datatype ParagraphDoc = ParagraphDoc(order: int, title: string, content: string, images: Option<string>,
                                       bullets: seq<string>)

  /** The response document; `id == None` means the `id` key is absent. */
  datatype Document = Document(
    id: Option<nat>,
    title: string,
    author: string,
    readTime: string,
    date: string,
    introduction: IntroductionDoc,
    paragraphs: seq<ParagraphDoc>,
    resources: seq<string>,
    acknowledgments: seq<string>,
    githubLink: Option<string>)

  /** The introduction of a blog that has none. */
  const NoIntroduction := IntroductionDoc("", Some(""), [])

  function ChildOf(parentId: nat): TextRow -> bool {
    (r: TextRow) => r.parentId == parentId
  }

  function TextOf(r: TextRow): string {
    r.text
  }

  /** Some row of `rows` under `parentId` holds the text `t`. */
  predicate StoredUnder(rows: seq<TextRow>, parentId: nat, t: string) {
    exists i :: 0 <= i < |rows| && rows[i].parentId == parentId && rows[i].text == t
  }

  /** The text column of the rows under `parentId`, in storage order: every
      text comes from a row under the parent, and every such row contributes. */
  function Texts(rows: seq<TextRow>, parentId: nat): (r: seq<string>)
    ensures |r| <= |rows|
    ensures forall k :: 0 <= k < |r| ==>
              StoredUnder(rows, parentId, r[k])
    ensures forall i :: 0 <= i < |rows| && rows[i].parentId == parentId ==> rows[i].text in r
  {
    var r := Map(TextOf, Filter(ChildOf(parentId), rows));
    TextsOfKept(rows, parentId, r);
    r
  }

  lemma {:induction false} TextsOfKept(rows: seq<TextRow>, parentId: nat, r: seq<string>)
    requires r == Map(TextOf, Filter(ChildOf(parentId), rows))
    ensures forall k :: 0 <= k < |r| ==>
              StoredUnder(rows, parentId, r[k])
    ensures forall i :: 0 <= i < |rows| && rows[i].parentId == parentId ==> rows[i].text in r
  {
    var kept := Filter(ChildOf(parentId), rows);
    assert |r| == |kept|;
    forall k | 0 <= k < |r|
      ensures StoredUnder(rows, parentId, r[k])
    {
      var x := kept[k];
      FilterMember(ChildOf(parentId), rows, x);
      assert x in rows && x.parentId == parentId;
      var i :| 0 <= i < |rows| && rows[i] == x;
      assert r[k] == TextOf(x);
    }
    forall i | 0 <= i < |rows| && rows[i].parentId == parentId
      ensures rows[i].text in r
    {
      var x := rows[i];
      FilterMember(ChildOf(parentId), rows, x);
      assert x in kept;
      var k :| 0 <= k < |kept| && kept[k] == x;
      assert r[k] == TextOf(x);
    }
  }

  function IntroductionOf(blogId: nat): Introduction -> bool {
    (r: Introduction) => r.blogId == blogId
  }

  function ParagraphOf(blogId: nat): Paragraph -> bool {
    (r: Paragraph) => r.blogId == blogId
  }

  /** The first introduction of the blog with its topics, or empty values when there is none. */
  function IntroductionDocOf(db: Db, blogId: nat): IntroductionDoc {
    match First(IntroductionOf(blogId), db.introductions)
    case None => NoIntroduction
    case Some(intro) => IntroductionDoc(intro.summary, intro.images, Texts(db.topics, intro.id))
  }

  function ParagraphDocOf(bulletPoints: seq<TextRow>): Paragraph -> ParagraphDoc {
    (p: Paragraph) => ParagraphDoc(p.order, p.title, p.content, p.images, Texts(bulletPoints, p.id))
  }

  /** `d` is the document of some paragraph row under the blog, with that row's bullet points. */
  predicate ParagraphStored(db: Db, blogId: nat, d: ParagraphDoc) {
    exists i :: 0 <= i < |db.paragraphs| && db.paragraphs[i].blogId == blogId
                && d == ParagraphDocOf(db.bulletPoints)(db.paragraphs[i])
  }

  /** The paragraph documents of the blog, one per paragraph row under it. */
  function ParagraphDocs(db: Db, blogId: nat): (r: seq<ParagraphDoc>)
    ensures |r| <= |db.paragraphs|
    ensures forall k :: 0 <= k < |r| ==> ParagraphStored(db, blogId, r[k])
  {
    var kept := Filter(ParagraphOf(blogId), db.paragraphs);
    var r := Map(ParagraphDocOf(db.bulletPoints), kept);
    forall k | 0 <= k < |r|
      ensures ParagraphStored(db, blogId, r[k])
    {
      var x := kept[k];
      FilterMember(ParagraphOf(blogId), db.paragraphs, x);
      var i :| 0 <= i < |db.paragraphs| && db.paragraphs[i] == x;
      assert r[k] == ParagraphDocOf(db.bulletPoints)(x);
    }
    r
  }

  /** The document of `blog`: its own columns copied through, the first
      introduction under it (or none), and its paragraphs, resources and
      acknowledgments, each drawn from rows whose foreign key is the blog's id. */
  function Assemble(db: Db, blog: Blog, includeId: bool): (r: Document)
    ensures r.id.Some? <==> includeId
    ensures r.id.Some? ==> r.id.value == blog.id
    ensures r.title == blog.title && r.author == blog.author && r.readTime == blog.readTime
            && r.date == blog.date && r.githubLink == blog.githubLink
    ensures (forall i :: 0 <= i < |db.introductions| ==> db.introductions[i].blogId != blog.id)
            ==> r.introduction == NoIntroduction
    ensures r.introduction == NoIntroduction
            || exists i :: 0 <= i < |db.introductions| && db.introductions[i].blogId == blog.id
                 && r.introduction.summary == db.introductions[i].summary
                 && r.introduction.images == db.introductions[i].images
    ensures |r.paragraphs| <= |db.paragraphs|
    ensures forall k :: 0 <= k < |r.paragraphs| ==> ParagraphStored(db, blog.id, r.paragraphs[k])
    ensures forall k :: 0 <= k < |r.resources| ==> StoredUnder(db.resources, blog.id, r.resources[k])
    ensures forall k :: 0 <= k < |r.acknowledgments| ==>
              StoredUnder(db.acknowledgments, blog.id, r.acknowledgments[k])
  {
    Document(
      if includeId then Some(blog.id) else None,
      blog.title, blog.author, blog.readTime, blog.date,
      IntroductionDocOf(db, blog.id),
      ParagraphDocs(db, blog.id),
      Texts(db.resources, blog.id),
      Texts(db.acknowledgments, blog.id),
      blog.githubLink)
  }

  // ---- Texts: the rows under one parent, in storage order ----

  lemma TextsConcat(a: seq<TextRow>, b: seq<TextRow>, parentId: nat)
    ensures Texts(a + b, parentId) == Texts(a, parentId) + Texts(b, parentId)
  {
    FilterConcat(ChildOf(parentId), a, b);
    MapConcat(TextOf, Filter(ChildOf(parentId), a), Filter(ChildOf(parentId), b));
  }

  /** Appending one row extends the list exactly when the row is under the parent. */
  lemma TextsAppendRow(rows: seq<TextRow>, r: TextRow, parentId: nat)
    ensures Texts(rows + [r], parentId) ==
            Texts(rows, parentId) + (if r.parentId == parentId then [r.text] else [])
  {
    TextsConcat(rows, [r], parentId);
    assert [r][1..] == [];
    var kept := Filter(ChildOf(parentId), [r]);
    assert kept == (if r.parentId == parentId then [r] else []);
    assert Texts([r], parentId) == Map(TextOf, kept);
    if r.parentId == parentId {
      assert Map(TextOf, [r])[0] == r.text;
    } else {
      assert Map(TextOf, kept) == [];
    }
  }

  lemma TextsNone(rows: seq<TextRow>, parentId: nat)
    requires forall i :: 0 <= i < |rows| ==> rows[i].parentId != parentId
    ensures Texts(rows, parentId) == []
  {
    FilterEmpty(ChildOf(parentId), rows);
  }

  // ---- The introduction section ----

  lemma MissingIntroductionNormalises(db: Db, blog: Blog, includeId: bool)
    requires forall i :: 0 <= i < |db.introductions| ==> db.introductions[i].blogId != blog.id
    ensures Assemble(db, blog, includeId).introduction == IntroductionDoc("", Some(""), [])
  {
  }

  /** With several introductions under the blog, the first one in storage order is used. */
  lemma FirstIntroductionUsed(db: Db, blog: Blog, includeId: bool, i: nat)
    requires i < |db.introductions| && db.introductions[i].blogId == blog.id
    requires forall j :: 0 <= j < i ==> db.introductions[j].blogId != blog.id
    ensures Assemble(db, blog, includeId).introduction ==
            IntroductionDoc(db.introductions[i].summary, db.introductions[i].images,
                            Texts(db.topics, db.introductions[i].id))
  {
    FirstAt(IntroductionOf(blog.id), db.introductions, i);
  }

  // ---- The paragraph section ----

  /** One document per paragraph row under the blog, in storage order: a row
      appended to the table comes last whatever its `order`, which is copied
      through and never used to sort. */
  lemma ParagraphsInStorageOrder(db: Db, blogId: nat, p: Paragraph)
    ensures ParagraphDocs(db.(paragraphs := db.paragraphs + [p]), blogId) ==
            ParagraphDocs(db, blogId) +
            (if p.blogId == blogId
             then [ParagraphDoc(p.order, p.title, p.content, p.images, Texts(db.bulletPoints, p.id))]
             else [])
  {
    FilterConcat(ParagraphOf(blogId), db.paragraphs, [p]);
    assert Filter(ParagraphOf(blogId), [p]) ==
           (if p.blogId == blogId then [p] else []) + Filter(ParagraphOf(blogId), []);
    MapConcat(ParagraphDocOf(db.bulletPoints), Filter(ParagraphOf(blogId), db.paragraphs),
              Filter(ParagraphOf(blogId), [p]));
  }
}
