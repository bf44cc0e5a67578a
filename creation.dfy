/** The create cascade as a function of the store: the request payload, its
    validation, and the rows a successful create appends to each table. The
    store's `CreateBlog` method performs the same inserts step by step and is
    proved to end in `Cascade(db, input)`. */
module Creation {
  import opened Wrappers
  import opened Seqs
  import opened Tables
  import opened Assembler

  /** The `introduction` object of the payload; an absent object reads as all keys absent. */
  datatype IntroductionInput = IntroductionInput(summary: Option<string>, images: Option<string>,
                                                 topics: seq<string>)

  /** One entry of the payload's `paragraph` array. `order`, `title` and
      `content` fill non-null columns, so they are not optional here. */
  datatype ParagraphInput = ParagraphInput(order: int, title: string, content: string,
                                           images: Option<string>, bullets: seq<string>)

  /** The create payload; absent lists read as empty. */
  datatype BlogInput = BlogInput(
    title: Option<string>,
    author: Option<string>,
    readTime: Option<string>,
    date: Option<string>,
    githubLink: Option<string>,
    introduction: IntroductionInput,
    paragraphs: seq<ParagraphInput>,
    resources: seq<string>,
    acknowledgments: seq<string>)

  /** Python truthiness of an optional string: present and non-empty. */
  predicate Truthy(v: Option<string>) {
    v.Some? && v.value != ""
  }

  /** The guard of the create handler: all four required fields are truthy. */
  predicate HasRequiredFields(input: BlogInput) {
    Truthy(input.title) && Truthy(input.author) && Truthy(input.readTime) && Truthy(input.date)
  }

  /** One row per text, keys from `firstId` on, all under `parentId`. */
  function TextRows(parentId: nat, firstId: nat, texts: seq<string>): seq<TextRow> {
    seq(|texts|, i requires 0 <= i < |texts| => TextRow(firstId + i, parentId, texts[i]))
  }

  /** One paragraph row per entry, keys from `firstId` on, all under `blogId`. */
  function ParagraphRows(blogId: nat, firstId: nat, ps: seq<ParagraphInput>): seq<Paragraph> {
    seq(|ps|, i requires 0 <= i < |ps| =>
      Paragraph(firstId + i, blogId, ps[i].order, ps[i].title, ps[i].content, ps[i].images))
  }

  /** The bullet rows of the paragraphs `ps`, whose rows get keys from
      `firstParagraphId` on; bullet keys run from `firstId` on, paragraph by paragraph. */
  function BulletRows(firstParagraphId: nat, firstId: nat, ps: seq<ParagraphInput>): seq<TextRow>
    decreases |ps|
  {
    if ps == [] then []
    else
      var earlier := BulletRows(firstParagraphId, firstId, ps[..|ps| - 1]);
      earlier + TextRows(firstParagraphId + |ps| - 1, firstId + |earlier|, ps[|ps| - 1].bullets)
  }

  /** The store after a create that passed validation: every table keeps its
      rows and gains only new ones at its end, one blog, one introduction when
      the summary is truthy (with its topics), and one row per paragraph,
      resource and acknowledgment of the payload. */
  function Cascade(db: Db, input: BlogInput): (r: Db)
    requires HasRequiredFields(input)
    ensures db.blogs <= r.blogs && db.introductions <= r.introductions && db.topics <= r.topics
            && db.paragraphs <= r.paragraphs && db.bulletPoints <= r.bulletPoints
            && db.resources <= r.resources && db.acknowledgments <= r.acknowledgments
    ensures |r.blogs| == |db.blogs| + 1
    ensures |r.introductions| == |db.introductions| + if Truthy(input.introduction.summary) then 1 else 0
    ensures |r.topics| == |db.topics| +
              if Truthy(input.introduction.summary) then |input.introduction.topics| else 0
    ensures |r.paragraphs| == |db.paragraphs| + |input.paragraphs|
    ensures |r.resources| == |db.resources| + |input.resources|
    ensures |r.acknowledgments| == |db.acknowledgments| + |input.acknowledgments|
  {
    var blogId := |db.blogs| + 1;
    var intro := input.introduction;
    var introId := |db.introductions| + 1;
    var paragraphId := |db.paragraphs| + 1;
    Db(
      db.blogs + [Blog(blogId, input.title.value, input.author.value, input.readTime.value,
                       input.date.value, input.githubLink)],
      db.introductions + (if Truthy(intro.summary)
                          then [Introduction(introId, blogId, intro.summary.value, intro.images)]
                          else []),
      db.topics + (if Truthy(intro.summary)
                   then TextRows(introId, |db.topics| + 1, intro.topics)
                   else []),
      db.paragraphs + ParagraphRows(blogId, paragraphId, input.paragraphs),
      db.bulletPoints + BulletRows(paragraphId, |db.bulletPoints| + 1, input.paragraphs),
      db.resources + TextRows(blogId, |db.resources| + 1, input.resources),
      db.acknowledgments + TextRows(blogId, |db.acknowledgments| + 1, input.acknowledgments))
  }

  function SubmittedParagraph(p: ParagraphInput): ParagraphDoc {
    ParagraphDoc(p.order, p.title, p.content, p.images, p.bullets)
  }

  /** The document a payload describes once absent sections are normalised: an
      introduction without a truthy summary is dropped with its topics. */
  function Submitted(input: BlogInput): Document
    requires HasRequiredFields(input)
  {
    var intro := input.introduction;
    Document(
      None,
      input.title.value, input.author.value, input.readTime.value, input.date.value,
      if Truthy(intro.summary) then IntroductionDoc(intro.summary.value, intro.images, intro.topics)
      else NoIntroduction,
      Map(SubmittedParagraph, input.paragraphs),
      input.resources,
      input.acknowledgments,
      input.githubLink)
  }

  // ---- Shape of the inserted rows ----

  lemma TextRowsTexts(parentId: nat, firstId: nat, texts: seq<string>)
    ensures Texts(TextRows(parentId, firstId, texts), parentId) == texts
  {
    var rows := TextRows(parentId, firstId, texts);
    FilterAll(ChildOf(parentId), rows);
    var mapped := Map(TextOf, rows);
    assert |mapped| == |texts|;
    forall i | 0 <= i < |texts|
      ensures mapped[i] == texts[i]
    {
      assert rows[i] == TextRow(firstId + i, parentId, texts[i]);
      assert mapped[i] == TextOf(rows[i]);
    }
    assert mapped == texts;
  }

  lemma TextRowsOther(parentId: nat, firstId: nat, texts: seq<string>, other: nat)
    requires other != parentId
    ensures Texts(TextRows(parentId, firstId, texts), other) == []
  {
    TextsNone(TextRows(parentId, firstId, texts), other);
  }

  lemma {:induction false} BulletRowsShape(firstParagraphId: nat, firstId: nat, ps: seq<ParagraphInput>)
    ensures forall j :: 0 <= j < |BulletRows(firstParagraphId, firstId, ps)| ==>
              BulletRows(firstParagraphId, firstId, ps)[j].id == firstId + j
              && firstParagraphId <= BulletRows(firstParagraphId, firstId, ps)[j].parentId
              && BulletRows(firstParagraphId, firstId, ps)[j].parentId < firstParagraphId + |ps|
  {
    if ps != [] {
      var init := ps[..|ps| - 1];
      var earlier := BulletRows(firstParagraphId, firstId, init);
      var last := TextRows(firstParagraphId + |ps| - 1, firstId + |earlier|, ps[|ps| - 1].bullets);
      BulletRowsShape(firstParagraphId, firstId, init);
      var rows := earlier + last;
      assert BulletRows(firstParagraphId, firstId, ps) == rows;
      forall j | 0 <= j < |rows|
        ensures rows[j].id == firstId + j
        ensures firstParagraphId <= rows[j].parentId < firstParagraphId + |ps|
      {
        if j < |earlier| {
          assert rows[j] == earlier[j];
          assert earlier[j].id == firstId + j;
        } else {
          assert rows[j] == last[j - |earlier|];
        }
      }
    }
  }

  /** The bullets stored under the i-th new paragraph are that entry's bullets, in order. */
  lemma {:induction false} BulletsOfParagraph(firstParagraphId: nat, firstId: nat, ps: seq<ParagraphInput>, i: nat)
    requires i < |ps|
    ensures Texts(BulletRows(firstParagraphId, firstId, ps), firstParagraphId + i) == ps[i].bullets
  {
    var init := ps[..|ps| - 1];
    var earlier := BulletRows(firstParagraphId, firstId, init);
    var last := TextRows(firstParagraphId + |ps| - 1, firstId + |earlier|, ps[|ps| - 1].bullets);
    assert BulletRows(firstParagraphId, firstId, ps) == earlier + last;
    TextsConcat(earlier, last, firstParagraphId + i);
    if i < |ps| - 1 {
      BulletsOfParagraph(firstParagraphId, firstId, init, i);
      TextRowsOther(firstParagraphId + |ps| - 1, firstId + |earlier|, ps[|ps| - 1].bullets, firstParagraphId + i);
    } else {
      BulletRowsShape(firstParagraphId, firstId, init);
      TextsNone(earlier, firstParagraphId + i);
      TextRowsTexts(firstParagraphId + i, firstId + |earlier|, ps[i].bullets);
    }
  }

  // ---- Properties of the cascade ----

  /** A create keeps the store well-formed. */
  lemma CascadeWellFormed(db: Db, input: BlogInput)
    requires WellFormed(db) && HasRequiredFields(input)
    ensures WellFormed(Cascade(db, input))
  {
    BulletRowsShape(|db.paragraphs| + 1, |db.bulletPoints| + 1, input.paragraphs);
  }

  /** A create only appends: every existing row of every table is unchanged,
      the new blog gets the next key, and every new child row carries the key
      of the parent created with it. */
  lemma CascadeLinksChildren(db: Db, input: BlogInput)
    requires HasRequiredFields(input)
    ensures var db' := Cascade(db, input);
            var blogId := |db.blogs| + 1;
            && db'.blogs[..|db.blogs|] == db.blogs
            && db'.introductions[..|db.introductions|] == db.introductions
            && db'.topics[..|db.topics|] == db.topics
            && db'.paragraphs[..|db.paragraphs|] == db.paragraphs
            && db'.bulletPoints[..|db.bulletPoints|] == db.bulletPoints
            && db'.resources[..|db.resources|] == db.resources
            && db'.acknowledgments[..|db.acknowledgments|] == db.acknowledgments
            && |db'.blogs| == blogId && db'.blogs[blogId - 1].id == blogId
            && (forall i :: |db.introductions| <= i < |db'.introductions| ==> db'.introductions[i].blogId == blogId)
            && (forall i :: |db.topics| <= i < |db'.topics| ==>
                  |db'.introductions| == |db.introductions| + 1
                  && db'.topics[i].parentId == db'.introductions[|db.introductions|].id)
            && (forall i :: |db.paragraphs| <= i < |db'.paragraphs| ==> db'.paragraphs[i].blogId == blogId)
            && (forall i :: 0 <= i < |input.paragraphs| ==>
                  Texts(db'.bulletPoints[|db.bulletPoints|..], db'.paragraphs[|db.paragraphs| + i].id)
                  == input.paragraphs[i].bullets)
            && (forall i :: |db.resources| <= i < |db'.resources| ==> db'.resources[i].parentId == blogId)
            && (forall i :: |db.acknowledgments| <= i < |db'.acknowledgments| ==> db'.acknowledgments[i].parentId == blogId)
  {
    var db' := Cascade(db, input);
    assert db'.bulletPoints[|db.bulletPoints|..] ==
           BulletRows(|db.paragraphs| + 1, |db.bulletPoints| + 1, input.paragraphs);
    forall i | 0 <= i < |input.paragraphs|
      ensures Texts(db'.bulletPoints[|db.bulletPoints|..], db'.paragraphs[|db.paragraphs| + i].id)
              == input.paragraphs[i].bullets
    {
      BulletsOfParagraph(|db.paragraphs| + 1, |db.bulletPoints| + 1, input.paragraphs, i);
    }
  }

  /** Topics are inserted only under an introduction inserted by the same create. */
  lemma NoTopicWithoutIntroduction(db: Db, input: BlogInput)
    requires HasRequiredFields(input)
    ensures !Truthy(input.introduction.summary) ==>
              Cascade(db, input).introductions == db.introductions && Cascade(db, input).topics == db.topics
    ensures Truthy(input.introduction.summary) ==>
              |Cascade(db, input).introductions| == |db.introductions| + 1
  {
  }

  // ---- Reading the store back after a create ----

  /** Rows whose parent key is new to a table hold exactly the texts inserted under it. */
  lemma FreshParentTexts(rows: seq<TextRow>, parents: nat, parentId: nat, firstId: nat, texts: seq<string>)
    requires TextTable(rows, parents) && parentId > parents
    ensures Texts(rows + TextRows(parentId, firstId, texts), parentId) == texts
  {
    TextsConcat(rows, TextRows(parentId, firstId, texts), parentId);
    TextsNone(rows, parentId);
    TextRowsTexts(parentId, firstId, texts);
  }

  /** Appending rows under other parents leaves a parent's texts unchanged. */
  lemma OtherParentTexts(rows: seq<TextRow>, extra: seq<TextRow>, parentId: nat)
    requires forall i :: 0 <= i < |extra| ==> extra[i].parentId != parentId
    ensures Texts(rows + extra, parentId) == Texts(rows, parentId)
  {
    TextsConcat(rows, extra, parentId);
    TextsNone(extra, parentId);
  }

  lemma NewParagraphRowsKept(paragraphs: seq<Paragraph>, blogId: nat, ps: seq<ParagraphInput>)
    requires forall i :: 0 <= i < |paragraphs| ==> paragraphs[i].blogId != blogId
    ensures var added := ParagraphRows(blogId, |paragraphs| + 1, ps);
            Filter(ParagraphOf(blogId), paragraphs + added) == added
  {
    var added := ParagraphRows(blogId, |paragraphs| + 1, ps);
    FilterConcat(ParagraphOf(blogId), paragraphs, added);
    FilterEmpty(ParagraphOf(blogId), paragraphs);
    FilterAll(ParagraphOf(blogId), added);
  }

  /** The document of the i-th new paragraph row is the i-th entry with its bullets. */
  lemma NewParagraphDoc(bulletPoints: seq<TextRow>, paragraphCount: nat, blogId: nat,
                        firstBulletId: nat, ps: seq<ParagraphInput>, i: nat)
    requires TextTable(bulletPoints, paragraphCount) && i < |ps|
    ensures var firstParagraphId := paragraphCount + 1;
            ParagraphDocOf(bulletPoints + BulletRows(firstParagraphId, firstBulletId, ps))
              (ParagraphRows(blogId, firstParagraphId, ps)[i])
            == SubmittedParagraph(ps[i])
  {
    var firstParagraphId := paragraphCount + 1;
    var bullets := BulletRows(firstParagraphId, firstBulletId, ps);
    TextsConcat(bulletPoints, bullets, firstParagraphId + i);
    TextsNone(bulletPoints, firstParagraphId + i);
    BulletsOfParagraph(firstParagraphId, firstBulletId, ps, i);
  }

  /** The paragraphs of a blog whose key is new to the paragraph table are
      exactly the entries inserted under it, each with its own bullets. */
  lemma NewParagraphDocs(paragraphs: seq<Paragraph>, bulletPoints: seq<TextRow>, blogId: nat,
                         firstBulletId: nat, ps: seq<ParagraphInput>)
    requires forall i :: 0 <= i < |paragraphs| ==> paragraphs[i].blogId != blogId
    requires TextTable(bulletPoints, |paragraphs|)
    ensures var firstParagraphId := |paragraphs| + 1;
            Map(ParagraphDocOf(bulletPoints + BulletRows(firstParagraphId, firstBulletId, ps)),
                Filter(ParagraphOf(blogId), paragraphs + ParagraphRows(blogId, firstParagraphId, ps)))
            == Map(SubmittedParagraph, ps)
  {
    var firstParagraphId := |paragraphs| + 1;
    var added := ParagraphRows(blogId, firstParagraphId, ps);
    var docOf := ParagraphDocOf(bulletPoints + BulletRows(firstParagraphId, firstBulletId, ps));
    NewParagraphRowsKept(paragraphs, blogId, ps);
    var docs := Map(docOf, added);
    forall i | 0 <= i < |ps|
      ensures docs[i] == Map(SubmittedParagraph, ps)[i]
    {
      NewParagraphDoc(bulletPoints, |paragraphs|, blogId, firstBulletId, ps, i);
    }
  }

  lemma CascadeParagraphs(db: Db, input: BlogInput)
    requires WellFormed(db) && HasRequiredFields(input)
    ensures ParagraphDocs(Cascade(db, input), |db.blogs| + 1) == Map(SubmittedParagraph, input.paragraphs)
  {
    NewParagraphDocs(db.paragraphs, db.bulletPoints, |db.blogs| + 1, |db.bulletPoints| + 1, input.paragraphs);
  }

  /** Round trip: after a create on a well-formed store, the new blog is found
      under the next key and assembles to the submitted document. */
  lemma CascadeRoundTrip(db: Db, input: BlogInput)
    requires WellFormed(db) && HasRequiredFields(input)
    ensures var db' := Cascade(db, input);
            && FindBlog(db'.blogs, |db.blogs| + 1) == Some(db'.blogs[|db.blogs|])
            && Assemble(db', db'.blogs[|db.blogs|], false) == Submitted(input)
  {
    var db' := Cascade(db, input);
    var blogId := |db.blogs| + 1;
    var intro := input.introduction;
    CascadeWellFormed(db, input);
    FindBlogAt(db', blogId);
    var blog := db'.blogs[|db.blogs|];
    if Truthy(intro.summary) {
      FirstIntroductionUsed(db', blog, false, |db.introductions|);
      FreshParentTexts(db.topics, |db.introductions|, |db.introductions| + 1, |db.topics| + 1, intro.topics);
    } else {
      MissingIntroductionNormalises(db', blog, false);
    }
    CascadeParagraphs(db, input);
    FreshParentTexts(db.resources, |db.blogs|, blogId, |db.resources| + 1, input.resources);
    FreshParentTexts(db.acknowledgments, |db.blogs|, blogId, |db.acknowledgments| + 1, input.acknowledgments);
  }

  /** Introductions appended under other blogs, and topics appended under
      introductions that did not exist before, leave a blog's introduction unchanged. */
  lemma IntroductionExtended(db: Db, db': Db, blogId: nat)
    requires var n := |db.introductions|;
             && n <= |db'.introductions| && db'.introductions[..n] == db.introductions
             && (forall i :: n <= i < |db'.introductions| ==> db'.introductions[i].blogId != blogId)
             && (forall i :: 0 <= i < n ==> db.introductions[i].id <= n)
             && |db.topics| <= |db'.topics| && db'.topics[..|db.topics|] == db.topics
             && (forall i :: |db.topics| <= i < |db'.topics| ==> db'.topics[i].parentId > n)
    ensures IntroductionDocOf(db', blogId) == IntroductionDocOf(db, blogId)
  {
    var extraIntros := db'.introductions[|db.introductions|..];
    assert db'.introductions == db.introductions + extraIntros;
    FirstAppendNone(IntroductionOf(blogId), db.introductions, extraIntros);
    match First(IntroductionOf(blogId), db.introductions) {
      case None =>
      case Some(intro) =>
        assert intro.id <= |db.introductions|;
        assert db'.topics == db.topics + db'.topics[|db.topics|..];
        OtherParentTexts(db.topics, db'.topics[|db.topics|..], intro.id);
    }
  }

  /** Paragraphs appended under other blogs, and bullets appended under
      paragraphs that did not exist before, leave a blog's paragraphs unchanged. */
  lemma ParagraphsExtended(db: Db, db': Db, blogId: nat)
    requires var m := |db.paragraphs|;
             && m <= |db'.paragraphs| && db'.paragraphs[..m] == db.paragraphs
             && (forall i :: m <= i < |db'.paragraphs| ==> db'.paragraphs[i].blogId != blogId)
             && (forall i :: 0 <= i < m ==> db.paragraphs[i].id <= m)
             && |db.bulletPoints| <= |db'.bulletPoints| && db'.bulletPoints[..|db.bulletPoints|] == db.bulletPoints
             && (forall i :: |db.bulletPoints| <= i < |db'.bulletPoints| ==> db'.bulletPoints[i].parentId > m)
    ensures ParagraphDocs(db', blogId) == ParagraphDocs(db, blogId)
  {
    var extraParagraphs := db'.paragraphs[|db.paragraphs|..];
    var extraBullets := db'.bulletPoints[|db.bulletPoints|..];
    assert db'.paragraphs == db.paragraphs + extraParagraphs;
    assert db'.bulletPoints == db.bulletPoints + extraBullets;
    FilterConcat(ParagraphOf(blogId), db.paragraphs, extraParagraphs);
    FilterEmpty(ParagraphOf(blogId), extraParagraphs);
    var kept := Filter(ParagraphOf(blogId), db.paragraphs);
    assert Filter(ParagraphOf(blogId), db'.paragraphs) == kept;
    forall i | 0 <= i < |kept|
      ensures ParagraphDocOf(db'.bulletPoints)(kept[i]) == ParagraphDocOf(db.bulletPoints)(kept[i])
    {
      FilterMember(ParagraphOf(blogId), db.paragraphs, kept[i]);
      assert kept[i].id <= |db.paragraphs|;
      OtherParentTexts(db.bulletPoints, extraBullets, kept[i].id);
    }
  }

  /** Rows appended under other parents leave a parent's texts unchanged. */
  lemma TextsExtended(rows: seq<TextRow>, rows': seq<TextRow>, parentId: nat)
    requires |rows| <= |rows'| && rows'[..|rows|] == rows
    requires forall i :: |rows| <= i < |rows'| ==> rows'[i].parentId != parentId
    ensures Texts(rows', parentId) == Texts(rows, parentId)
  {
    assert rows' == rows + rows'[|rows|..];
    OtherParentTexts(rows, rows'[|rows|..], parentId);
  }

  /** A create leaves the document of every blog already stored unchanged. */
  lemma CascadeKeepsDocuments(db: Db, input: BlogInput, blog: Blog, includeId: bool)
    requires WellFormed(db) && HasRequiredFields(input) && blog in db.blogs
    ensures Assemble(Cascade(db, input), blog, includeId) == Assemble(db, blog, includeId)
  {
    var db' := Cascade(db, input);
    assert blog.id <= |db.blogs|;
    CascadeLinksChildren(db, input);
    BulletRowsShape(|db.paragraphs| + 1, |db.bulletPoints| + 1, input.paragraphs);
    assert forall i :: |db.bulletPoints| <= i < |db'.bulletPoints| ==>
      db'.bulletPoints[i] == BulletRows(|db.paragraphs| + 1, |db.bulletPoints| + 1, input.paragraphs)[i - |db.bulletPoints|];
    IntroductionExtended(db, db', blog.id);
    ParagraphsExtended(db, db', blog.id);
    TextsExtended(db.resources, db'.resources, blog.id);
    TextsExtended(db.acknowledgments, db'.acknowledgments, blog.id);
  }
}
