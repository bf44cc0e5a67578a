# Blog backend: relational store, create cascade, document assembler, search

This project models the core of a small blog backend. The backend stores blog
posts in seven tables: blog, introduction, topic, paragraph, bullet point,
resource and acknowledgment. It serves four endpoints: create a blog, list all
blogs, get a blog by id, and search blogs by keyword. Every read rebuilds the
nested blog document from the flat tables.

The model has eight modules, one file each:

- `Tables` (tables.dfy): the seven tables as sequences of rows in storage order (`Db`).
  - Key rule: row `i` has key `i + 1`. With no deletes, SQLite's next rowid is `max + 1`, so a new row's key is the table length plus one.
  - `WellFormed` is the store invariant. It says keys are sequential, every foreign key names an existing parent, required blog columns are non-empty, and every introduction summary is non-empty.
  - Topic, bullet point, resource and acknowledgment rows all have the same layout: key, non-null foreign key, one non-null text column. They share the row type `TextRow(id, parentId, text)`.
- `Assembler` (assembler.dfy): the document assembler. It is written once as `Assemble(db, blog, includeId)`. Each child list filters its table on the foreign key and keeps storage order. Only the first introduction is used. A blog with no introduction gets `summary == ""`, `images == ""` and no topics.
- `Creation` (creation.dfy): the create payload and its validation.
  - `Cascade(db, input)` is the store after a create that passed validation.
  - The lemmas prove four things about it: the invariant is kept, every child carries its new parent's key, existing rows and documents stay unchanged, and the round trip holds.
- `Search` (search.dfy): the keyword filter, a case-insensitive substring match on title, author or GitHub link.
- `Handlers` (handlers.dfy): the HTTP outcomes as a `Response` datatype (`Created`, `Ok`, `OkList`, `BadRequest`, `NotFound`) and the three read handlers as functions of the tables.
- `Store` (store.dfy): class `BlogStore`, with one `seq` field per table. Its methods append rows in place. `CreateBlog` runs the source's insert loops and is proved to end in `Cascade(old(Tables()), input)`.
- `Seqs`, `Wrappers` (seqs.dfy, wrappers.dfy): filter, map and first-match on sequences, and `Option`.

Row order is storage order in every read: the model assumes that a query with no `ORDER BY` returns rows in insertion order. A paragraph's `order` column is stored and copied into the document, but never used to sort.

## Model

| member | source | states |
|---|---|---|
| `Tables.FindBlog` | app.py:178-180 | The primary-key lookup finds nothing exactly when no blog row has the key; what it finds is a stored row with that key |
| `Tables.FindBlogAt` | app.py:178 | In a well-formed store the blog with key `id` is the row at index `id - 1` |
| `Seqs.First` | app.py:137 | `.first()` on a filtered query is empty exactly when no row matches, and otherwise is a matching stored row |
| `Assembler.TextsAppendRow` | app.py:150-151 | A child list holds the rows whose foreign key is the parent's key, in storage order: appending a row extends the list exactly when the row is under that parent |
| `Assembler.Texts` | app.py:150-151 | Every text in a child list comes from a row under the parent, and every row under the parent contributes its text |
| `Assembler.ParagraphDocs` | app.py:139-149 | Every paragraph document is built from a paragraph row under the blog, with that row's own bullet points |
| `Assembler.Assemble` | app.py:137-167 | The assembled document (the same code as app.py:182-212 and app.py:238-268) carries the id only when asked; copies the blog's own columns; uses no introduction when none is under the blog, and otherwise one under it; draws every paragraph, resource and acknowledgment from rows under the blog |
| `Assembler.MissingIntroductionNormalises` | app.py:158-162 | A blog with no introduction row gets summary `""`, images `""` and an empty topic list |
| `Assembler.FirstIntroductionUsed` | app.py:137-138 | With several introductions under a blog, the first in storage order supplies summary, images and topics |
| `Assembler.ParagraphsInStorageOrder` | app.py:139-149 | Paragraph documents follow storage order: an appended paragraph row comes last whatever its `order`, with `order` copied and its bullets filtered by its key |
| `Creation.Cascade` | app.py:71-119 | A successful create only appends: every table keeps its old rows as a prefix; one blog row is added, one introduction exactly when the summary is truthy, its topics only then, and one row per paragraph, resource and acknowledgment of the payload |
| `Creation.BulletRowsShape` | app.py:92-105 | Bullet rows get consecutive keys, and each points at one of the paragraphs inserted with them |
| `Creation.BulletsOfParagraph` | app.py:101-105 | The bullets stored under the i-th new paragraph are exactly that entry's bullets, in input order |
| `Creation.CascadeWellFormed` | app.py:71-119 | A successful create keeps the store invariant (sequential keys, foreign keys to existing parents, required fields non-empty) |
| `Creation.CascadeLinksChildren` | app.py:71-117 | A create only appends: existing rows of every table are unchanged; the blog gets the next key; introduction, paragraph, resource and acknowledgment rows carry the new blog's key; topics carry the new introduction's key; each paragraph's bullets are under that paragraph's key |
| `Creation.NoTopicWithoutIntroduction` | app.py:76-88 | Without a truthy summary no introduction and no topic row is inserted; with one exactly one introduction row is |
| `Creation.CascadeParagraphs` | app.py:91-105 | The new blog's paragraph documents are the input entries, in order, each with its own bullets |
| `Creation.CascadeRoundTrip` | app.py:71-119 | After a create, the new blog is found under the next key and assembles to the submitted document, with absent sections normalised |
| `Creation.CascadeKeepsDocuments` | app.py:71-119 | A create leaves the assembled document of every previously stored blog unchanged |
| `Search.Lower` | app.py:226 | Lowercasing keeps the length, maps each upper-case ASCII letter to its lower-case letter and leaves every other character as it is |
| `Search.ContainsAt` | app.py:231-233 | A keyword found at some offset of a field is contained in it |
| `Search.ContainsOffset` | app.py:231-233 | A contained keyword occurs at some offset of the field |
| `Search.ContainsIff` | app.py:231-233 | Containment is occurrence at some offset, in both directions |
| `Search.ILike` | app.py:231-233 | `ilike('%keyword%')` holds exactly when the lower-cased keyword occurs at some offset of the lower-cased field |
| `Search.Hits` | app.py:230-234 | The search query returns only stored blogs that match, and every stored blog that matches |
| `Search.ILikeOccurrence` | app.py:231-233 | A field whose lower-cased text contains the lower-cased keyword matches the keyword, whatever the case of either |
| `Search.ILikeVerbatim` | app.py:231-233 | A field with the keyword inside it verbatim matches the keyword |
| `Search.HitsMember` | app.py:230-234 | The search query keeps exactly the stored blogs whose title, author or GitHub link matches |
| `Search.HitsIgnoreKeywordCase` | app.py:226-234 | Lowercasing the keyword first does not change the blogs found |
| `Search.NoLinkMatchesTitleOrAuthor` | app.py:233 | A blog with no GitHub link matches only through its title or author |
| `Handlers.GetBlogs` | app.py:132-171 | Listing answers 200 with one document per stored blog, in storage order, each carrying its blog's id |
| `Handlers.GetBlogById` | app.py:176-217 | 404 "Blog not found" exactly when no blog has the key; otherwise 200 with a document that has no `id` |
| `Handlers.SearchBlogs` | app.py:224-273 | An empty keyword answers 400 "Keyword is required"; any other answers 200 with a list whose documents carry ids |
| `Handlers.SearchInStorageOrder` | app.py:230-268 | For a non-empty keyword the search result is the full list filtered on the keyword: the same documents, in storage order, each once |
| `Handlers.SearchFindsExactly` | app.py:230-268 | A blog's document is in the search result exactly when the blog matches the keyword |
| `Handlers.SearchWithinList` | app.py:236-268 | Every search document is also a document of the full list: search builds the same documents |
| `Handlers.SearchNoMatch` | app.py:230-273 | A keyword matching no blog answers 200 with an empty list, not an error |
| `Handlers.SearchFindsTitleFragment` | app.py:231 | Searching for a fragment of a blog's title, in any case (the lower-cased keyword occurs in the lower-cased title), finds that blog |
| `Handlers.GetByIdOmitsOnlyId` | app.py:182-212 | The get-by-id document equals the list document of the same blog with the `id` removed |
| `Handlers.ListedInjective` | app.py:153 | In a well-formed store different blogs have different list documents |
| `Handlers.CreateThenRead` | app.py:59-125 | After a create, get-by-id on the returned key gives the submitted document, and the list gains exactly that document (with its id) at the end |
| `Store.BlogStore.CreateBlog` | app.py:59-125 | A payload missing title, author, read_time or date is answered 400 and writes nothing; otherwise the result is `Created` with the next key and the tables become `Cascade` of the old ones, keeping the invariant |
| `Store.BlogStore.InsertBlog` | app.py:71-73 | Appends the blog row under the next key and returns that key; nothing else changes; given non-empty required columns it keeps the store invariant |
| `Store.BlogStore.InsertIntroduction` | app.py:79-82 | Appends the introduction row under the next key and returns that key; nothing else changes; given an existing blog key and a non-empty summary it keeps the store invariant |
| `Store.BlogStore.InsertTopics` | app.py:85-88 | Appends one topic row per text under the introduction, in order; nothing else changes; given an existing introduction key it keeps the store invariant |
| `Store.BlogStore.InsertParagraphs` | app.py:91-105 | Appends the paragraph rows under the blog in input order, each followed by its bullets; nothing else changes; given an existing blog key it keeps the store invariant |
| `Store.BlogStore.InsertParagraph` | app.py:93-105 | Appends one paragraph row under the next key, then its bullet rows under that key; given an existing blog key it keeps the store invariant |
| `Store.BlogStore.InsertBullets` | app.py:102-105 | Appends one bullet row per text under the paragraph, in order; given an existing paragraph key it keeps the store invariant |
| `Store.BlogStore.InsertResources` | app.py:108-111 | Appends one resource row per URL under the blog, in order; given an existing blog key it keeps the store invariant |
| `Store.BlogStore.InsertAcknowledgments` | app.py:114-117 | Appends one acknowledgment row per text under the blog, in order; given an existing blog key it keeps the store invariant |

## Left out

- HTTP routing, request parsing, JSON serialisation and CORS are not modelled. A handler takes the parsed payload, blog id or keyword as a parameter and returns a `Response`.
- The success envelope's constant fields (`status: true` and the creation `message`) are not modelled. The model keeps only the status codes, the error texts, the new blog id and the documents.
- Transactions, commits and the 500 responses are not modelled. The code commits after some inserts, so a later failure leaves a partial blog; that failure comes from the database library. Only a create that succeeds is modelled.
- Concurrency is not modelled: requests are taken one at a time, and a create is one step (`Cascade`, or `CreateBlog` run to its end). The development server handles requests on threads, and the create handler commits after the blog, the introduction and each paragraph before its final commit. A read running alongside a create can therefore see the new blog with only some of its children. `CreateThenRead` and `CascadeKeepsDocuments` hold only for requests that do not overlap.
- Non-null columns that the payload could leave out (paragraph `order`, `title`, `content`; topic, bullet, resource and acknowledgment texts) are required by the payload types. A payload missing one makes the database fail mid-cascade, and that is not modelled.
- Payloads of the wrong shape are not modelled: `introduction` or a list being `null` or of the wrong type, or a required field that is a number rather than a string. Python truthiness is modelled for string values only: a value counts as present when it is there and non-empty.
- A paragraph's `order` is an unbounded integer here. SQLite stores at most 64-bit integers; a larger value makes the database driver raise an error after the blog row has been committed, which ends in a 500 and a partial blog. That failure is not modelled.
- Column length limits (`String(256)` and the like) are not modelled. SQLite does not enforce them.
- `Search.Matches`: `%` and `_` in the keyword do not act as `LIKE` wildcards here; the keyword is matched as plain text.
- `Search.Lower`: case folding covers the ASCII letters only. SQLite has no `ILIKE`; the database library renders `ilike` as `lower(column) LIKE lower(pattern)`, and SQLite's `lower()` folds only ASCII. Python's Unicode `lower()` on the keyword is not modelled and is replaced by the same ASCII folding.
- Query order is assumed to be insertion order. SQLite returns rows in rowid order when there is no `ORDER BY`, but this is not guaranteed.
- Database configuration, migrations and process start-up are not modelled.
