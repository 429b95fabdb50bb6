/** The Article schema and its pre-save hook (models/articleModel.js; error.js is a copy of the same
    schema and hook and is covered by this module too). */
module ArticleModel {
  import opened Common

  /** The three library calls the hook makes: `slugify(title, {lower, strict})`, `marked(content)` and
      DOMPurify's `sanitize(html)`. Their internals are not modelled; the store is given them once. */
  datatype Renderer = Renderer(
    slugify: string -> string,
    markdown: string -> string,
    sanitize: string -> string)

  /** The paths of an Article document. */
  datatype Article = Article(
    title: Option<string>,
    description: Option<string>,
    content: Option<string>,
    author: Option<Id>,
    comments: seq<Id>,
    slug: Option<string>,
    sanitizedHtml: Option<string>)

  const TitleMinLength := 3
  const DescriptionMaxLength := 200

  // ---- Schema validators -------------------------------------------------------------------

  /** `title`: required, minlength 3. */
  predicate TitleOk(a: Article)
  {
    Present(a.title) && |a.title.value| >= TitleMinLength
  }

  /** `description`: required, maxlength 200. */
  predicate DescriptionOk(a: Article)
  {
    Present(a.description) && |a.description.value| <= DescriptionMaxLength
  }

  /** `content`: required. */
  predicate ContentOk(a: Article)
  {
    Present(a.content)
  }

  /** `author`: a required ObjectId reference (the referenced Author is not looked up). */
  predicate AuthorOk(a: Article)
  {
    a.author.Some?
  }

  /** Every validator of the schema passes; `slug`, `sanitizedHtml` and `comments` have none. */
  predicate Valid(a: Article)
  {
    TitleOk(a) && DescriptionOk(a) && ContentOk(a) && AuthorOk(a)
  }

  // ---- isModified ---------------------------------------------------------------------------

  /** `isModified('title')`: the document is new (no persisted state) or its title differs from the
      persisted one. */
  predicate TitleModified(a: Article, prior: Option<Article>)
  {
    prior.None? || prior.value.title != a.title
  }

  /** `isModified('content')`, in the same sense. */
  predicate ContentModified(a: Article, prior: Option<Article>)
  {
    prior.None? || prior.value.content != a.content
  }

  // ---- The pre-save hook ----------------------------------------------------------------------

  /** The document as the pre-save hook leaves it. The hook runs after validation, so the paths it
      reads are there whenever it reads them. */
  function AfterPreSave(a: Article, prior: Option<Article>, r: Renderer): (h: Article)
    requires TitleModified(a, prior) ==> a.title.Some?
    requires ContentModified(a, prior) ==> a.content.Some?
    // slug follows the title, and only a modified title
    ensures TitleModified(a, prior) ==> h.slug == Some(r.slugify(a.title.value))
    ensures !TitleModified(a, prior) ==> h.slug == a.slug
    // a new document always gets the library slug, whatever slug it was built with
    ensures prior.None? ==> h.slug == Some(r.slugify(a.title.value))
    // sanitizedHtml follows the content, and only a modified content
    ensures ContentModified(a, prior) ==> h.sanitizedHtml == Some(r.sanitize(r.markdown(a.content.value)))
    ensures !ContentModified(a, prior) ==> h.sanitizedHtml == a.sanitizedHtml
    // nothing else is touched
    ensures h.title == a.title && h.description == a.description && h.content == a.content
    ensures h.author == a.author && h.comments == a.comments
    ensures Valid(h) == Valid(a)
  {
    var withSlug := if TitleModified(a, prior) then a.(slug := Some(r.slugify(a.title.value))) else a;
    if ContentModified(a, prior) then withSlug.(sanitizedHtml := Some(r.sanitize(r.markdown(a.content.value))))
    else withSlug
  }

  // ---- save() -----------------------------------------------------------------------------------

  /** The outcome of `save()`: the document as written, or the reason it was not written. */
  datatype SaveResult = Saved(article: Article) | Rejected(error: SaveError)

  /** Another stored article than `id` already holds `slug` (the unique index on `slug`). */
  predicate SlugTaken(stored: map<Id, Article>, id: Id, slug: Option<string>)
  {
    exists k :: k in stored && k != id && stored[k].slug == slug
  }

  /** No two stored articles share a slug. */
  ghost predicate SlugsUnique(stored: map<Id, Article>)
  {
    forall i, j :: i in stored && j in stored && i != j ==> stored[i].slug != stored[j].slug
  }

  /** `save()` of document `id` with paths `a` and persisted state `prior` (None: a new document)
      against the collection `stored`: validation first, then the pre-save hook, then the write,
      which the unique indexes on `_id` and `slug` can refuse. */
  function SaveOutcome(stored: map<Id, Article>, id: Id, a: Article, prior: Option<Article>, r: Renderer)
    : (res: SaveResult)
    // each validator can refuse the save
    ensures !TitleOk(a) ==> res == Rejected(ValidationFailed)
    ensures !DescriptionOk(a) ==> res == Rejected(ValidationFailed)
    ensures !ContentOk(a) ==> res == Rejected(ValidationFailed)
    ensures !AuthorOk(a) ==> res == Rejected(ValidationFailed)
    // a valid document whose derived slug another article holds is refused by the index
    ensures Valid(a) && (prior.Some? ==> id in stored) && SlugTaken(stored, id, AfterPreSave(a, prior, r).slug)
            ==> res == Rejected(DuplicateKey)
    // a new document under a taken `_id` is refused by the index on `_id`
    ensures Valid(a) && prior.None? && id in stored ==> res == Rejected(DuplicateKey)
    // a loaded document whose stored entry has gone is not found
    ensures Valid(a) && prior.Some? && id !in stored ==> res == Rejected(DocumentNotFound)
    // a written document is the validated one with the hook applied, and its slug is unique
    ensures res.Saved? ==> Valid(a) && res.article == AfterPreSave(a, prior, r)
    ensures res.Saved? ==> forall k :: k in stored && k != id ==> stored[k].slug != res.article.slug
    // a new document is inserted under a free id; an existing one replaces its own entry
    ensures res.Saved? ==> (prior.None? <==> id !in stored)
    // these are the only ways to fail
    ensures Valid(a) && (prior.None? <==> id !in stored) && !SlugTaken(stored, id, AfterPreSave(a, prior, r).slug)
            ==> res.Saved?
  {
    if !Valid(a) then Rejected(ValidationFailed)
    else
      var h := AfterPreSave(a, prior, r);
      if prior.Some? && id !in stored then Rejected(DocumentNotFound)
      else if prior.None? && id in stored then Rejected(DuplicateKey)
      else if SlugTaken(stored, id, h.slug) then Rejected(DuplicateKey)
      else Saved(h)
  }

  /** A successful save keeps the stored articles valid and their slugs unique. */
  lemma {:induction false} SaveKeepsStoreInvariant(stored: map<Id, Article>, id: Id, a: Article,
                                                   prior: Option<Article>, r: Renderer)
    requires SlugsUnique(stored)
    requires forall k :: k in stored ==> Valid(stored[k])
    requires SaveOutcome(stored, id, a, prior, r).Saved?
    ensures var s := stored[id := SaveOutcome(stored, id, a, prior, r).article];
            SlugsUnique(s) && forall k :: k in s ==> Valid(s[k])
  {
    var h := SaveOutcome(stored, id, a, prior, r).article;
    var s := stored[id := h];
    forall i, j | i in s && j in s && i != j
      ensures s[i].slug != s[j].slug
    {
      if i == id {
        assert j in stored && j != id;
      } else if j == id {
        assert i in stored && i != id;
      } else {
        assert s[i] == stored[i] && s[j] == stored[j];
      }
    }
  }

  /** Saving a loaded document whose editable paths are unchanged — only `comments` differs, as when
      a comment is appended — always succeeds and writes the document as it is. */
  lemma {:induction false} SaveOfUntouchedDocumentSucceeds(stored: map<Id, Article>, id: Id,
                                                            comments: seq<Id>, r: Renderer)
    requires id in stored && Valid(stored[id]) && SlugsUnique(stored)
    ensures SaveOutcome(stored, id, stored[id].(comments := comments), Some(stored[id]), r)
            == Saved(stored[id].(comments := comments))
  {
    var a := stored[id].(comments := comments);
    assert !TitleModified(a, Some(stored[id])) && !ContentModified(a, Some(stored[id]));
    var h := AfterPreSave(a, Some(stored[id]), r);
    assert h == a;
    assert !SlugTaken(stored, id, h.slug) by {
      forall k | k in stored && k != id
        ensures stored[k].slug != h.slug
      {
        assert h.slug == stored[id].slug;
      }
    }
  }

  // ---- The document object ----------------------------------------------------------------------

  /** A Mongoose Article document in memory: its paths, which handlers assign and the hook updates in
      place, and the state it was loaded with or last saved as (None while the document is new). */
  class ArticleDoc {
    const id: Id
    var title: Option<string>
    var description: Option<string>
    var content: Option<string>
    var author: Option<Id>
    var comments: seq<Id>
    var slug: Option<string>
    var sanitizedHtml: Option<string>
    var prior: Option<Article>

    /** The document's paths as a value. */
    function Snapshot(): Article
      reads this
    {
      Article(title, description, content, author, comments, slug, sanitizedHtml)
    }

    constructor (id: Id, a: Article, prior: Option<Article>)
      ensures this.id == id && Snapshot() == a && this.prior == prior
    {
      this.id := id;
      title, description, content, author := a.title, a.description, a.content, a.author;
      comments, slug, sanitizedHtml := a.comments, a.slug, a.sanitizedHtml;
      this.prior := prior;
    }

    /** The pre-save hook, run on the document in place. */
    method PreSave(r: Renderer)
      requires TitleModified(Snapshot(), prior) ==> title.Some?
      requires ContentModified(Snapshot(), prior) ==> content.Some?
      modifies this`slug, this`sanitizedHtml
      ensures Snapshot() == AfterPreSave(old(Snapshot()), prior, r)
    {
      if TitleModified(Snapshot(), prior) {
        slug := Some(r.slugify(title.value));
      }
      if ContentModified(Snapshot(), prior) {
        var rawHtml := r.markdown(content.value);
        sanitizedHtml := Some(r.sanitize(rawHtml));
      }
    }

    /** `article.comments.push(id)`. */
    method PushComment(c: Id)
      modifies this`comments
      ensures comments == old(comments) + [c]
    {
      comments := comments + [c];
    }
  }
}
