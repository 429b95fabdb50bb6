/** The three collections as one in-memory store, with the Mongoose operations the handlers use:
    building a new document, `findById`, `findOne({ email })`, `save()` and `findByIdAndDelete`. */
module Db {
  import opened Common
  import ArticleModel
  import AuthorModel
  import CommentModel

  class Store {
    var articles: map<Id, ArticleModel.Article>
    var authors: map<Id, AuthorModel.Author>
    var comments: map<Id, CommentModel.Comment>
    /** The next ObjectId to hand out; every stored id is below it. */
    var nextId: nat
    /** The library calls of the Article pre-save hook. */
    const renderer: ArticleModel.Renderer

    /** What every write keeps: stored documents passed their schema, slugs and emails are unique,
        and ids come from the counter. */
    ghost predicate Valid()
      reads this
    {
      && (forall id :: id in articles ==> id < nextId && ArticleModel.Valid(articles[id]))
      && (forall id :: id in authors ==> id < nextId && AuthorModel.Valid(authors[id]))
      && (forall id :: id in comments ==> id < nextId && CommentModel.Valid(comments[id]))
      && ArticleModel.SlugsUnique(articles)
      && AuthorModel.EmailsUnique(authors)
    }

    constructor (renderer: ArticleModel.Renderer)
      ensures Valid() && this.renderer == renderer
      ensures articles == map[] && authors == map[] && comments == map[] && nextId == 0
    {
      this.renderer := renderer;
      articles, authors, comments, nextId := map[], map[], map[], 0;
    }

    /** A fresh ObjectId, as `new Model(...)` assigns one. */
    method NewId() returns (id: Id)
      requires Valid()
      modifies this`nextId
      ensures Valid()
      ensures id == old(nextId) && nextId == old(nextId) + 1
      ensures id !in articles && id !in authors && id !in comments
    {
      id := nextId;
      nextId := nextId + 1;
    }

    /** `new Article({...})`: a new document with a fresh id and no persisted state. */
    method NewArticleDoc(a: ArticleModel.Article) returns (doc: ArticleModel.ArticleDoc)
      requires Valid()
      modifies this`nextId
      ensures Valid() && fresh(doc)
      ensures doc.id == old(nextId) && nextId == old(nextId) + 1
      ensures doc.Snapshot() == a && doc.prior.None?
    {
      var id := NewId();
      doc := new ArticleModel.ArticleDoc(id, a, None);
    }

    /** `Article.findById(id)`: null when there is no such article, otherwise a fresh document
        loaded from the stored one. */
    method FindArticleById(id: Id) returns (doc: ArticleModel.ArticleDoc?)
      ensures (doc == null) <==> id !in articles
      ensures doc != null ==> fresh(doc) && doc.id == id && doc.Snapshot() == articles[id]
                              && doc.prior == Some(articles[id])
    {
      if id in articles {
        doc := new ArticleModel.ArticleDoc(id, articles[id], Some(articles[id]));
      } else {
        doc := null;
      }
    }

    /** `doc.save()`: validate, run the pre-save hook on the document, then write it unless a unique
        index refuses. After a successful save the document's persisted state is what was written. */
    method SaveArticle(doc: ArticleModel.ArticleDoc) returns (res: ArticleModel.SaveResult)
      requires Valid() && doc.id < nextId
      modifies this`articles, doc
      ensures Valid()
      ensures res == ArticleModel.SaveOutcome(old(articles), doc.id, old(doc.Snapshot()), old(doc.prior), renderer)
      ensures res.Saved? ==> articles == old(articles)[doc.id := res.article] && doc.prior == Some(res.article)
      ensures res.Rejected? ==> articles == old(articles) && doc.prior == old(doc.prior)
      // the hook has run on the document unless validation refused it
      ensures res == ArticleModel.Rejected(ValidationFailed) ==> doc.Snapshot() == old(doc.Snapshot())
      ensures res != ArticleModel.Rejected(ValidationFailed) ==>
                doc.Snapshot() == ArticleModel.AfterPreSave(old(doc.Snapshot()), old(doc.prior), renderer)
    {
      var a := doc.Snapshot();
      if !ArticleModel.Valid(a) {
        return ArticleModel.Rejected(ValidationFailed);
      }
      doc.PreSave(renderer);
      var h := doc.Snapshot();
      if doc.prior.Some? && doc.id !in articles {
        res := ArticleModel.Rejected(DocumentNotFound);
      } else if doc.prior.None? && doc.id in articles {
        res := ArticleModel.Rejected(DuplicateKey);
      } else if ArticleModel.SlugTaken(articles, doc.id, h.slug) {
        res := ArticleModel.Rejected(DuplicateKey);
      } else {
        ArticleModel.SaveKeepsStoreInvariant(articles, doc.id, a, doc.prior, renderer);
        articles := articles[doc.id := h];
        doc.prior := Some(h);
        res := ArticleModel.Saved(h);
      }
    }

    /** `Article.findByIdAndDelete(id)`: the deleted article, if there was one. Its comments stay. */
    method DeleteArticle(id: Id) returns (deleted: Option<ArticleModel.Article>)
      requires Valid()
      modifies this`articles
      ensures Valid()
      ensures articles == old(articles) - {id}
      ensures deleted == if id in old(articles) then Some(old(articles)[id]) else None
    {
      deleted := if id in articles then Some(articles[id]) else None;
      articles := articles - {id};
    }

    /** `author.save()` of a new author document with id `id`. */
    method InsertAuthor(id: Id, a: AuthorModel.Author) returns (err: Option<SaveError>)
      requires Valid() && id < nextId
      modifies this`authors
      ensures Valid()
      ensures err == AuthorModel.InsertError(old(authors), id, a)
      ensures authors == if err.None? then old(authors)[id := a] else old(authors)
    {
      err := AuthorModel.InsertError(authors, id, a);
      if err.None? {
        AuthorModel.InsertKeepsEmailsUnique(authors, id, a);
        authors := authors[id := a];
      }
    }

    /** `comment.save()` of a new comment document with id `id`. */
    method InsertComment(id: Id, c: CommentModel.Comment) returns (err: Option<SaveError>)
      requires Valid() && id < nextId
      modifies this`comments
      ensures Valid()
      ensures err == CommentModel.InsertError(old(comments), id, c)
      ensures comments == if err.None? then old(comments)[id := c] else old(comments)
    {
      err := CommentModel.InsertError(comments, id, c);
      if err.None? {
        comments := comments[id := c];
      }
    }

    /** `Author.findOne({ email })`: some author with that email, or none when there is none. The
        collection is scanned one document at a time. */
    method FindAuthorByEmail(email: string) returns (found: Option<Id>)
      ensures found.None? <==> !AuthorModel.EmailTaken(authors, email)
      ensures found.Some? ==> found.value in authors && authors[found.value].email == Some(email)
    {
      var unseen := authors.Keys;
      while unseen != {}
        invariant unseen <= authors.Keys
        invariant forall k :: k in authors && k !in unseen ==> authors[k].email != Some(email)
        decreases unseen
      {
        var k :| k in unseen;
        if authors[k].email == Some(email) {
          return Some(k);
        }
        unseen := unseen - {k};
      }
      return None;
    }
  }
}
