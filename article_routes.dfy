/** The article routes (routes/articleRoutes.js): the slug expression of `POST /articles` and the
    handlers as operations on the store. */
module ArticleRoutes {
  import opened Common
  import ArticleModel
  import AuthorModel
  import CommentModel
  import Db

  // ==== The slug expression ======================================================================
  // title.toLowerCase().replace(/ /g, '-').replace(/[^\w-]+/g, '')

  predicate IsUpper(c: char)
  {
    'A' <= c <= 'Z'
  }

  /** `toLowerCase` on one character, for the ASCII letters. */
  function ToLower(c: char): char
  {
    if IsUpper(c) then (c as int + 32) as char else c
  }

  /** `\w`: an ASCII letter, digit or underscore. */
  predicate IsWordChar(c: char)
  {
    'a' <= c <= 'z' || 'A' <= c <= 'Z' || '0' <= c <= '9' || c == '_'
  }

  /** What the expression keeps: `\w` or `-`. */
  predicate IsKept(c: char)
  {
    IsWordChar(c) || c == '-'
  }

  /** The alphabet of a slug: `[a-z0-9_-]`. */
  predicate IsSlugChar(c: char)
  {
    'a' <= c <= 'z' || '0' <= c <= '9' || c == '_' || c == '-'
  }

  /** `s.toLowerCase()`. */
  function LowerCase(s: string): (r: string)
    ensures |r| == |s|
    ensures forall i :: 0 <= i < |s| ==> r[i] == ToLower(s[i])
  {
    if s == [] then [] else [ToLower(s[0])] + LowerCase(s[1..])
  }

  /** `s.replace(/ /g, '-')`. */
  function ReplaceSpaces(s: string): (r: string)
    ensures |r| == |s|
    ensures forall i :: 0 <= i < |s| ==> r[i] == if s[i] == ' ' then '-' else s[i]
  {
    if s == [] then [] else [if s[0] == ' ' then '-' else s[0]] + ReplaceSpaces(s[1..])
  }

  /** `s.replace(/[^\w-]+/g, '')`: deleting every run of other characters deletes each of them. */
  function StripNonWord(s: string): (r: string)
    ensures |r| <= |s|
    ensures forall i :: 0 <= i < |r| ==> IsKept(r[i]) && r[i] in s
    ensures (forall i :: 0 <= i < |s| ==> IsKept(s[i])) ==> r == s
  {
    if s == [] then [] else (if IsKept(s[0]) then [s[0]] else []) + StripNonWord(s[1..])
  }

  /** The slug `POST /articles` builds from the title. */
  function InlineSlug(title: string): (slug: string)
    ensures |slug| <= |title|
    ensures forall i :: 0 <= i < |slug| ==> IsSlugChar(slug[i])
  {
    var t := ReplaceSpaces(LowerCase(title));
    assert forall j :: 0 <= j < |t| ==> !IsUpper(t[j]);
    StripNonWord(t)
  }

  /** The image of one character: its lower-case letter, a hyphen for a space, itself when kept,
      and nothing otherwise. */
  function SlugOfChar(c: char): string
  {
    if IsUpper(c) then [ToLower(c)]
    else if c == ' ' then "-"
    else if IsKept(c) then [c]
    else ""
  }

  /** An independent reading of the expression: the characters' images, in the input's order. */
  function SlugByChar(s: string): string
  {
    if s == [] then [] else SlugOfChar(s[0]) + SlugByChar(s[1..])
  }

  lemma {:induction false} StripNonWordConcat(a: string, b: string)
    ensures StripNonWord(a + b) == StripNonWord(a) + StripNonWord(b)
  {
    if a == [] {
      assert a + b == b;
    } else {
      assert (a + b)[0] == a[0] && (a + b)[1..] == a[1..] + b;
      StripNonWordConcat(a[1..], b);
    }
  }

  /** The expression works character by character: each character is replaced by its image and the
      images keep the input's order. */
  lemma {:induction false} InlineSlugByChar(s: string)
    ensures InlineSlug(s) == SlugByChar(s)
  {
    if s != [] {
      var c := s[0];
      var t := ReplaceSpaces(LowerCase(s));
      var rc := if ToLower(c) == ' ' then '-' else ToLower(c);
      assert t == [rc] + ReplaceSpaces(LowerCase(s[1..]));
      StripNonWordConcat([rc], ReplaceSpaces(LowerCase(s[1..])));
      assert StripNonWord([rc]) == SlugOfChar(c);
      InlineSlugByChar(s[1..]);
    }
  }

  lemma {:induction false} LowerCaseConcat(a: string, b: string)
    ensures LowerCase(a + b) == LowerCase(a) + LowerCase(b)
  {
    if a == [] {
      assert a + b == b;
    } else {
      assert (a + b)[0] == a[0] && (a + b)[1..] == a[1..] + b;
      LowerCaseConcat(a[1..], b);
    }
  }

  lemma {:induction false} ReplaceSpacesConcat(a: string, b: string)
    ensures ReplaceSpaces(a + b) == ReplaceSpaces(a) + ReplaceSpaces(b)
  {
    if a == [] {
      assert a + b == b;
    } else {
      assert (a + b)[0] == a[0] && (a + b)[1..] == a[1..] + b;
      ReplaceSpacesConcat(a[1..], b);
    }
  }

  /** The slug of a concatenation is the concatenation of the slugs. */
  lemma {:induction false} InlineSlugConcat(a: string, b: string)
    ensures InlineSlug(a + b) == InlineSlug(a) + InlineSlug(b)
  {
    LowerCaseConcat(a, b);
    ReplaceSpacesConcat(LowerCase(a), LowerCase(b));
    StripNonWordConcat(ReplaceSpaces(LowerCase(a)), ReplaceSpaces(LowerCase(b)));
  }

  /** Every space becomes a hyphen, between the slugs of what stands before and after it. */
  lemma SpaceBecomesHyphen(a: string, b: string)
    ensures InlineSlug(a + " " + b) == InlineSlug(a) + "-" + InlineSlug(b)
  {
    InlineSlugConcat(a + " ", b);
    InlineSlugConcat(a, " ");
    InlineSlugOfSpace();
  }

  lemma InlineSlugOfSpace()
    ensures InlineSlug(" ") == "-"
  {
    assert LowerCase(" ") == " ";
    assert ReplaceSpaces(" ") == "-";
  }

  /** Applying the expression to a slug changes nothing. */
  lemma {:induction false} InlineSlugIdempotent(title: string)
    ensures InlineSlug(InlineSlug(title)) == InlineSlug(title)
  {
    var s := InlineSlug(title);
    assert LowerCase(s) == s;
    assert ReplaceSpaces(s) == s;
  }

  /** A string that agrees with `s` lowered character by character is its lower-casing. */
  lemma LowerCaseIs(s: string, t: string)
    requires |t| == |s| && forall i :: 0 <= i < |s| ==> t[i] == ToLower(s[i])
    ensures LowerCase(s) == t
  {
  }

  lemma ReplaceSpacesIs(s: string, t: string)
    requires |t| == |s| && forall i :: 0 <= i < |s| ==> t[i] == if s[i] == ' ' then '-' else s[i]
    ensures ReplaceSpaces(s) == t
  {
  }

  // The example of the title "Hello World", one stage of the expression at a time.

  lemma HelloWorldLowerCased()
    ensures LowerCase("Hello World") == "hello world"
  {
    LowerCaseIs("Hello World", "hello world");
  }

  lemma HelloWorldSpacesReplaced()
    ensures ReplaceSpaces("hello world") == "hello-world"
  {
    ReplaceSpacesIs("hello world", "hello-world");
  }

  lemma HelloWorldNothingStripped()
    ensures StripNonWord("hello-world") == "hello-world"
  {
    assert forall i :: 0 <= i < |"hello-world"| ==> IsKept("hello-world"[i]);
  }

  lemma HelloWorldSlug()
    ensures InlineSlug("Hello World") == "hello-world"
  {
    HelloWorldLowerCased();
    HelloWorldSpacesReplaced();
    HelloWorldNothingStripped();
  }

  // ==== Responses ===============================================================================

  datatype Location = Home | ArticlePage(id: Id)

  datatype Body =
    | Message(message: string)
    | ArticleBody(article: ArticleModel.Article)
    | AuthorBody(author: AuthorModel.Author)
    | CommentAdded(message: string, comment: CommentModel.Comment, article: ArticleModel.Article)

  datatype Response =
    | Send(status: int, text: string)     // res.status(s).send(text)
    | Json(status: int, body: Body)       // res.status(s).json(body); res.json(body) is status 200
    | Redirect(location: Location)        // res.redirect(...)
    | RenderNewForm(errorMessage: string) // the "new article" form shown again with an error
    | NoResponse                          // an exception thrown outside the handler's try block

  // ==== Handlers ================================================================================

  /** `POST /articles`. The document is built with the inline slug, but a new document counts as
      having a modified title, so the pre-save hook replaces it with the library slug. */
  method CreateArticle(store: Db.Store, title: Option<string>, description: Option<string>,
                       content: Option<string>, author: Option<Id>) returns (res: Response)
    requires store.Valid()
    modifies store
    ensures store.Valid()
    ensures store.authors == old(store.authors) && store.comments == old(store.comments)
    // `title.toLowerCase()` on a missing title throws before the try block
    ensures title.None? ==> res == NoResponse && store.articles == old(store.articles)
                            && store.nextId == old(store.nextId)
    ensures title.Some? ==>
      var id := old(store.nextId);
      var built := ArticleModel.Article(title, description, content, author, [],
                                        Some(InlineSlug(title.value)), None);
      var outcome := ArticleModel.SaveOutcome(old(store.articles), id, built, None, store.renderer);
      && store.nextId == id + 1
      && (outcome.Saved? ==> store.articles == old(store.articles)[id := outcome.article]
                             && store.articles[id].slug == Some(store.renderer.slugify(title.value))
                             && res == Redirect(ArticlePage(id)))
      && (outcome.Rejected? ==> store.articles == old(store.articles)
                                && res == RenderNewForm("Error creating article"))
  {
    if title.None? {
      return NoResponse;
    }
    var built := ArticleModel.Article(title, description, content, author, [],
                                      Some(InlineSlug(title.value)), None);
    var doc := store.NewArticleDoc(built);
    var outcome := store.SaveArticle(doc);
    if outcome.Saved? {
      res := Redirect(ArticlePage(doc.id));
    } else {
      res := RenderNewForm("Error creating article");
    }
  }

  /** `GET /articles/:id` (references are not populated). */
  method ShowArticle(store: Db.Store, id: Id) returns (res: Response)
    ensures id !in store.articles ==> res == Send(404, "Article not found")
    ensures id in store.articles ==> res == Json(200, ArticleBody(store.articles[id]))
  {
    var doc := store.FindArticleById(id);
    if doc == null {
      return Send(404, "Article not found");
    }
    res := Json(200, ArticleBody(doc.Snapshot()));
  }

  /** `POST /articles/authors`: the author is built from name and email only, so the required
      password is always missing and the save always fails. */
  method PostAuthor(store: Db.Store, name: Option<string>, email: Option<string>, now: nat)
    returns (res: Response)
    requires store.Valid()
    modifies store
    ensures store.Valid()
    ensures res == Send(400, "Failed to create author")
    ensures store.authors == old(store.authors) && store.articles == old(store.articles)
    ensures store.comments == old(store.comments) && store.nextId == old(store.nextId) + 1
  {
    var id := store.NewId();
    var author := AuthorModel.Author(name, email, None, None, now);
    var err := store.InsertAuthor(id, author);
    if err.None? {
      res := Json(201, AuthorBody(author));
    } else {
      res := Send(400, "Failed to create author");
    }
  }

  /** `POST /articles/:id/comments`: the comment is saved first; only then is its id appended to
      the article's `comments`, and the article saved through the save path. */
  method PostComment(store: Db.Store, articleId: Id, content: Option<string>, author: Option<Id>,
                     now: nat) returns (res: Response)
    requires store.Valid()
    modifies store
    ensures store.Valid()
    ensures store.authors == old(store.authors)
    ensures articleId !in old(store.articles) ==>
      && res == Json(404, Message("Article not found"))
      && store.articles == old(store.articles) && store.comments == old(store.comments)
      && store.nextId == old(store.nextId)
    ensures articleId in old(store.articles) ==>
      var cid := old(store.nextId);
      var c := CommentModel.NewComment(content, Some(articleId), author, None, now);
      var stored := old(store.articles)[articleId];
      var updated := stored.(comments := stored.comments + [cid]);
      && store.nextId == cid + 1
      && (!CommentModel.Valid(c) ==>
            && res == Json(500, Message("Failed to add comment"))
            && store.articles == old(store.articles) && store.comments == old(store.comments))
      && (CommentModel.Valid(c) ==>
            && store.comments == old(store.comments)[cid := c]
            && store.articles == old(store.articles)[articleId := updated]
            && res == Json(201, CommentAdded("Comment added successfully", c, updated)))
  {
    var doc := store.FindArticleById(articleId);
    if doc == null {
      return Json(404, Message("Article not found"));
    }
    var cid := store.NewId();
    var comment := CommentModel.NewComment(content, Some(doc.id), author, None, now);
    var err := store.InsertComment(cid, comment);
    if err.Some? {
      return Json(500, Message("Failed to add comment"));
    }
    doc.PushComment(cid);
    ArticleModel.SaveOfUntouchedDocumentSucceeds(store.articles, doc.id, doc.comments, store.renderer);
    var saved := store.SaveArticle(doc);
    if saved.Rejected? {
      return Json(500, Message("Failed to add comment"));
    }
    res := Json(201, CommentAdded("Comment added successfully", store.comments[cid], store.articles[doc.id]));
  }

  /** `PUT /articles/:id`: the three editable paths are replaced on the loaded document, which is
      then saved, so the pre-save hook sees which of them changed. */
  method UpdateArticle(store: Db.Store, id: Id, title: Option<string>, description: Option<string>,
                       content: Option<string>) returns (res: Response)
    requires store.Valid()
    modifies store
    ensures store.Valid()
    ensures store.authors == old(store.authors) && store.comments == old(store.comments)
    ensures store.nextId == old(store.nextId)
    ensures id !in old(store.articles) ==> res == Send(404, "Article not found")
                                           && store.articles == old(store.articles)
    ensures id in old(store.articles) ==>
      var stored := old(store.articles)[id];
      var edited := stored.(title := title, description := description, content := content);
      var outcome := ArticleModel.SaveOutcome(old(store.articles), id, edited, Some(stored), store.renderer);
      && (outcome.Saved? ==>
            && store.articles == old(store.articles)[id := outcome.article]
            && res == Json(200, ArticleBody(outcome.article))
            // author and comments are kept; the slug follows the title only when it changed
            && outcome.article.author == stored.author && outcome.article.comments == stored.comments
            && (title == stored.title ==> outcome.article.slug == stored.slug)
            && (title != stored.title ==> outcome.article.slug == Some(store.renderer.slugify(title.value))))
      && (outcome.Rejected? ==> store.articles == old(store.articles) && res == Redirect(Home))
  {
    var doc := store.FindArticleById(id);
    if doc == null {
      return Send(404, "Article not found");
    }
    doc.title := title;
    doc.description := description;
    doc.content := content;
    var outcome := store.SaveArticle(doc);
    if outcome.Saved? {
      res := Json(200, ArticleBody(doc.Snapshot()));
    } else {
      res := Redirect(Home);
    }
  }

  /** `DELETE /articles/:id`: removes exactly that article; a missing id is answered with a
      redirect, not an error, and the article's comments stay in their collection. */
  method DeleteArticle(store: Db.Store, id: Id) returns (res: Response)
    requires store.Valid()
    modifies store
    ensures store.Valid()
    ensures store.articles == old(store.articles) - {id}
    ensures store.comments == old(store.comments) && store.authors == old(store.authors)
    ensures store.nextId == old(store.nextId)
    ensures res == if id in old(store.articles) then Json(200, Message("Article deleted successfully"))
                   else Redirect(Home)
  {
    var deleted := store.DeleteArticle(id);
    if deleted.None? {
      return Redirect(Home);
    }
    res := Json(200, Message("Article deleted successfully"));
  }
}
