# WriteBoard-express, modelled in Dafny

WriteBoard-express is the backend of a small blogging platform. Articles have Markdown content, a
URL slug and a sanitized HTML rendering. Comments point at their article. Authors register and log
in with a hashed password and receive a signed token. This project models:

- The three Mongoose schemas with their validators: `ArticleModel` (also covering `error.js`, which
  is a second copy of the article schema and hook), `AuthorModel` and `CommentModel`.
- The Article pre-save hook. `isModified` is read as "the document is new, or the path differs from
  the value it was loaded with". `ArticleModel.ArticleDoc` is the in-memory document. Its `prior`
  field holds the persisted state, and `None` means the document is new.
- The save path of a document: validation, then the hook, then the unique indexes on `_id` and
  `slug`. This path is `ArticleModel.SaveOutcome` as a function of the state, and
  `Db.Store.SaveArticle` as the method on the class `Db.Store`, which holds the three collections.
- The inline slug expression of `POST /articles`
  (`title.toLowerCase().replace(/ /g, '-').replace(/[^\w-]+/g, '')`), stage by stage, with its
  alphabet, length bound, character-by-character reading, behaviour on concatenation, idempotence
  and the "Hello World" example.
- The article route handlers as methods on the store, each returning the response it sends.
- Registration and login in `server.js`, over the author collection.

The library calls are parameters handed to the store or to the handlers, not modelled code:

- `slugify`, `marked` and DOMPurify's `sanitize` are the `ArticleModel.Renderer` datatype.
- bcrypt's `hash` and `compare` are the `Server.Crypto` datatype.

The clock is a `now: nat` argument. ObjectIds come from a counter, `Db.Store.nextId`.

Some consequences of the code that the model makes explicit:

- `POST /articles/authors` always answers 400: it builds the author from name and email only, and
  the schema requires a password (`ArticleRoutes.PostAuthor`).
- A failed `POST /articles` shows the form again, and a failed `PUT /articles/:id` redirects to `/`;
  neither answers with a 4xx status.
- The stored slug of a new article is `slugify`'s, not the inline expression's: a new document counts
  as having a modified title, so the pre-save hook replaces the inline value before it is stored
  (`ArticleRoutes.CreateArticle`).
- Each derived field is recomputed only when its source path is modified (`ArticleModel.AfterPreSave`).

## Model

| member | source | states |
|---|---|---|
| ArticleModel.AfterPreSave | models/articleModel.js:57-68 | the slug is recomputed with slugify exactly when the title is modified (always for a new document), sanitizedHtml is sanitize(marked(content)) exactly when the content is modified, and no other path changes, so validity is unaffected |
| ArticleModel.ArticleDoc.PreSave | error.js:57-70 | running the hook in place on a document leaves it equal to AfterPreSave of its previous state |
| ArticleModel.ArticleDoc.PushComment | routes/articleRoutes.js:184 | the comment id is appended at the end of the document's comments, in order |
| ArticleModel.ArticleDoc.constructor | error.js:11-47 | a document holds the given paths, its id and its persisted state |
| ArticleModel.SaveOutcome | models/articleModel.js:11-47 | each failed validator (title missing or under 3 characters, description missing or over 200, content missing, author missing) rejects with a validation error before the hook; a taken slug, or a new document under a taken id, rejects with a duplicate key; a loaded document whose stored entry is gone is not found; a save is accepted exactly when the document is valid, its id matches its new/loaded state and its hooked slug is not another article's, and then the hooked document is what is written |
| ArticleModel.SaveKeepsStoreInvariant | error.js:36-40 | an accepted save keeps every slug in the collection unique |
| ArticleModel.SaveOfUntouchedDocumentSucceeds | routes/articleRoutes.js:183-185 | re-saving a stored valid article with only its comments changed always succeeds and leaves slug and sanitizedHtml as they were |
| AuthorModel.InsertError | models/authorModel.js:4-27 | a missing or empty name, email or password, an email without a match of `\S+@\S+\.\S+`, or a bio over 600 characters is a validation error; a reused id or taken email is a duplicate key; an insert succeeds exactly when the author is valid and both id and email are unused |
| AuthorModel.InsertKeepsEmailsUnique | models/authorModel.js:9-14 | an accepted insert keeps emails unique across authors |
| AuthorModel.MatchesEmailUnanchored | models/authorModel.js:13 | the email pattern is not anchored: text before and after an accepted address keeps it accepted |
| AuthorModel.ShortAddressAccepted | models/authorModel.js:13 | "a@b.c" matches the email pattern |
| AuthorModel.AddressesRejected | models/authorModel.js:13 | "a@b" (no dot) and "a @b.c" (space before the @) do not match |
| CommentModel.NewComment | models/commentModel.js:9-12 | a new comment holds the given content, article and author, and createdAt defaults to the current time |
| CommentModel.InsertError | models/commentModel.js:3-22 | missing or empty content, content over 500 characters, or a missing article is a validation error; a valid comment under a taken id is a duplicate key; the author is optional; an accepted comment is valid under an unused id |
| Db.Store.constructor | server.js:18-20 | the model's store starts empty and satisfies `Valid()`; the connected database need not be empty, so every handler is proved for any store satisfying `Valid()` |
| Db.Store.NewId | routes/articleRoutes.js:104-110 | a new document's id is fresh in every collection |
| Db.Store.NewArticleDoc | routes/articleRoutes.js:104-110 | `new Article({...})` is a new document (no persisted state) with a fresh id |
| Db.Store.FindArticleById | routes/articleRoutes.js:136 | `findById` gives null exactly when there is no such article, and otherwise a document loaded from the stored one |
| Db.Store.SaveArticle | error.js:11-70 | `save()` returns SaveOutcome of the stored collection and the document, writes exactly the hooked article when accepted, changes nothing stored when rejected, and keeps the store invariant (valid documents, unique slugs, unique emails) |
| Db.Store.DeleteArticle | routes/articleRoutes.js:261 | `findByIdAndDelete` removes exactly that id and returns the deleted article, if any |
| Db.Store.InsertAuthor | models/authorModel.js:4-27 | saving a new author returns InsertError and stores the author exactly when it is None |
| Db.Store.InsertComment | models/commentModel.js:3-22 | saving a new comment returns CommentModel.InsertError and stores the comment exactly when it is None |
| Db.Store.FindAuthorByEmail | server.js:76 | `findOne({ email })` finds none exactly when no author has that email, and otherwise one that does |
| ArticleRoutes.LowerCase | routes/articleRoutes.js:109 | `toLowerCase` keeps the length and lowers each ASCII capital in place |
| ArticleRoutes.ReplaceSpaces | routes/articleRoutes.js:109 | `replace(/ /g, '-')` keeps the length and turns each space into a hyphen in place |
| ArticleRoutes.StripNonWord | routes/articleRoutes.js:109 | `replace(/[^\w-]+/g, '')` keeps only characters of `\w` and `-`, all taken from the input, and leaves a string made only of those unchanged |
| ArticleRoutes.InlineSlug | routes/articleRoutes.js:109 | the slug is no longer than the title and uses only `[a-z0-9_-]` |
| ArticleRoutes.InlineSlugByChar | routes/articleRoutes.js:109 | the slug equals an independent character-by-character reading: capital to lower case, space to hyphen, keep `\w` and `-`, drop the rest |
| ArticleRoutes.InlineSlugConcat | routes/articleRoutes.js:109 | the slug of a concatenation is the concatenation of the slugs, so the input order is kept |
| ArticleRoutes.SpaceBecomesHyphen | routes/articleRoutes.js:109 | a space becomes a hyphen between the slugs of what precedes and follows it |
| ArticleRoutes.InlineSlugIdempotent | routes/articleRoutes.js:109 | applying the expression to its own result changes nothing |
| ArticleRoutes.HelloWorldSlug | routes/articleRoutes.js:109 | "Hello World" becomes "hello-world" |
| ArticleRoutes.CreateArticle | routes/articleRoutes.js:102-124 | a missing title throws before the try block and sends nothing; otherwise the article, built with the inline slug, goes through the save path under a fresh id: on success it is stored with slugify's slug and the client is redirected to it, on failure the form is shown with "Error creating article" and nothing is stored |
| ArticleRoutes.ShowArticle | routes/articleRoutes.js:134-150 | an unknown id is 404 "Article not found", a known one is the stored article |
| ArticleRoutes.PostAuthor | routes/articleRoutes.js:156-166 | the route always answers 400 "Failed to create author" and stores no author, because the required password is never supplied |
| ArticleRoutes.PostComment | routes/articleRoutes.js:172-199 | an unknown article is 404; an invalid comment is 500 with nothing stored; otherwise the comment is stored, its id appended to the article's comments, and 201 returns both |
| ArticleRoutes.UpdateArticle | routes/articleRoutes.js:232-251 | an unknown id is 404; otherwise title, description and content are replaced and the save path run: on success the stored article keeps its author and comments, and keeps its slug exactly when the title did not change; on failure nothing changes and the client is redirected home |
| ArticleRoutes.DeleteArticle | routes/articleRoutes.js:259-270 | exactly that article is removed and its comments remain; an unknown id redirects home instead of answering 200 |
| Server.Register | server.js:70-98 | a missing password is 500 before the email is looked up; a taken email is 409 with nothing stored; otherwise the author is stored with the password's hash, never the plaintext, and 201 returns name, email and a one-hour token with the new id, or 500 when validation fails; emails stay unique |
| Server.Login | server.js:103-133 | an unknown email is 400 "Cannot find user"; for the stored author with that email, a missing password is 500, a password the stored hash verifies is 200 with a token and the user's name and email, and any other password is 401 "Incorrect password" |
| Server.AdaAddressAccepted | models/authorModel.js:13 | "ada@x.com" matches the email pattern |
| Server.RegisterThenLogin | server.js:70-133 | registering Ada, logging in with a wrong password, then with the right one, then registering the same email again gives 201, 401, 200 and 409, and leaves one author |

## Left out

- Express wiring, view rendering, CORS, method-override, dotenv and `listen` are not modelled: they are configuration around the handlers.
- The list routes (`GET /` in both files, `GET /articles/authors`, `GET /articles/comments`, `GET /articles/new`) are not modelled. They only read, sort and populate, and sorting by timestamp and population need the library's query engine.
- Population of references in responses is not modelled: responses carry the stored documents with ids in place of populated references.
- The internals of `slugify`, `marked` and DOMPurify are not modelled. Without them, the idempotence of `slugify` and the absence of executable markup in sanitizedHtml cannot be stated. "Hello World" getting the slug "hello-world" is proved for the inline expression, not for `slugify`.
- A library call that throws inside the hook is not modelled. Each of the three calls is a total function.
- Server.Register: bcrypt's salting is not modelled. `hash` is a function of the password alone, so the same password always gives the same stored hash. Constant-time comparison is a timing property and is out of reach.
- Server.Login: the token is its claims and lifetime. The JWT signature, the signing secret and expiry enforcement are not modelled. The scenario assumes a sound crypto: hashes are non-empty and a password verifies against exactly its own hash.
- The `createdAt`/`updatedAt` timestamps of articles are not modelled, since no modelled handler reads them; only the list routes, left out above, sort articles by `createdAt`.
- Concurrency between requests is not modelled: each handler runs alone on the store. Two saves that race on the same slug or email cannot be expressed.
- ArticleRoutes.LowerCase: `toLowerCase` is modelled on ASCII capitals only. Full Unicode lowering differs in the final slug only for U+0130 and U+212A (they lower to ASCII letters); every other non-ASCII character is stripped either way.
- Lengths (`minlength`, `maxlength`) are counted in Unicode scalar values; JavaScript counts UTF-16 code units, which differ for characters outside the Basic Multilingual Plane.
- Server.Login: the email of a request body is a string. `findOne({ email: undefined })` matching any author is not modelled.
- Server.Register: the email of a request body is a string, as for login, so `findOne({ email: undefined })` at the existence check is not modelled.
- Path ids are always well-formed ObjectIds (`Id` is a `nat`). A malformed `:id` makes `findById` or `findByIdAndDelete` throw a cast error, which is not modelled: `GET /articles/:id` would answer 500 "Server error" instead of 404, `POST /articles/:id/comments` 500 "Failed to add comment", and `PUT /articles/:id` and `DELETE /articles/:id` redirect to `/`.
- Reference ids in request bodies (`author` of `POST /articles` and of `POST /articles/:id/comments`) are absent or well-formed ObjectIds (`Option<Id>`). A value that is not an ObjectId makes Mongoose record a cast error and `save()` reject with a validation error, which is not modelled: `POST /articles` would show the form again with "Error creating article", and `POST /articles/:id/comments` would answer 500 "Failed to add comment".
- ArticleRoutes.PostComment: promises 201 for every comment with valid content only because a body `author` is always absent or a well-formed ObjectId.
- Body fields are strings or absent (`Option<string>`). A value of another JSON type is not modelled; for example a number as `title` makes `title.toLowerCase()` throw outside the try block of `POST /articles`.
- Whether a 500 reply is sent as JSON or as text is not modelled; the reply records status and message.
- ArticleModel.SaveOutcome: the unique index on `slug` is always checked, where MongoDB checks it on each write. Under the store invariant (slugs unique) the two agree.
- Whether the referenced author of an article or comment exists is not checked, as in the source.
- ArticleRoutes.CreateArticle: the uncaught exception for a missing title is `NoResponse`. The framework's handling of a rejected handler promise is not modelled.
- Deleting an article does not delete its comments; as in the source, they stay behind.
