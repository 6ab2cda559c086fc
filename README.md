# Blog access layer of medium-backend, in Dafny

This project models the blog router of the medium-backend REST service. It also models the two pure files the router relies on: the zod input schemas and the global error handler.

- **Auth gate.** Every blog route is guarded. The `authorization` header, or `""` when it is missing, is passed to token verification. Verification is an abstract function from token to optional user id. A failure answers 403 `{message: "Please log in to continue"}` and no handler runs. A success binds the user id for the handler.
- **Store.** Prisma is replaced by an in-memory `BlogStore.Store` class with these fields:
  - the post table (`seq<Post>`; each post holds its image URLs and its set of tag names);
  - the tag table (a set of names);
  - the like table (a set of (user, post) pairs);
  - the comment table (a sequence).

  Each handler is a method that reads or assigns these fields. `Valid()` is the store invariant: post ids are distinct and fresh, every associated tag is in the tag table, comment ids are fresh, and every like and comment refers to a stored post.
- **Visibility.** A post is visible when `!isPrivate || authorId == requester`. The same rule filters get-by-id, the listing and the count.
- **Ownership.** Update and delete match on `(id, authorId == requester)`. Matching no row fails and leaves the store unchanged.
- **Pagination.** The listing uses `skip = (page-1)*limit` and `take = limit` over the visible posts, newest first. It returns `totalPages = ceil(total/limit)`.
- **Engagement.** Like toggles the (user, post) pair. Comment appends a row. Deleting a post deletes its likes and comments with it.
- **Errors.** `ErrorHandler.Handle` classifies a thrown error, in order, as `HTTPException`, `ZodError`, Prisma unique-constraint, other Prisma error, or anything else.
- **Validation.** `Validation` holds the zod schemas as predicates. Email and URL syntax are abstract predicates passed in as parameters.

Handlers return `Reply<T>`, which is one of:
- `Ok`;
- `Thrown(error)`: a validation error or the 404 `HTTPException`;
- `Refused`: the database refused the write.

`BlogRouter.Serve` turns a reply into a response. It sends a `Refused` reply through `ErrorHandler.Handle` with an abstract database error (`Env.storeError`), because the database schema and the Prisma library's error classes are not part of the modelled code.

A missing header becomes `""` and is passed to `verify`; whether `""` verifies is up to `verify`.

## Model

| member | source | states |
|---|---|---|
| `Validation.JsLength` | src/validations/index.ts:5 | the length zod's `min` compares against counts UTF-16 code units: between the character count and twice it, and 0 only for the empty string |
| `Validation.JsLengthBmp` | src/validations/index.ts:5 | for text inside the Basic Multilingual Plane that length is the character count |
| `Validation.JsLengthAppend` | src/validations/index.ts:5 | the length of a concatenation is the sum of the lengths |
| `Validation.NonEmpty` | src/validations/index.ts:15-16 | `z.string().min(1)`: at least one UTF-16 code unit |
| `Validation.NonEmptyIfPresent` | src/validations/index.ts:23-24 | `z.string().min(1).optional()`: absent, or present and non-empty |
| `Validation.UrlsIfPresent` | src/validations/index.ts:19 | `z.array(z.string().url()).optional()`: absent, or every element passes the URL predicate |
| `Validation.SignupValid` | src/validations/index.ts:3-7 | `signupInput`: a valid email and a password of at least six UTF-16 code units; so a valid password has at least three characters, and six characters always suffice |
| `Validation.SigninValid` | src/validations/index.ts:9-12 | `signinInput`: a valid email; any password |
| `Validation.CreatePostValid` | src/validations/index.ts:14-20 | `createPostInput`: title and content present and non-empty, every image URL a URL |
| `Validation.UpdatePostValid` | src/validations/index.ts:22-28 | `updatePostInput`: every field optional; a present title or content non-empty; every image URL a URL |
| `Validation.CommentValid` | src/validations/index.ts:30-32 | `createCommentInput`: non-empty content |
| `Validation.UpdateUserValid` | src/validations/index.ts:34-38 | `updateUserInput`: name and bio free; a present image must be a URL |
| `Validation.PasswordLengthInCodeUnits` | src/validations/index.ts:3-7 | a password of three emoji (six code units) passes signup; five ASCII characters do not |
| `Validation.ParsePagination` | src/validations/index.ts:40-43 | accepted exactly when page >= 1 and 1 <= limit <= 50 after the defaults 1 and 10 are applied; the accepted request carries those values |
| `Validation.PaginationDefaults` | src/validations/index.ts:40-43 | with neither parameter the request is page 1, limit 10 |
| `Validation.PaginationBounds` | src/validations/index.ts:41-42 | page 0, limit 0 and limit 51 are each refused |
| `Validation.SignupImpliesSignin` | src/validations/index.ts:3-12 | every valid signup email and password pair is a valid signin pair |
| `Validation.EmptyPasswordOnlyAtSignin` | src/validations/index.ts:3-12 | the empty password passes signin but fails signup's six-code-unit minimum |
| `Validation.CreateBodyIsUpdateBody` | src/validations/index.ts:14-28 | every valid create-post body is a valid update-post body |
| `Validation.UpdateBodyShapes` | src/validations/index.ts:14-28 | an empty update body is valid; an empty title or content present in the body is not; create needs a title |
| `Validation.BadUrlRejects` | src/validations/index.ts:14-28 | one image URL failing the URL predicate rejects both create and update bodies |
| `Validation.CommentNeedsContent` | src/validations/index.ts:30-32 | empty comment content is refused, one character is accepted |
| `Validation.UserUpdateShapes` | src/validations/index.ts:34-38 | every profile field is optional; a present image is accepted exactly when it is a URL |
| `ErrorHandler.Includes` | src/middleware/errorHandler.ts:16 | `includes` is true exactly when the part occurs at some index of the message |
| `ErrorHandler.Handle` | src/middleware/errorHandler.ts:4-23 | an HTTPException maps to its own status and message; a ZodError to 400 with details; a Prisma error containing "Unique constraint" to 409; any other Prisma error to 500 "Database error"; anything else to 500 "Internal server error" |
| `ErrorHandler.ExactlyOneCategory` | src/middleware/errorHandler.ts:7-22 | every error falls in exactly one of the five categories, so the classification is total and yields one response |
| `ErrorHandler.HttpExceptionWins` | src/middleware/errorHandler.ts:7-13 | an HTTPException's name, even "ZodError", never changes its response |
| `ErrorHandler.StatusesOutsideHttp` | src/middleware/errorHandler.ts:11-22 | outside HTTPExceptions the status is 400, 409 or 500, and only validation errors carry details |
| `ErrorHandler.UniqueViolationIsConflict` | src/middleware/errorHandler.ts:15-18 | a Prisma error whose message contains "Unique constraint" anywhere is a 409 |
| `Pagination.Skip` | src/routes/blog.ts:200 | the offset `(page-1)*limit` of the requested page |
| `Pagination.TotalPages` | src/routes/blog.ts:222 | `Math.ceil(total / limit)` on integers, as `(total + limit - 1) / limit` |
| `Pagination.Window` | src/routes/blog.ts:200-201 | at most `limit` rows; a window starting past the end is empty; otherwise it is the contiguous run of `min(limit, rest)` rows starting at offset `(page-1)*limit` |
| `Pagination.TotalPagesIsCeiling` | src/routes/blog.ts:222 | the integer `totalPages` is the least page count whose pages hold `total` rows, and is 0 exactly when `total` is 0 |
| `Pagination.RowOnItsPage` | src/routes/blog.ts:200-222 | each row j appears, at position j mod limit, on page j / limit + 1, and that page is at most `totalPages` |
| `Pagination.PastLastPageEmpty` | src/routes/blog.ts:200-222 | a page after `totalPages` is empty |
| `Pagination.EarlierPagesFull` | src/routes/blog.ts:200-222 | every page before the last is full |
| `Posts.CanSee` | src/routes/blog.ts:123-126 | the visibility filter: the post is public or the requester wrote it |
| `Posts.CountVisible` | src/routes/blog.ts:206-213 | the `count` query: at most the number of posts, and all of them exactly when every post is visible |
| `Posts.Visible` | src/routes/blog.ts:176-182 | a post is listed exactly when it is stored and visible to the requester, with its multiplicity kept |
| `Posts.CountMatchesListing` | src/routes/blog.ts:175-213 | the `count` with the same filter equals the number of listing candidates |
| `Posts.VisibilityOfPost` | src/routes/blog.ts:120-127 | a private post is never visible to a non-owner; a public post, or one's own post, always is |
| `Posts.NewestFirst` | src/routes/blog.ts:202-204 | `orderBy: { createdAt: 'desc' }`: no post is followed by a newer one |
| `Posts.SortNewestFirst` | src/routes/blog.ts:202-204 | the result is ordered by `createdAt` descending and is a permutation of its input |
| `Posts.TagSet` | src/routes/blog.ts:52-57 | connect-or-create by name gives each listed name exactly once, never more tags than names |
| `Posts.DuplicateTagNamesCollapse` | src/routes/blog.ts:52-57 | the tag list `["x", "x"]` associates the single tag "x" |
| `Posts.NewPost` | src/routes/blog.ts:43-58 | a created post has the given id, author and creation time, the body's title and content, is private only when `isPrivate` is true, one image per URL in order, and exactly the listed tag names |
| `Posts.NewPostVisibleToAuthor` | src/routes/blog.ts:47-48 | a new post is visible to its author, and to everyone when `isPrivate` is omitted |
| `Posts.ApplyUpdate` | src/routes/blog.ts:85-100 | an update keeps id, author and creation time; each supplied field replaces the old value; supplied images and tags replace the old ones wholesale; omitted ones are kept |
| `Posts.UpdateEdgeCases` | src/routes/blog.ts:85-100 | an empty update body changes nothing; empty image and tag lists clear the images and tags |
| `Posts.UpdateIdempotent` | src/routes/blog.ts:85-100 | applying the same update twice equals applying it once |
| `Posts.Ids` | src/routes/blog.ts:260-288 | the set of stored ids, which the like and comment rows refer to: it holds exactly the ids some stored post has |
| `Posts.IdsWithout` | src/routes/blog.ts:314-319 | after deleting by id, the stored ids are the old ones less that id |
| `Posts.Without` | src/routes/blog.ts:314-319 | deleting by id keeps exactly the posts with another id, and never adds rows |
| `Posts.RemoveAtIsWithout` | src/routes/blog.ts:314-319 | with distinct ids, removing the matched row is removing the post with that id, order kept |
| `Posts.Toggle` | src/routes/blog.ts:248-266 | the toggled pair flips its membership and every other pair keeps it |
| `Posts.ToggleTwice` | src/routes/blog.ts:239-266 | two toggles restore the like set |
| `Posts.ToggleParity` | src/routes/blog.ts:239-266 | from "not liked", n toggles leave the pair liked exactly when n is odd, other pairs untouched |
| `BlogStore.ValidationFailure` | src/routes/blog.ts:37 | a failed `parse` throws an error the handler classifies as a validation error |
| `BlogStore.PostNotFound` | src/routes/blog.ts:153-154 | the thrown `HTTPException` is answered 404 with the message "Post not found" |
| `BlogStore.OwnsPost` | src/routes/blog.ts:81-84 | the update and delete filter `{ id, authorId }`: some stored post has the id and the requester as author |
| `BlogStore.SeesPost` | src/routes/blog.ts:121-126 | the `findFirst` filter: some stored post has the id and is visible to the requester |
| `BlogStore.NewestFirstPage` | src/routes/blog.ts:200-204 | the rows are the requested page of some newest-first ordering of the visible posts |
| `BlogStore.LikersOf` | src/routes/blog.ts:138 | the users listed as liking a post are exactly those with a like row for it |
| `BlogStore.CommentsOn` | src/routes/blog.ts:139-149 | the included comments are exactly the stored comments on that post |
| `BlogStore.LikesExcept` | src/routes/blog.ts:314-319 | the likes a cascading delete of a post leaves: the likes on other posts |
| `BlogStore.CommentsExcept` | src/routes/blog.ts:314-319 | the comments a cascading delete of a post leaves: exactly those on other posts |
| `BlogStore.Store.FindPost` | src/routes/blog.ts:120-122 | returns the index of a post with the id, or -1 exactly when none is stored |
| `BlogStore.Store.CreatePost` | src/routes/blog.ts:34-68 | succeeds exactly when the body is valid; appends `NewPost` for the requester under a fresh id; adds its tag names to the tag table; touches nothing else; an invalid body changes nothing and throws a validation error |
| `BlogStore.Store.UpdatePost` | src/routes/blog.ts:71-110 | an invalid body throws a validation error; a valid one succeeds exactly when the requester owns a post with the id; success rewrites that post alone by `ApplyUpdate` and adds new tag names; otherwise it is refused and posts and tags are unchanged |
| `BlogStore.Store.GetPost` | src/routes/blog.ts:113-161 | succeeds exactly when a post with the id is visible to the requester, and returns it with its likers and comments; otherwise throws 404 "Post not found" |
| `BlogStore.Store.ListPosts` | src/routes/blog.ts:164-228 | bad pagination throws a validation error; otherwise the posts form the requested window of a newest-first permutation of the visible posts, at most `limit` of them, all visible; `total` is the visible count; `totalPages` is its ceiling over `limit` |
| `BlogStore.Store.ToggleLike` | src/routes/blog.ts:231-270 | an existing like is removed with "Post unliked"; otherwise one is added with "Post liked" when the post exists, or the write is refused and nothing changes; success is `Toggle`; no other table changes |
| `BlogStore.Store.AddComment` | src/routes/blog.ts:273-304 | empty content throws a validation error; a comment on an existing post is appended with a fresh id, the author and the post; anything else leaves the comments as they were |
| `BlogStore.Store.DeletePost` | src/routes/blog.ts:307-325 | succeeds with "Post deleted successfully" exactly when the requester owns a post with the id, removing just that post and, by cascade, its likes and comments; otherwise it is refused and posts, likes and comments are unchanged; every like and comment still refers to a stored post |
| `BlogRouter.LoginRequired` | src/routes/blog.ts:26-29 | the middleware answers 403 `{ message: "Please log in to continue" }` itself, not through the error handler |
| `BlogRouter.Credential` | src/routes/blog.ts:19 | the header's value, or `""` when it is missing |
| `BlogRouter.Authenticate` | src/routes/blog.ts:18-20 | the identity is `verify` of the header, with a missing header verified as the empty string |
| `BlogRouter.MissingHeaderIsEmpty` | src/routes/blog.ts:19 | a missing authorization header and an empty one authenticate identically |
| `BlogRouter.FromError` | src/middleware/errorHandler.ts:4-23 | a caught error is answered with an error body; outside `HTTPException` the status is 400, 409 or 500; an `HTTPException` keeps its own status |
| `BlogRouter.Render` | src/routes/blog.ts:64-66 | a handler's value is answered 200 with its JSON; a thrown error or a refused write goes to the error handler and gets an error body |
| `BlogRouter.FailureResponses` | src/routes/blog.ts:153-154 | a missing or hidden post is answered 404 `{error: "Post not found"}`; a validation failure is answered 400 "Validation error" with details |
| `BlogRouter.Serve` | src/routes/blog.ts:18-325 | failed verification answers 403 "Please log in to continue" and leaves the store unchanged; otherwise each route runs as the verified user and answers what its handler returns: create answers and appends the new post authored by that user; update rewrites only that user's post by `ApplyUpdate` and answers a stored post with the id; get-by-id answers a stored post with the id visible to that user, with its likers and comments, or 404; the listing answers the requested page of a newest-first order of the posts that user may see, their count and the page count; like answers "Post unliked" or "Post liked" and toggles that user's pair on an existing post; comment answers and appends the comment with the body's content by that user on that post under a fresh id; delete succeeds exactly for the owner and cascades; invalid bodies answer the validation error and refused writes the database error, leaving the table unchanged; every table a route does not write keeps its contents, and reads change nothing |
| `BlogRouter.LikeTwice` | src/routes/blog.ts:239-266 | two likes in a row report "Post liked" then "Post unliked" and leave the like set and posts as they were |
| `BlogRouter.NonOwnerCannotWrite` | src/routes/blog.ts:80-319 | a non-owner's update and delete, or anyone's on an id no post has, are both refused, and posts, tags, likes and comments are unchanged |
| `BlogRouter.PrivatePostHidden` | src/routes/blog.ts:120-213 | another user's private post is 404 by id and absent from every page of the listing |

## Left out

- `src/routes/user.ts` is not part of this model: signup, signin and the profile routes are bcrypt hashing, JWT signing and Prisma calls. Its uniform 401 "Invalid credentials" and its separate 401 gate are not modelled.
- `src/config/index.ts` and `src/index.ts` are not part of this model. They read the environment, exit the process and wire routers, CORS and the error hook.
- JWT cryptography is the abstract function `Env.verify`. Whether the library throws instead of returning a falsy value is library behaviour, which is not part of the modelled code. A payload without an `id` is not modelled.
- Prisma is an in-memory store:
  - response shaping by `include` and `select` is left out: author fields, `_count` in the listing, and image row ids;
  - post ids are naturals handed out by a counter, where the real ids are generated strings;
  - `createdAt` is a parameter of `CreatePost`, because the clock is I/O.
- The error class Prisma throws in four cases is library behaviour, which is not part of the modelled code: update or delete matching no row, and a like or comment on a missing post. These are `Reply.Refused`, rendered through the abstract `Env.storeError`, and no status is stated.
- The database schema is not part of the modelled code. The model assumes foreign keys from the like and comment tables to the post table, with cascading deletes:
  - `BlogStore.Store.ToggleLike` refuses a like on a post that does not exist;
  - `BlogStore.Store.AddComment` refuses a comment on a post that does not exist;
  - `BlogStore.Store.DeletePost` removes the post's likes and comments with it. A schema that instead refused to delete a post with likes or comments would make that delete fail.
- `BlogStore.Store.GetPost` returns comments in store order. The query sets no order for included comments.
- `Posts.NewPost` and `Posts.ApplyUpdate` keep a post's images in request order. The `include: { images: true }` of the create, update and read queries sets no order for them.
- The user table is not modelled. Every id `verify` returns is assumed to name a stored user: tokens are signed only for a user just created or found (src/routes/user.ts:37-39 and 73-75), and no route deletes a user. A write for an id with no user row (`authorId`, or the `userId` of a like or comment) would fail on the user foreign key; `BlogStore.Store.CreatePost`, `BlogStore.Store.ToggleLike` and `BlogStore.Store.AddComment` never fail that way.
- `BlogStore.Store.ListPosts` does not fix the order of posts with equal `createdAt`. The ghost witness `ordered` may be any newest-first permutation.
- Zod's error message text is not modelled. A validation error carries the schema's name as its message.
- Email and URL syntax are abstract predicates.
- `parseInt` and `c.req.json()` are not modelled. Page, limit and bodies are values after parsing. A `NaN` page or limit, and a body that is not JSON (a `SyntaxError`, answered 500), are not modelled.
- Concurrency is not modelled. The two listing queries under `Promise.all` read the same store state. Two racing like toggles, where the second create would hit the unique key, are outside a sequential model.
- `Math.ceil(total / limit)` is integer ceiling division, since both operands are integers.
- `console.error` logging in the error handler is not modelled.
