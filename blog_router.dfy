/**
 * The blog router: the authorization middleware in front of every route,
 * dispatch to the store's handlers, and the translation of each handler's
 * reply into an HTTP response (errors through `ErrorHandler.Handle`).
 */
module BlogRouter {
  import opened Wrappers
  import opened Validation
  import opened Posts
  import opened ErrorHandler
  import opened BlogStore

  /**
   * The collaborators a request runs against: token verification with the
   * shared secret, the URL syntax check, and the error the database raises
   * when it refuses a write (its class is not modelled).
   */
  datatype Env = Env(verify: string -> Option<UserId>, isUrl: string -> bool, storeError: Error)

  /** The guarded routes, with their path parameters and parsed bodies. */
  datatype Request =
    | CreatePostReq(input: PostInput)
    | UpdatePostReq(id: PostId, input: PostInput)
    | GetPostReq(id: PostId)
    | ListPostsReq(query: PageQuery)
    | LikePostReq(id: PostId)
    | CommentReq(id: PostId, comment: CommentInput)
    | DeletePostReq(id: PostId)

  datatype Body =
    | Message(message: string)
    | ErrorJson(error: ErrorBody)
    | PostJson(post: Post)
    | DetailJson(detail: PostDetail)
    | PageJson(page: PostPage)
    | CommentJson(comment: Comment)

  datatype Response = Response(status: int, body: Body)

  /**
   * The middleware's refusal: status 403 with `{ message: "Please log in to continue" }`,
   * answered directly rather than through the error handler.
   */
  function LoginRequired(): (r: Response)
    ensures r.status == 403 && !r.body.ErrorJson?
    ensures r.body == Message("Please log in to continue")
  {
    Response(403, Message("Please log in to continue"))
  }

  /** `c.req.header("authorization") || ""`. */
  function Credential(header: Option<string>): (c: string)
    ensures header.None? ==> c == ""
    ensures header.Some? ==> c == header.value
  {
    header.GetOr("")
  }

  /** Verifies the credential; a missing header is verified as the empty string. */
  function Authenticate(header: Option<string>, verify: string -> Option<UserId>): (r: Option<UserId>)
    ensures header.None? ==> r == verify("")
    ensures header.Some? ==> r == verify(header.value)
  {
    verify(Credential(header))
  }

  /** A missing header and an empty one are the same credential. */
  lemma MissingHeaderIsEmpty(verify: string -> Option<UserId>)
    ensures Authenticate(None, verify) == Authenticate(Some(""), verify)
  {
  }

  /** An error that escapes a handler, answered by the error handler; only an `HTTPException` picks its own status. */
  function FromError(e: Error): (resp: Response)
    ensures resp.body.ErrorJson?
    ensures !e.cls.HTTPException? ==> resp.status == 400 || resp.status == 409 || resp.status == 500
    ensures e.cls.HTTPException? ==> resp.status == e.cls.status
  {
    var er := Handle(e);
    Response(er.status, ErrorJson(er.body))
  }

  /**
   * `c.json(value)` for a handler's value; a thrown error, or the database's
   * refusal of a write, goes to the error handler instead.
   */
  function Render<T>(r: Reply<T>, toBody: T -> Body, storeError: Error): (resp: Response)
    ensures r.Ok? ==> resp == Response(200, toBody(r.value))
    ensures r.Thrown? ==> resp == FromError(r.error)
    ensures r.Refused? ==> resp == FromError(storeError)
    ensures !r.Ok? ==> resp.body.ErrorJson?
  {
    match r
    case Ok(v) => Response(200, toBody(v))
    case Thrown(e) => FromError(e)
    case Refused => FromError(storeError)
  }

  /** A post that is missing or hidden is answered 404 "Post not found"; a bad body 400. */
  lemma FailureResponses(schema: string)
    ensures FromError(PostNotFound()) == Response(404, ErrorJson(ErrorBody("Post not found", None)))
    ensures FromError(ValidationFailure(schema)) == Response(400, ErrorJson(ErrorBody("Validation error", Some(schema))))
  {
  }

  /**
   * One guarded request: the middleware, then the route's handler, run as
   * the user id the credential verifies to.
   */
  method Serve(store: Store, header: Option<string>, req: Request, env: Env, now: int) returns (resp: Response)
    requires store.Valid()
    modifies store
    ensures store.Valid()
    ensures Authenticate(header, env.verify).None? ==> resp == LoginRequired() && unchanged(store)
    ensures req.GetPostReq? || req.ListPostsReq? ==> unchanged(store)
    // POST /
    ensures Authenticate(header, env.verify).Some? && req.CreatePostReq? ==>
              var who := Authenticate(header, env.verify).value;
              && (if CreatePostValid(req.input, env.isUrl) then
                    && resp == Response(200, PostJson(NewPost(old(store.nextPostId), who, req.input, now)))
                    && store.posts == old(store.posts) + [resp.body.post]
                    && store.tagNames == old(store.tagNames) + resp.body.post.tags
                    && store.nextPostId == old(store.nextPostId) + 1
                  else
                    && resp == FromError(ValidationFailure(CreatePostSchema))
                    && store.posts == old(store.posts) && store.tagNames == old(store.tagNames)
                    && store.nextPostId == old(store.nextPostId))
              && store.likes == old(store.likes) && store.comments == old(store.comments)
              && store.nextCommentId == old(store.nextCommentId)
    // PUT /:id
    ensures Authenticate(header, env.verify).Some? && req.UpdatePostReq? ==>
              var who := Authenticate(header, env.verify).value;
              && (if !UpdatePostValid(req.input, env.isUrl) then
                    && resp == FromError(ValidationFailure(UpdatePostSchema))
                    && store.posts == old(store.posts) && store.tagNames == old(store.tagNames)
                  else if OwnsPost(old(store.posts), req.id, who) then
                    && resp.status == 200 && resp.body.PostJson?
                    && resp.body.post in store.posts && resp.body.post.id == req.id
                    && resp.body.post.authorId == who
                    && |store.posts| == |old(store.posts)|
                    && (forall i :: 0 <= i < |store.posts| ==>
                          store.posts[i] == if old(store.posts)[i].id == req.id
                                            then ApplyUpdate(old(store.posts)[i], req.input)
                                            else old(store.posts)[i])
                    && store.tagNames == old(store.tagNames)
                                       + (if req.input.tags.Some? then TagSet(req.input.tags.value) else {})
                  else
                    && resp == FromError(env.storeError)
                    && store.posts == old(store.posts) && store.tagNames == old(store.tagNames))
              && store.likes == old(store.likes) && store.comments == old(store.comments)
              && store.nextPostId == old(store.nextPostId) && store.nextCommentId == old(store.nextCommentId)
    // GET /:id
    ensures Authenticate(header, env.verify).Some? && req.GetPostReq? ==>
              var who := Authenticate(header, env.verify).value;
              if SeesPost(store.posts, req.id, who) then
                && resp.status == 200 && resp.body.DetailJson?
                && resp.body.detail.post in store.posts && resp.body.detail.post.id == req.id
                && CanSee(resp.body.detail.post, who)
                && resp.body.detail.likedBy == LikersOf(store.likes, req.id)
                && resp.body.detail.comments == CommentsOn(store.comments, req.id)
              else
                resp == Response(404, ErrorJson(ErrorBody("Post not found", None)))
    // GET /
    ensures Authenticate(header, env.verify).Some? && req.ListPostsReq? ==>
              var who := Authenticate(header, env.verify).value;
              match ParsePagination(req.query)
              case None => resp == FromError(ValidationFailure(PaginationSchema))
              case Some(pr) =>
                && resp.status == 200 && resp.body.PageJson?
                && resp.body.page.page == pr.page && resp.body.page.limit == pr.limit
                && NewestFirstPage(resp.body.page.posts, Visible(store.posts, who), pr.page, pr.limit)
                && (forall p :: p in resp.body.page.posts ==> p in store.posts && CanSee(p, who))
                && resp.body.page.total == CountVisible(store.posts, who)
                && resp.body.page.totalPages == Pagination.TotalPages(resp.body.page.total, pr.limit)
                && |resp.body.page.posts| <= pr.limit
    // POST /:id/like
    ensures Authenticate(header, env.verify).Some? && req.LikePostReq? ==>
              var who := Authenticate(header, env.verify).value;
              && (if (who, req.id) in old(store.likes) || HasPost(old(store.posts), req.id) then
                    && resp == Response(200, Message(if (who, req.id) in old(store.likes) then Unliked else Liked))
                    && store.likes == Toggle(old(store.likes), (who, req.id))
                  else
                    resp == FromError(env.storeError) && store.likes == old(store.likes))
              && store.posts == old(store.posts) && store.tagNames == old(store.tagNames)
              && store.comments == old(store.comments)
              && store.nextPostId == old(store.nextPostId) && store.nextCommentId == old(store.nextCommentId)
    // POST /:id/comment
    ensures Authenticate(header, env.verify).Some? && req.CommentReq? ==>
              var who := Authenticate(header, env.verify).value;
              && (if !CommentValid(req.comment) then
                    && resp == FromError(ValidationFailure(CommentSchema))
                    && store.comments == old(store.comments) && store.nextCommentId == old(store.nextCommentId)
                  else if HasPost(old(store.posts), req.id) then
                    && resp == Response(200, CommentJson(
                                 Comment(old(store.nextCommentId), req.comment.content, who, req.id)))
                    && store.comments == old(store.comments) + [resp.body.comment]
                    && store.nextCommentId == old(store.nextCommentId) + 1
                  else
                    && resp == FromError(env.storeError)
                    && store.comments == old(store.comments) && store.nextCommentId == old(store.nextCommentId))
              && store.posts == old(store.posts) && store.tagNames == old(store.tagNames)
              && store.likes == old(store.likes) && store.nextPostId == old(store.nextPostId)
    // DELETE /:id
    ensures Authenticate(header, env.verify).Some? && req.DeletePostReq? ==>
              var who := Authenticate(header, env.verify).value;
              && (if OwnsPost(old(store.posts), req.id, who) then
                    && resp == Response(200, Message(Deleted))
                    && store.posts == Without(old(store.posts), req.id)
                    && store.likes == LikesExcept(old(store.likes), req.id)
                    && store.comments == CommentsExcept(old(store.comments), req.id)
                  else
                    && resp == FromError(env.storeError)
                    && store.posts == old(store.posts) && store.likes == old(store.likes)
                    && store.comments == old(store.comments))
              && store.tagNames == old(store.tagNames)
              && store.nextPostId == old(store.nextPostId) && store.nextCommentId == old(store.nextCommentId)
  {
    var who := Authenticate(header, env.verify);
    if who.None? {
      return LoginRequired();
    }
    var userId := who.value;
    match req {
      case CreatePostReq(input) =>
        var r := store.CreatePost(userId, input, env.isUrl, now);
        resp := Render(r, (p: Post) => PostJson(p), env.storeError);
      case UpdatePostReq(id, input) =>
        var r := store.UpdatePost(userId, id, input, env.isUrl);
        resp := Render(r, (p: Post) => PostJson(p), env.storeError);
      case GetPostReq(id) =>
        var r := store.GetPost(userId, id);
        resp := Render(r, (d: PostDetail) => DetailJson(d), env.storeError);
      case ListPostsReq(query) =>
        var r;
        ghost var ordered;
        r, ordered := store.ListPosts(userId, query);
        resp := Render(r, (pg: PostPage) => PageJson(pg), env.storeError);
        if r.Ok? {
          assert NewestFirstPage(r.value.posts, Visible(store.posts, userId), r.value.page, r.value.limit) by {
            assert NewestFirst(ordered) && multiset(ordered) == multiset(Visible(store.posts, userId));
          }
        }
      case LikePostReq(id) =>
        var r := store.ToggleLike(userId, id);
        resp := Render(r, (m: string) => Message(m), env.storeError);
      case CommentReq(id, comment) =>
        var r := store.AddComment(userId, id, comment);
        resp := Render(r, (c: Comment) => CommentJson(c), env.storeError);
      case DeletePostReq(id) =>
        var r := store.DeletePost(userId, id);
        resp := Render(r, (m: string) => Message(m), env.storeError);
    }
  }

  /** Two likes in a row by the same user: "Post liked", then "Post unliked", and the likes are as before. */
  method LikeTwice(store: Store, userId: UserId, id: PostId) returns (first: Reply<string>, second: Reply<string>)
    requires store.Valid() && HasPost(store.posts, id) && (userId, id) !in store.likes
    modifies store
    ensures store.Valid()
    ensures first == Ok(Liked) && second == Ok(Unliked)
    ensures store.likes == old(store.likes) && store.posts == old(store.posts)
  {
    first := store.ToggleLike(userId, id);
    second := store.ToggleLike(userId, id);
  }

  /**
   * Someone other than the author, or anyone when no post has the id, can
   * neither update nor delete it; nothing changes.
   */
  method NonOwnerCannotWrite(store: Store, intruder: UserId, id: PostId, input: PostInput, isUrl: string -> bool)
    returns (updated: Reply<Post>, deleted: Reply<string>)
    requires store.Valid() && !OwnsPost(store.posts, id, intruder)
    requires UpdatePostValid(input, isUrl)
    modifies store
    ensures store.Valid()
    ensures updated == Refused && deleted == Refused
    ensures store.posts == old(store.posts) && store.tagNames == old(store.tagNames)
    ensures store.likes == old(store.likes) && store.comments == old(store.comments)
  {
    updated := store.UpdatePost(intruder, id, input, isUrl);
    deleted := store.DeletePost(intruder, id);
  }

  /** A private post is hidden from everyone but its author, both by id and in every page of the listing. */
  method PrivatePostHidden(store: Store, requester: UserId, id: PostId, q: PageQuery)
    returns (single: Reply<PostDetail>, listing: Reply<PostPage>)
    requires store.Valid()
    requires exists i :: 0 <= i < |store.posts| && store.posts[i].id == id
                         && store.posts[i].isPrivate && store.posts[i].authorId != requester
    ensures single == Thrown(PostNotFound())
    ensures listing.Ok? ==> forall p :: p in listing.value.posts ==> p.id != id
  {
    single := store.GetPost(requester, id);
    ghost var ordered;
    listing, ordered := store.ListPosts(requester, q);
  }
}
