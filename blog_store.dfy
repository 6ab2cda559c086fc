/**
 * The persistence side of the blog routes as an in-memory store: the post
 * table (with each post's images and tag associations), the tag table, the
 * like table and the comment table.  Each route handler that touches the
 * database is a method; the authenticated user id is its first parameter.
 */
module BlogStore {
  import opened Wrappers
  import opened Validation
  import opened Posts
  import opened ErrorHandler
  import Pagination

  /** What a handler produces: a value, a thrown error, or a write the database refused. */
  datatype Reply<T> = Ok(value: T) | Thrown(error: Error) | Refused

  /** A post as returned by `findFirst` with its likes and comments included. */
  datatype PostDetail = PostDetail(post: Post, likedBy: set<UserId>, comments: seq<Comment>)

  /** The body of the listing: a page of posts and its pagination metadata. */
  datatype PostPage = PostPage(posts: seq<Post>, total: nat, page: nat, limit: nat, totalPages: nat)

  const CreatePostSchema := "createPostInput"
  const UpdatePostSchema := "updatePostInput"
  const CommentSchema := "createCommentInput"
  const PaginationSchema := "paginationInput"

  /** The `ZodError` thrown by `schema.parse`; its message text is not modelled. */
  function ValidationFailure(schema: string): (e: Error)
    ensures IsValidation(e)
  {
    Error(OtherClass, ZodErrorName, schema)
  }

  /** `new HTTPException(404, { message: "Post not found" })`: the handler answers 404 with that message. */
  function PostNotFound(): (e: Error)
    ensures IsHttp(e)
    ensures Handle(e) == ErrorResponse(404, ErrorBody("Post not found", None))
  {
    Error(HTTPException(404), "Error", "Post not found")
  }

  const Unliked := "Post unliked"
  const Liked := "Post liked"
  const Deleted := "Post deleted successfully"

  /** The update and delete filter `{ id, authorId: requester }` matches a row. */
  predicate OwnsPost(ps: seq<Post>, id: PostId, requester: UserId) {
    exists i :: 0 <= i < |ps| && ps[i].id == id && ps[i].authorId == requester
  }

  /** The `findFirst` filter `{ id, OR: [isPrivate: false, authorId: requester] }` matches a row. */
  predicate SeesPost(ps: seq<Post>, id: PostId, requester: UserId) {
    exists i :: 0 <= i < |ps| && ps[i].id == id && CanSee(ps[i], requester)
  }

  /**
   * `w` is page `page` of `limit` rows of some newest-first order of `vs`
   * (which order among equal timestamps the database picks is left open).
   */
  ghost predicate NewestFirstPage(w: seq<Post>, vs: seq<Post>, page: nat, limit: nat)
    requires page >= 1
  {
    exists o: seq<Post> :: NewestFirst(o) && multiset(o) == multiset(vs) && w == Pagination.Window(o, page, limit)
  }

  /** The users who like post `id`. */
  function LikersOf(likes: set<Like>, id: PostId): (us: set<UserId>)
    ensures forall u :: u in us <==> (u, id) in likes
  {
    set l | l in likes && l.1 == id :: l.0
  }

  /** The comments on post `id`, in the order they were written. */
  function CommentsOn(cs: seq<Comment>, id: PostId): (r: seq<Comment>)
    ensures forall c :: c in r <==> c in cs && c.postId == id
  {
    if cs == [] then []
    else
      assert cs == [cs[0]] + cs[1..];
      (if cs[0].postId == id then [cs[0]] else []) + CommentsOn(cs[1..], id)
  }

  /** The comments on posts other than `id`, in order (what a cascading delete of `id` leaves). */
  function CommentsExcept(cs: seq<Comment>, id: PostId): (r: seq<Comment>)
    ensures forall c :: c in r <==> c in cs && c.postId != id
  {
    if cs == [] then []
    else
      assert cs == [cs[0]] + cs[1..];
      (if cs[0].postId == id then [] else [cs[0]]) + CommentsExcept(cs[1..], id)
  }

  /** The likes on posts other than `id` (what a cascading delete of `id` leaves). */
  function LikesExcept(likes: set<Like>, id: PostId): set<Like> {
    set l | l in likes && l.1 != id
  }

  class Store {
    var posts: seq<Post>
    var tagNames: set<string>
    var likes: set<Like>
    var comments: seq<Comment>
    var nextPostId: PostId
    var nextCommentId: nat

    /**
     * Ids are unique and below the next id to hand out, every associated tag
     * is in the tag table, and every like and comment refers to a stored
     * post (the foreign keys of the like and comment tables).
     */
    ghost predicate Valid()
      reads this
    {
      && DistinctIds(posts)
      && (forall p :: p in posts ==> p.id < nextPostId && p.tags <= tagNames)
      && (forall c :: c in comments ==> c.id < nextCommentId && c.postId in Ids(posts))
      && (forall l :: l in likes ==> l.1 in Ids(posts))
    }

    constructor ()
      ensures Valid()
      ensures posts == [] && tagNames == {} && likes == {} && comments == []
    {
      posts, tagNames, likes, comments := [], {}, {}, [];
      nextPostId, nextCommentId := 0, 0;
    }

    /** The index of the post with id `id`, or -1 when there is none. */
    method FindPost(id: PostId) returns (k: int)
      ensures -1 <= k < |posts|
      ensures 0 <= k ==> posts[k].id == id
      ensures k == -1 <==> !HasPost(posts, id)
    {
      k := 0;
      while k < |posts|
        invariant 0 <= k <= |posts|
        invariant forall i :: 0 <= i < k ==> posts[i].id != id
      {
        if posts[k].id == id {
          return;
        }
        k := k + 1;
      }
      k := -1;
    }

    /** With distinct ids, the index found for `id` is the only one holding it. */
    lemma OnlyIndex(k: int, id: PostId)
      requires Valid() && 0 <= k < |posts| && posts[k].id == id
      ensures forall i :: 0 <= i < |posts| && posts[i].id == id ==> i == k
    {
    }

    /** `POST /`: a new post owned by `author`, its images, and its tags by connect-or-create. */
    method CreatePost(author: UserId, input: PostInput, isUrl: string -> bool, now: int) returns (r: Reply<Post>)
      requires Valid()
      modifies this
      ensures Valid()
      ensures r.Ok? <==> CreatePostValid(input, isUrl)
      ensures r.Ok? ==>
        && r.value == NewPost(old(nextPostId), author, input, now)
        && posts == old(posts) + [r.value]
        && tagNames == old(tagNames) + r.value.tags
        && nextPostId == old(nextPostId) + 1
      ensures !r.Ok? ==>
        && r == Thrown(ValidationFailure(CreatePostSchema))
        && posts == old(posts) && tagNames == old(tagNames) && nextPostId == old(nextPostId)
      ensures likes == old(likes) && comments == old(comments) && nextCommentId == old(nextCommentId)
    {
      if !CreatePostValid(input, isUrl) {
        return Thrown(ValidationFailure(CreatePostSchema));
      }
      var post := NewPost(nextPostId, author, input, now);
      IdsAppend(posts, post);
      posts := posts + [post];
      tagNames := tagNames + post.tags;
      nextPostId := nextPostId + 1;
      r := Ok(post);
    }

    /** `PUT /:id`: only the owner's post changes; supplied images and tags replace the old ones. */
    method UpdatePost(requester: UserId, id: PostId, input: PostInput, isUrl: string -> bool) returns (r: Reply<Post>)
      requires Valid()
      modifies this
      ensures Valid()
      ensures !UpdatePostValid(input, isUrl) ==> r == Thrown(ValidationFailure(UpdatePostSchema))
      ensures UpdatePostValid(input, isUrl) ==> (r.Ok? <==> OwnsPost(old(posts), id, requester))
      ensures UpdatePostValid(input, isUrl) && !OwnsPost(old(posts), id, requester) ==> r == Refused
      ensures r.Ok? ==>
        && |posts| == |old(posts)|
        && (forall i :: 0 <= i < |posts| ==>
              posts[i] == if old(posts)[i].id == id then ApplyUpdate(old(posts)[i], input) else old(posts)[i])
        && r.value in posts && r.value.id == id && r.value.authorId == requester
        && tagNames == old(tagNames) + (if input.tags.Some? then TagSet(input.tags.value) else {})
      ensures !r.Ok? ==> posts == old(posts) && tagNames == old(tagNames)
      ensures likes == old(likes) && comments == old(comments)
      ensures nextPostId == old(nextPostId) && nextCommentId == old(nextCommentId)
    {
      if !UpdatePostValid(input, isUrl) {
        return Thrown(ValidationFailure(UpdatePostSchema));
      }
      var k := FindPost(id);
      if k < 0 || posts[k].authorId != requester {
        if k >= 0 {
          OnlyIndex(k, id);
        }
        return Refused;
      }
      OnlyIndex(k, id);
      var updated := ApplyUpdate(posts[k], input);
      ghost var before := posts;
      IdsReplace(posts, k, updated);
      posts := posts[k := updated];
      tagNames := tagNames + (if input.tags.Some? then TagSet(input.tags.value) else {});
      assert forall p :: p in posts ==> p in before || p == updated;
      r := Ok(updated);
    }

    /** `GET /:id`: the post, when it exists and `requester` may see it; otherwise 404. */
    method GetPost(requester: UserId, id: PostId) returns (r: Reply<PostDetail>)
      requires Valid()
      ensures r.Ok? <==> SeesPost(posts, id, requester)
      ensures r.Ok? ==>
        && r.value.post in posts && r.value.post.id == id && CanSee(r.value.post, requester)
        && r.value.likedBy == LikersOf(likes, id)
        && r.value.comments == CommentsOn(comments, id)
      ensures !r.Ok? ==> r == Thrown(PostNotFound())
    {
      var k := FindPost(id);
      if k >= 0 {
        OnlyIndex(k, id);
      }
      if k < 0 || !CanSee(posts[k], requester) {
        return Thrown(PostNotFound());
      }
      r := Ok(PostDetail(posts[k], LikersOf(likes, id), CommentsOn(comments, id)));
    }

    /**
     * `GET /?page&limit`: the requested window of the visible posts, newest
     * first, with the count of the visible posts.  `ordered` is the order
     * the database chose among posts with equal timestamps.
     */
    method ListPosts(requester: UserId, q: PageQuery) returns (r: Reply<PostPage>, ghost ordered: seq<Post>)
      ensures ParsePagination(q).None? ==> r == Thrown(ValidationFailure(PaginationSchema))
      ensures ParsePagination(q).Some? ==> r.Ok?
      ensures r.Ok? ==>
        && ParsePagination(q) == Some(PageRequest(r.value.page, r.value.limit))
        && NewestFirst(ordered)
        && multiset(ordered) == multiset(Visible(posts, requester))
        && r.value.posts == Pagination.Window(ordered, r.value.page, r.value.limit)
        && r.value.total == CountVisible(posts, requester) == |ordered|
        && r.value.totalPages == Pagination.TotalPages(r.value.total, r.value.limit)
      ensures r.Ok? ==> |r.value.posts| <= r.value.limit
      ensures r.Ok? ==> forall p :: p in r.value.posts ==> p in posts && CanSee(p, requester)
    {
      ordered := [];
      var req := ParsePagination(q);
      if req.None? {
        return Thrown(ValidationFailure(PaginationSchema)), ordered;
      }
      var page, limit := req.value.page, req.value.limit;
      var visible := Visible(posts, requester);
      var sorted := SortNewestFirst(visible);
      ordered := sorted;
      var window := Pagination.Window(sorted, page, limit);
      var total := CountVisible(posts, requester);
      CountMatchesListing(posts, requester);
      assert |ordered| == |multiset(ordered)| == |visible|;
      forall p | p in window ensures p in posts && CanSee(p, requester) {
        var k :| 0 <= k < |window| && window[k] == p;
        assert p in multiset(ordered);
      }
      r := Ok(PostPage(window, total, page, limit, Pagination.TotalPages(total, limit)));
    }

    /** `POST /:id/like`: removes an existing like, otherwise adds one. */
    method ToggleLike(userId: UserId, id: PostId) returns (r: Reply<string>)
      requires Valid()
      modifies this
      ensures Valid()
      ensures (userId, id) in old(likes) ==> r == Ok(Unliked) && likes == old(likes) - {(userId, id)}
      ensures (userId, id) !in old(likes) && HasPost(old(posts), id) ==>
                r == Ok(Liked) && likes == old(likes) + {(userId, id)}
      ensures (userId, id) !in old(likes) && !HasPost(old(posts), id) ==> r == Refused && likes == old(likes)
      ensures r.Ok? ==> likes == Toggle(old(likes), (userId, id))
      ensures posts == old(posts) && tagNames == old(tagNames) && comments == old(comments)
      ensures nextPostId == old(nextPostId) && nextCommentId == old(nextCommentId)
    {
      if (userId, id) in likes {
        likes := likes - {(userId, id)};
        return Ok(Unliked);
      }
      var k := FindPost(id);
      if k < 0 {
        return Refused;
      }
      likes := likes + {(userId, id)};
      r := Ok(Liked);
    }

    /** `POST /:id/comment`: appends a comment by `userId` on an existing post. */
    method AddComment(userId: UserId, id: PostId, input: CommentInput) returns (r: Reply<Comment>)
      requires Valid()
      modifies this
      ensures Valid()
      ensures !CommentValid(input) ==> r == Thrown(ValidationFailure(CommentSchema))
      ensures CommentValid(input) && !HasPost(old(posts), id) ==> r == Refused
      ensures CommentValid(input) && HasPost(old(posts), id) ==>
                r == Ok(Comment(old(nextCommentId), input.content, userId, id))
      ensures r.Ok? ==> comments == old(comments) + [r.value] && nextCommentId == old(nextCommentId) + 1
      ensures !r.Ok? ==> comments == old(comments) && nextCommentId == old(nextCommentId)
      ensures posts == old(posts) && tagNames == old(tagNames) && likes == old(likes)
      ensures nextPostId == old(nextPostId)
    {
      if !CommentValid(input) {
        return Thrown(ValidationFailure(CommentSchema));
      }
      var k := FindPost(id);
      if k < 0 {
        return Refused;
      }
      var c := Comment(nextCommentId, input.content, userId, id);
      comments := comments + [c];
      nextCommentId := nextCommentId + 1;
      r := Ok(c);
    }

    /**
     * `DELETE /:id`: removes the owner's post, and with it (by cascade) its
     * likes and comments; anyone else's attempt changes nothing.
     */
    method DeletePost(requester: UserId, id: PostId) returns (r: Reply<string>)
      requires Valid()
      modifies this
      ensures Valid()
      ensures r.Ok? <==> OwnsPost(old(posts), id, requester)
      ensures r.Ok? ==>
        && r.value == Deleted
        && posts == Without(old(posts), id)
        && likes == LikesExcept(old(likes), id)
        && comments == CommentsExcept(old(comments), id)
      ensures !r.Ok? ==> r == Refused && posts == old(posts) && likes == old(likes) && comments == old(comments)
      ensures tagNames == old(tagNames)
      ensures nextPostId == old(nextPostId) && nextCommentId == old(nextCommentId)
    {
      var k := FindPost(id);
      if k < 0 || posts[k].authorId != requester {
        if k >= 0 {
          OnlyIndex(k, id);
        }
        return Refused;
      }
      RemoveAtIsWithout(posts, k);
      RemoveAtDistinct(posts, k);
      IdsWithout(posts, id);
      posts := posts[..k] + posts[k + 1..];
      likes := LikesExcept(likes, id);
      comments := CommentsExcept(comments, id);
      r := Ok(Deleted);
    }
  }

  /** Removing one post keeps the remaining ids distinct. */
  lemma RemoveAtDistinct(ps: seq<Post>, k: nat)
    requires k < |ps| && DistinctIds(ps)
    ensures DistinctIds(ps[..k] + ps[k + 1..])
    ensures forall p :: p in ps[..k] + ps[k + 1..] ==> p in ps
  {
    var r := ps[..k] + ps[k + 1..];
    forall i, j | 0 <= i < j < |r| ensures r[i].id != r[j].id {
      var i' := if i < k then i else i + 1;
      var j' := if j < k then j else j + 1;
      assert r[i] == ps[i'] && r[j] == ps[j'];
    }
  }
}
