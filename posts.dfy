/**
 * Posts, comments and likes as values, and the pure rules the blog routes
 * apply to them: the visibility predicate, the listing order, the like
 * toggle, and what create and update make of a validated request body.
 */
module Posts {
  import opened Wrappers
  import opened Validation

  type UserId = string
  type PostId = nat

  /** A post row together with its image URLs and the names of its tags. */
  datatype Post = Post(
    id: PostId,
    title: string,
    content: string,
    isPrivate: bool,
    authorId: UserId,
    createdAt: int,
    imageUrls: seq<string>,
    tags: set<string>)

  /** A like row: the pair (userId, postId), unique by the `userId_postId` key. */
  type Like = (UserId, PostId)

  datatype Comment = Comment(id: nat, content: string, userId: UserId, postId: PostId)

  /** The visibility predicate `isPrivate: false OR authorId: requester`. */
  predicate CanSee(p: Post, requester: UserId) {
    !p.isPrivate || p.authorId == requester
  }

  /** The posts of `ps` that `requester` may see, in their original order. */
  function Visible(ps: seq<Post>, requester: UserId): (vs: seq<Post>)
    ensures forall p :: p in vs <==> p in ps && CanSee(p, requester)
    ensures forall p :: multiset(vs)[p] == if CanSee(p, requester) then multiset(ps)[p] else 0
  {
    if ps == [] then []
    else
      assert ps == [ps[0]] + ps[1..];
      (if CanSee(ps[0], requester) then [ps[0]] else []) + Visible(ps[1..], requester)
  }

  /** The `count` query: the number of posts of `ps` that satisfy the visibility predicate. */
  function CountVisible(ps: seq<Post>, requester: UserId): (n: nat)
    ensures n <= |ps|
    ensures n == |ps| <==> forall i :: 0 <= i < |ps| ==> CanSee(ps[i], requester)
  {
    if ps == [] then 0
    else (if CanSee(ps[0], requester) then 1 else 0) + CountVisible(ps[1..], requester)
  }

  /** Count and listing use the same predicate, so the reported total is the number of listed candidates. */
  lemma {:induction false} CountMatchesListing(ps: seq<Post>, requester: UserId)
    ensures CountVisible(ps, requester) == |Visible(ps, requester)|
  {
    if ps != [] {
      CountMatchesListing(ps[1..], requester);
    }
  }

  /** A private post is never among the posts a non-owner may see; a public one always is. */
  lemma VisibilityOfPost(ps: seq<Post>, p: Post, requester: UserId)
    requires p in ps
    ensures p.isPrivate && p.authorId != requester ==> p !in Visible(ps, requester)
    ensures !p.isPrivate ==> p in Visible(ps, requester)
    ensures p.authorId == requester ==> p in Visible(ps, requester)
  {
  }

  /** `orderBy: { createdAt: 'desc' }`. */
  predicate NewestFirst(s: seq<Post>) {
    forall i, j :: 0 <= i < j < |s| ==> s[i].createdAt >= s[j].createdAt
  }

  /** No post of `s` is newer than `t`. */
  predicate NotNewerThan(s: seq<Post>, t: int) {
    forall q :: q in s ==> q.createdAt <= t
  }

  lemma HeadIsNewest(s: seq<Post>)
    requires NewestFirst(s)
    ensures s != [] ==> NotNewerThan(s, s[0].createdAt)
  {
    forall q | q in s ensures q.createdAt <= s[0].createdAt {
      var j :| 0 <= j < |s| && s[j] == q;
      assert s != [];
      if j > 0 {
        assert s[0].createdAt >= s[j].createdAt;
      }
    }
  }

  lemma ConsNewestFirst(h: Post, s: seq<Post>)
    requires NewestFirst(s) && NotNewerThan(s, h.createdAt)
    ensures NewestFirst([h] + s)
  {
    var r := [h] + s;
    forall i, j | 0 <= i < j < |r| ensures r[i].createdAt >= r[j].createdAt {
      if i == 0 {
        assert r[j] in s;
      } else {
        assert r[i] == s[i - 1] && r[j] == s[j - 1];
      }
    }
  }

  /** Inserts `p` into a newest-first sequence, after every strictly newer post. */
  function InsertByDate(sorted: seq<Post>, p: Post): (r: seq<Post>)
    requires NewestFirst(sorted)
    ensures NewestFirst(r)
    ensures multiset(r) == multiset(sorted) + multiset{p}
    ensures forall q :: q in r ==> q in sorted || q == p
  {
    if sorted == [] || p.createdAt >= sorted[0].createdAt then
      HeadIsNewest(sorted);
      ConsNewestFirst(p, sorted);
      [p] + sorted
    else
      var head := sorted[0];
      assert sorted == [head] + sorted[1..];
      var rest := InsertByDate(sorted[1..], p);
      HeadIsNewest(sorted);
      assert NotNewerThan(rest, head.createdAt);
      ConsNewestFirst(head, rest);
      [head] + rest
  }

  /** The visible posts in `orderBy: createdAt desc` order; the order of equal timestamps is not specified. */
  function SortNewestFirst(s: seq<Post>): (r: seq<Post>)
    ensures NewestFirst(r)
    ensures multiset(r) == multiset(s)
  {
    if s == [] then []
    else
      assert s == [s[0]] + s[1..];
      InsertByDate(SortNewestFirst(s[1..]), s[0])
  }

  /** `connectOrCreate` by name: the tag names of a list, each once. */
  function TagSet(names: seq<string>): (t: set<string>)
    ensures forall n :: n in t <==> n in names
    ensures |t| <= |names|
  {
    if names == [] then {}
    else
      var rest := TagSet(names[1..]);
      assert names == [names[0]] + names[1..];
      {names[0]} + rest
  }

  /** Creating a post with the tag list `["x", "x"]` associates the single tag "x". */
  lemma DuplicateTagNamesCollapse()
    ensures TagSet(["x", "x"]) == {"x"}
  {
  }

  /** The post that `prisma.post.create` stores for a validated create body. */
  function NewPost(id: PostId, author: UserId, input: PostInput, now: int): (p: Post)
    requires input.title.Some? && input.content.Some?
    ensures p.id == id && p.authorId == author && p.createdAt == now
    ensures p.title == input.title.value && p.content == input.content.value
    ensures p.isPrivate <==> input.isPrivate == Some(true)
    ensures p.imageUrls == if input.imageUrls.Some? then input.imageUrls.value else []
    ensures forall t :: t in p.tags <==> input.tags.Some? && t in input.tags.value
  {
    Post(id, input.title.value, input.content.value, input.isPrivate.GetOr(false), author, now,
         input.imageUrls.GetOr([]), TagSet(input.tags.GetOr([])))
  }

  /** A new post belongs to its creator, who can therefore always read it back. */
  lemma NewPostVisibleToAuthor(id: PostId, author: UserId, input: PostInput, now: int, other: UserId)
    requires input.title.Some? && input.content.Some?
    ensures CanSee(NewPost(id, author, input, now), author)
    ensures input.isPrivate.None? ==> CanSee(NewPost(id, author, input, now), other)
  {
  }

  /** The row `prisma.post.update` leaves behind: supplied fields replace, omitted fields stay. */
  function ApplyUpdate(p: Post, input: PostInput): (q: Post)
    ensures q.id == p.id && q.authorId == p.authorId && q.createdAt == p.createdAt
    ensures q.title == (if input.title.Some? then input.title.value else p.title)
    ensures q.content == (if input.content.Some? then input.content.value else p.content)
    ensures q.isPrivate == (if input.isPrivate.Some? then input.isPrivate.value else p.isPrivate)
    ensures q.imageUrls == (if input.imageUrls.Some? then input.imageUrls.value else p.imageUrls)
    ensures forall t :: t in q.tags <==> if input.tags.Some? then t in input.tags.value else t in p.tags
  {
    Post(p.id,
         input.title.GetOr(p.title),
         input.content.GetOr(p.content),
         input.isPrivate.GetOr(p.isPrivate),
         p.authorId,
         p.createdAt,
         if input.imageUrls.Some? then input.imageUrls.value else p.imageUrls,
         if input.tags.Some? then TagSet(input.tags.value) else p.tags)
  }

  /** An update body with nothing in it changes nothing; empty lists clear images and tags. */
  lemma UpdateEdgeCases(p: Post)
    ensures ApplyUpdate(p, PostInput(None, None, None, None, None)) == p
    ensures ApplyUpdate(p, PostInput(None, None, None, Some([]), Some([]))) == p.(imageUrls := [], tags := {})
  {
  }

  /** Applying the same update twice is the same as applying it once. */
  lemma UpdateIdempotent(p: Post, input: PostInput)
    ensures ApplyUpdate(ApplyUpdate(p, input), input) == ApplyUpdate(p, input)
  {
  }

  /** A post with id `id` is stored. */
  predicate HasPost(ps: seq<Post>, id: PostId) {
    exists i :: 0 <= i < |ps| && ps[i].id == id
  }

  /** The ids of the stored posts: what a foreign key to the post table may point at. */
  function Ids(ps: seq<Post>): (r: set<PostId>)
    ensures forall id :: id in r <==> HasPost(ps, id)
  {
    set p | p in ps :: p.id
  }

  lemma IdsAppend(ps: seq<Post>, p: Post)
    ensures Ids(ps + [p]) == Ids(ps) + {p.id}
  {
    assert (ps + [p])[|ps|] == p;
    forall id | id in Ids(ps) ensures id in Ids(ps + [p]) {
      var i :| 0 <= i < |ps| && ps[i].id == id;
      assert (ps + [p])[i] == ps[i];
    }
  }

  lemma IdsReplace(ps: seq<Post>, k: nat, q: Post)
    requires k < |ps| && q.id == ps[k].id
    ensures Ids(ps[k := q]) == Ids(ps)
  {
    var qs := ps[k := q];
    forall id | id in Ids(ps) ensures id in Ids(qs) {
      var i :| 0 <= i < |ps| && ps[i].id == id;
      assert qs[i].id == id;
    }
    forall id | id in Ids(qs) ensures id in Ids(ps) {
      var i :| 0 <= i < |qs| && qs[i].id == id;
      assert ps[i].id == id;
    }
  }

  /** The posts of `ps` other than the one with id `id`, in order (what `delete` leaves). */
  function Without(ps: seq<Post>, id: PostId): (r: seq<Post>)
    ensures forall p :: p in r <==> p in ps && p.id != id
    ensures |r| <= |ps|
  {
    if ps == [] then []
    else
      assert ps == [ps[0]] + ps[1..];
      (if ps[0].id == id then [] else [ps[0]]) + Without(ps[1..], id)
  }

  lemma IdsWithout(ps: seq<Post>, id: PostId)
    ensures Ids(Without(ps, id)) == Ids(ps) - {id}
  {
    var r := Without(ps, id);
    forall x | x in Ids(ps) - {id} ensures x in Ids(r) {
      var i :| 0 <= i < |ps| && ps[i].id == x;
      assert ps[i] in r;
    }
    forall x | x in Ids(r) ensures x in Ids(ps) - {id} {
      var i :| 0 <= i < |r| && r[i].id == x;
      assert r[i] in ps;
    }
  }

  /** No two posts of `ps` share an id. */
  predicate DistinctIds(ps: seq<Post>) {
    forall i, j :: 0 <= i < j < |ps| ==> ps[i].id != ps[j].id
  }

  lemma TailDistinct(ps: seq<Post>)
    requires ps != [] && DistinctIds(ps)
    ensures DistinctIds(ps[1..])
    ensures forall i :: 1 <= i < |ps| ==> ps[i].id != ps[0].id
  {
    var tail := ps[1..];
    forall i, j | 0 <= i < j < |tail| ensures tail[i].id != tail[j].id {
      assert tail[i] == ps[i + 1] && tail[j] == ps[j + 1];
    }
  }

  /** Removing the element at index `k` is removing the post with its id, when ids are distinct. */
  lemma {:induction false} RemoveAtIsWithout(ps: seq<Post>, k: nat)
    requires k < |ps| && DistinctIds(ps)
    ensures ps[..k] + ps[k + 1..] == Without(ps, ps[k].id)
  {
    TailDistinct(ps);
    if k == 0 {
      RemoveHeadIsWithout(ps);
    } else {
      assert ps[1..][k - 1] == ps[k];
      RemoveAtIsWithout(ps[1..], k - 1);
      RemoveLaterIsWithout(ps, k);
    }
  }

  lemma RemoveHeadIsWithout(ps: seq<Post>)
    requires ps != [] && forall i :: 1 <= i < |ps| ==> ps[i].id != ps[0].id
    ensures ps[1..] == Without(ps, ps[0].id)
  {
    var tail := ps[1..];
    forall i | 0 <= i < |tail| ensures tail[i].id != ps[0].id {
      assert tail[i] == ps[i + 1];
    }
    NoneWithId(tail, ps[0].id);
  }

  lemma RemoveLaterIsWithout(ps: seq<Post>, k: nat)
    requires 0 < k < |ps| && ps[0].id != ps[k].id
    requires ps[1..][..k - 1] + ps[1..][k..] == Without(ps[1..], ps[k].id)
    ensures ps[..k] + ps[k + 1..] == Without(ps, ps[k].id)
  {
    RemoveLaterSplit(ps, k);
  }

  lemma RemoveLaterSplit<T>(s: seq<T>, k: nat)
    requires 0 < k < |s|
    ensures s[..k] + s[k + 1..] == [s[0]] + (s[1..][..k - 1] + s[1..][k..])
  {
    assert s[..k] == [s[0]] + s[1..][..k - 1];
    assert s[k + 1..] == s[1..][k..];
  }

  lemma {:induction false} NoneWithId(ps: seq<Post>, id: PostId)
    requires forall i :: 0 <= i < |ps| ==> ps[i].id != id
    ensures Without(ps, id) == ps
  {
    if ps != [] {
      assert ps == [ps[0]] + ps[1..];
      NoneWithId(ps[1..], id);
    }
  }

  /** The like toggle on the set of (user, post) pairs. */
  function Toggle(s: set<Like>, x: Like): (r: set<Like>)
    ensures x in r <==> x !in s
    ensures forall y :: y != x ==> (y in r <==> y in s)
  {
    if x in s then s - {x} else s + {x}
  }

  /** Two toggles restore the like set. */
  lemma ToggleTwice(s: set<Like>, x: Like)
    ensures Toggle(Toggle(s, x), x) == s
  {
  }

  /** An odd number of toggles from "not liked" leaves the pair liked, an even number leaves it not liked. */
  lemma {:induction false} ToggleParity(s: set<Like>, x: Like, n: nat)
    requires x !in s
    ensures x in Iterate(s, x, n) <==> n % 2 == 1
    ensures forall y :: y != x ==> (y in Iterate(s, x, n) <==> y in s)
  {
    if n > 0 {
      ToggleParity(s, x, n - 1);
    }
  }

  /** `n` toggles of the same pair in a row. */
  function Iterate(s: set<Like>, x: Like, n: nat): set<Like> {
    if n == 0 then s else Toggle(Iterate(s, x, n - 1), x)
  }
}
