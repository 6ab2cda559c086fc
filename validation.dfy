/**
 * The zod input schemas of the backend, as validity predicates over request
 * bodies that have already been parsed from JSON into records of the right
 * field types.  A field declared `.optional()` is an `Option`.  Email and URL
 * syntax are abstract predicates passed in by the caller.
 */
module Validation {
  import opened Wrappers

  const MinPasswordLength: nat := 6
  const DefaultPage: nat := 1
  const DefaultLimit: nat := 10
  const MaxLimit: nat := 50

  datatype SignupInput = SignupInput(email: string, password: string, name: Option<string>)
  datatype SigninInput = SigninInput(email: string, password: string)

  /** The common shape of `createPostInput` and `updatePostInput`. */
  datatype PostInput = PostInput(
    title: Option<string>,
    content: Option<string>,
    isPrivate: Option<bool>,
    tags: Option<seq<string>>,
    imageUrls: Option<seq<string>>)

  datatype CommentInput = CommentInput(content: string)
  datatype UserUpdateInput = UserUpdateInput(name: Option<string>, bio: Option<string>, image: Option<string>)

  /** Page and limit after `parseInt`; `None` means the query parameter was absent. */
  datatype PageQuery = PageQuery(page: Option<int>, limit: Option<int>)
  /** A validated page request. */
  datatype PageRequest = PageRequest(page: nat, limit: nat)

  /**
   * A JavaScript string's `length`: its UTF-16 code units, so a character
   * outside the Basic Multilingual Plane counts twice.  zod's `min` on a
   * string compares against this length.
   */
  function JsLength(s: string): (n: nat)
    ensures |s| <= n <= 2 * |s|
    ensures n == 0 <==> s == []
  {
    if s == [] then 0
    else (if s[0] as int > 0xFFFF then 2 else 1) + JsLength(s[1..])
  }

  /** Over the Basic Multilingual Plane the JavaScript length is the character count. */
  lemma {:induction false} JsLengthBmp(s: string)
    requires forall i :: 0 <= i < |s| ==> s[i] as int <= 0xFFFF
    ensures JsLength(s) == |s|
  {
    if s != [] {
      JsLengthBmp(s[1..]);
    }
  }

  /** The JavaScript length of a concatenation is the sum of the lengths. */
  lemma {:induction false} JsLengthAppend(s: string, t: string)
    ensures JsLength(s + t) == JsLength(s) + JsLength(t)
  {
    if s != [] {
      assert (s + t)[1..] == s[1..] + t;
      JsLengthAppend(s[1..], t);
    } else {
      assert s + t == t;
    }
  }

  /** `z.string().min(1)`. */
  predicate NonEmpty(s: string) {
    JsLength(s) >= 1
  }

  /** `z.string().min(1).optional()`. */
  predicate NonEmptyIfPresent(o: Option<string>) {
    o.None? || NonEmpty(o.value)
  }

  /** `z.array(z.string().url()).optional()`. */
  predicate UrlsIfPresent(urls: Option<seq<string>>, isUrl: string -> bool) {
    urls.None? || forall i :: 0 <= i < |urls.value| ==> isUrl(urls.value[i])
  }

  /** `signupInput`: a valid email, a password of at least six UTF-16 code units, any name. */
  predicate SignupValid(i: SignupInput, isEmail: string -> bool): (b: bool)
    ensures b ==> isEmail(i.email) && |i.password| >= MinPasswordLength / 2
    ensures isEmail(i.email) && |i.password| >= MinPasswordLength ==> b
  {
    isEmail(i.email) && JsLength(i.password) >= MinPasswordLength
  }

  /** `signinInput`: a valid email; the password may be any string. */
  predicate SigninValid(i: SigninInput, isEmail: string -> bool) {
    isEmail(i.email)
  }

  /** `createPostInput`: title and content present and non-empty, URLs well formed. */
  predicate CreatePostValid(i: PostInput, isUrl: string -> bool) {
    && i.title.Some? && NonEmpty(i.title.value)
    && i.content.Some? && NonEmpty(i.content.value)
    && UrlsIfPresent(i.imageUrls, isUrl)
  }

  /** `updatePostInput`: every field optional, but a present title or content is non-empty. */
  predicate UpdatePostValid(i: PostInput, isUrl: string -> bool) {
    && NonEmptyIfPresent(i.title)
    && NonEmptyIfPresent(i.content)
    && UrlsIfPresent(i.imageUrls, isUrl)
  }

  /** `createCommentInput`. */
  predicate CommentValid(i: CommentInput) {
    NonEmpty(i.content)
  }

  /** `updateUserInput`: everything optional; a present image is a URL. */
  predicate UpdateUserValid(i: UserUpdateInput, isUrl: string -> bool) {
    i.image.None? || isUrl(i.image.value)
  }

  /** `paginationInput.parse`: defaults first, then `page >= 1` and `1 <= limit <= 50`. */
  function ParsePagination(q: PageQuery): (r: Option<PageRequest>)
    ensures r.Some? <==> 1 <= q.page.GetOr(DefaultPage) && 1 <= q.limit.GetOr(DefaultLimit) <= MaxLimit
    ensures r.Some? ==>
              && r.value.page as int == q.page.GetOr(DefaultPage)
              && r.value.limit as int == q.limit.GetOr(DefaultLimit)
              && r.value.page >= 1 && 1 <= r.value.limit <= MaxLimit
  {
    var page := q.page.GetOr(DefaultPage);
    var limit := q.limit.GetOr(DefaultLimit);
    if 1 <= page && 1 <= limit <= MaxLimit then Some(PageRequest(page, limit)) else None
  }

  /** With no query parameters the listing asks for the first page of ten. */
  lemma PaginationDefaults()
    ensures ParsePagination(PageQuery(None, None)) == Some(PageRequest(1, 10))
  {
  }

  /** A page request outside the bounds is refused whatever the other parameter is. */
  lemma PaginationBounds(q: PageQuery)
    requires q.page == Some(0) || q.limit == Some(0) || q.limit == Some(MaxLimit + 1)
    ensures ParsePagination(q).None?
  {
  }

  /** Every well-formed signup credential pair is also accepted by signin. */
  lemma SignupImpliesSignin(i: SignupInput, isEmail: string -> bool)
    requires SignupValid(i, isEmail)
    ensures SigninValid(SigninInput(i.email, i.password), isEmail)
  {
  }

  /**
   * Three characters outside the Basic Multilingual Plane make a password
   * long enough for signup, while five ordinary ones do not.
   */
  lemma PasswordLengthInCodeUnits(email: string, isEmail: string -> bool)
    requires isEmail(email)
    ensures SignupValid(SignupInput(email, "\U{1F600}\U{1F600}\U{1F600}", None), isEmail)
    ensures !SignupValid(SignupInput(email, "abcde", None), isEmail)
  {
    assert JsLength("\U{1F600}\U{1F600}\U{1F600}") == 6;
  }

  /** Signin accepts the empty password, signup does not. */
  lemma EmptyPasswordOnlyAtSignin(email: string, isEmail: string -> bool)
    requires isEmail(email)
    ensures SigninValid(SigninInput(email, ""), isEmail)
    ensures !SignupValid(SignupInput(email, "", None), isEmail)
  {
  }

  /** Every valid create-post body is also a valid update-post body. */
  lemma CreateBodyIsUpdateBody(i: PostInput, isUrl: string -> bool)
    requires CreatePostValid(i, isUrl)
    ensures UpdatePostValid(i, isUrl)
  {
  }

  /** An update body may omit everything, but may not carry an empty title or content. */
  lemma UpdateBodyShapes(isUrl: string -> bool)
    ensures UpdatePostValid(PostInput(None, None, None, None, None), isUrl)
    ensures !UpdatePostValid(PostInput(Some(""), None, None, None, None), isUrl)
    ensures !UpdatePostValid(PostInput(None, Some(""), None, None, None), isUrl)
    ensures !CreatePostValid(PostInput(None, Some("c"), None, None, None), isUrl)
  {
  }

  /** One malformed URL anywhere in the list rejects a create body. */
  lemma BadUrlRejects(i: PostInput, isUrl: string -> bool, k: nat)
    requires i.imageUrls.Some? && k < |i.imageUrls.value| && !isUrl(i.imageUrls.value[k])
    ensures !CreatePostValid(i, isUrl) && !UpdatePostValid(i, isUrl)
  {
  }

  /** A comment needs at least one character of content. */
  lemma CommentNeedsContent(c: char)
    ensures !CommentValid(CommentInput(""))
    ensures CommentValid(CommentInput([c]))
  {
  }

  /** A profile update may leave out every field; a present image must be a URL. */
  lemma UserUpdateShapes(isUrl: string -> bool, image: string)
    ensures UpdateUserValid(UserUpdateInput(None, None, None), isUrl)
    ensures UpdateUserValid(UserUpdateInput(None, None, Some(image)), isUrl) <==> isUrl(image)
  {
  }
}
