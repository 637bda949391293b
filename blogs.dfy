/** The `likes` default of the blog-creating handler, POST / of the blogs router
    (controllers/blogs.js). */
module Blogs {
  import opened Json

  /** A parsed JSON request body: field name to value. */
  type JsObjectBody = map<string, JsValue>

  const LikesKey: string := "likes"

  /** `body.likes ? body : { likes: 0, ...body }`: the spread puts the body's fields
      last, so only a missing `likes` key is filled in. */
  function WithDefaultLikes(body: JsObjectBody): (r: JsObjectBody)
    ensures r.Keys == body.Keys + {LikesKey}
    // every field of the body, including a falsy `likes`, is kept as it is
    ensures forall k :: k in body ==> r[k] == body[k]
    // a missing `likes` becomes 0
    ensures LikesKey !in body ==> r[LikesKey] == JsNumber(0)
  {
    if LikesKey in body && Truthy(body[LikesKey]) then body
    else map[LikesKey := JsNumber(0)] + body
  }

  /** The default is idempotent. */
  lemma WithDefaultLikesIdempotent(body: JsObjectBody)
    ensures WithDefaultLikes(WithDefaultLikes(body)) == WithDefaultLikes(body)
  {
    var once := WithDefaultLikes(body);
    assert LikesKey in once;
  }

  /** A body that already has `likes` is passed on as it is. */
  lemma PresentLikesUnchanged(body: JsObjectBody)
    requires LikesKey in body
    ensures WithDefaultLikes(body) == body
  {
  }
}
