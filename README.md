# Blog list backend: verified model of its decision logic

This project models, in Dafny, the parts of a small Express/Mongoose blog-list
backend that make decisions rather than wire components together:

- the list aggregation helpers `dummy`, `totalLikes`, `favoriteBlog`,
  `mostBlogs` and `mostLikes` over a list of blog records (`list_helper.dfy`);
- the `errorHandler` middleware, which maps a thrown error to a status and an
  `{ error }` body or passes it on, and the `userExtractor` middleware, which
  reads a `Bearer` token from the `Authorization` header, verifies it and sets
  `request.user` (`middleware.dfy`);
- the validation and record construction of user registration, `POST /` of the
  users router (`users.dfy`);
- the `likes` default applied when a blog is created, `POST /` of the blogs
  router (`blogs.dfy`).

Two support modules hold the optional/result wrappers (`wrappers.dfy`;
`None` stands for JavaScript's `undefined`, `Err` for a thrown error) and the
JavaScript string operations the middleware uses: `startsWith`, `includes`, and
`replace` with a string pattern, which replaces only the first occurrence
(`js_string.dfy`).

The foreign calls are parameters of the model: `jwt.verify` is a function
`string -> Result<Payload, Error>`, `bcrypt.hash` is a function of the password
and the salt rounds (10), and the Mongoose `save()` of a new user is a function
`NewUser -> Result<S, Error>` whose failure ends the handler with that error.
The routers shown do not route such an error to `errorHandler` themselves
(app.js mounts only the blogs router and no error handler);
`Users.DuplicateUsernameAnswered` states the composition that
tests/user_api.test.js expects, a rejected handler followed by `errorHandler`.
`favoriteBlog` reassigns a variable inside a loop and is a method with a loop;
`userExtractor` updates the request object, which is a class whose `user` field
the method assigns. Everything else is written as functions.

Three details of the code that are easy to misread:

- Reading `request.body.likes ? … : { likes: 0, ...request.body }` as "an
  absent or falsy `likes` becomes 0" would be wrong: the spread puts the body
  last, so an explicit falsy value (`0`, `null`, `false`, `""`) is kept. Only a
  missing key becomes 0 (`Blogs.WithDefaultLikes`).
- The header `"Bearer "` with nothing after it gives the empty token, which is
  falsy: `verify` is not called and the request stays anonymous
  (`Middleware.Authenticate`).
- `username.length` and `password.length` count UTF-16 code units, so a
  character outside the Basic Multilingual Plane counts as two
  (`JsString.JsLength`, `Users.AstralPasswordLongEnough`).

## Model

| member | source | states |
|---|---|---|
| `ListHelper.Dummy` | utils/list_helper.js:3 | returns 1 for every list, including the empty one |
| `ListHelper.TotalLikes` | utils/list_helper.js:5-10 | equals the reference sum of `likes` over the list; 0 for the empty list |
| `ListHelper.ReduceMapLikes` | utils/list_helper.js:7 | the `map(b => b.likes).reduce(+, acc)` left fold equals `acc` plus the reference sum |
| `ListHelper.TotalLikesAppend` | utils/list_helper.js:5-10 | total likes of a concatenation is the sum of the two totals |
| `ListHelper.TotalLikesSnoc` | utils/list_helper.js:5-10 | appending one blog adds exactly its likes to the total |
| `ListHelper.FavoriteBlog` | utils/list_helper.js:12-20 | `None` (undefined) for the empty list; otherwise a blog of the list with the most likes, and every earlier blog has strictly fewer likes (earliest maximum, from the strict `>`) |
| `ListHelper.FirstFavoriteUnique` | utils/list_helper.js:12-20 | at most one index is the earliest maximum, so the favourite is fully determined |
| `ListHelper.Authors` | utils/list_helper.js:24 | the keys of the grouped object: every blog's author appears, each key has at least one blog, no key is repeated |
| `ListHelper.CountEntries` | utils/list_helper.js:24 | the `countBy` pairs: one per author, each valued with that author's blog count |
| `ListHelper.LikesEntries` | utils/list_helper.js:35-36 | the `groupBy`/`mapValues` pairs: one per author, each valued with the total likes of that author's blogs |
| `ListHelper.MaxBy` | utils/list_helper.js:37 | `None` exactly for no pairs; otherwise a pair of the input whose value is at least every other value, and the first such pair |
| `ListHelper.MostBlogs` | utils/list_helper.js:22-31 | `None` exactly for the empty list; otherwise an author with `blogs` equal to their number of blogs (at least 1) and no author with more |
| `ListHelper.MostLikes` | utils/list_helper.js:33-44 | `None` exactly for the empty list; otherwise an author of the list whose `likes` equals the total likes of their blogs, and no author with a larger total |
| `ListHelper.CountIsGroupSize` | utils/list_helper.js:22-44 | an author's `countBy` count equals the size of their `groupBy` group |
| `ListHelper.CountByPartitions` | utils/list_helper.js:24 | the per-author counts add up to the length of the list: each blog is counted under exactly one author |
| `ListHelper.LikesByPartitions` | utils/list_helper.js:35-37 | the per-author like totals add up to `totalLikes` of the whole list |
| `JsString.IndexOfFrom` | utils/middleware.js:7 | the first occurrence of the pattern at or after a start index, or none at all |
| `JsString.IndexOf` | utils/middleware.js:7 | the first occurrence of the pattern, or `None` exactly when it occurs nowhere |
| `JsString.ReplacePrefix` | utils/middleware.js:19 | replacing the first `pat` by "" in a string that starts with `pat` removes exactly that prefix |
| `JsString.IncludesIff` | utils/middleware.js:7 | `includes` holds exactly when the pattern occurs at some index |
| `Middleware.ErrorHandler` | utils/middleware.js:4-14 | answers exactly `ValidationError`, a `MongoServerError` whose message contains the duplicate-key marker, `JsonWebTokenError` and `SyntaxError`; 400 with the error's own message, 400 with the fixed uniqueness message, 401 `Invalid token`; every other error is passed on unchanged |
| `Middleware.ExtractToken` | utils/middleware.js:18-20 | a token exists exactly when the header is present and starts with the case-sensitive `"Bearer "`, and the header is then the prefix followed by the token |
| `Middleware.ExtractTokenRoundTrip` | utils/middleware.js:18-20 | the header `"Bearer " + t` yields the token `t` |
| `Middleware.Authenticate` | utils/middleware.js:17-25 | a token is verified exactly when the header is `"Bearer "` followed by at least one character; the outcome is then the verifier's verdict on the header minus its 7-character prefix |
| `Middleware.UserExtractor` | utils/middleware.js:16-26 | with no token, `request.user` is unchanged and `next` is reached; a verified token sets `request.user` to the payload and reaches `next`; a failing verification throws, leaving `request.user` unchanged |
| `Middleware.RejectedTokenAnswered` | utils/middleware.js:4-26 | a non-empty bearer token that the verifier rejects as a token error ends in 401 `Invalid token` |
| `JsString.JsLength` | controllers/users.js:12 | `length` in UTF-16 code units: between the number of characters and twice it, and 0 only for the empty string |
| `JsString.JsLengthBmp` | controllers/users.js:12 | for text without characters beyond the Basic Multilingual Plane, `length` is the number of characters |
| `JsString.JsLengthAppend` | controllers/users.js:12 | `length` adds up over concatenation |
| `Users.CheckRegistration` | controllers/users.js:7-16 | the body passes exactly when both username and password are present with a `length` (UTF-16 code units) of at least 3; an absent or empty field always gets the "Missing" message, never the length message |
| `Users.NameNotValidated` | controllers/users.js:6-16 | changing `name` (to any value, or to absent) never changes the validation verdict |
| `Users.AstralPasswordLongEnough` | controllers/users.js:12 | a password of two characters beyond the Basic Multilingual Plane has `length` 4 and passes |
| `Users.Register` | controllers/users.js:5-29 | a rejected body gets 400 with the check's message; an accepted body is saved as username, name and `hash(password, 10)` (no plaintext password), giving 201 with the saved record, or the save error is thrown |
| `Users.DuplicateUsernameAnswered` | tests/user_api.test.js:38-52 | when saving fails with a duplicate-key error, the handler throws it and `errorHandler` answers it with 400 `Expected 'username' to be unique`, the composition the test expects |
| `Blogs.WithDefaultLikes` | controllers/blogs.js:10-12 | the result has the body's keys plus `likes`; every field of the body, including a falsy `likes`, is kept unchanged; a missing `likes` becomes 0 |
| `Blogs.WithDefaultLikesIdempotent` | controllers/blogs.js:10-12 | applying the default to its own output gives that output |
| `Blogs.PresentLikesUnchanged` | controllers/blogs.js:10-12 | a body with a `likes` key is passed on unchanged, whatever its value |

## Left out

- `ListHelper.MostBlogs`: ties between authors are stated only as "some author with the greatest count". The model orders object keys by first appearance; JavaScript puts integer-like keys first, and that ordering is not modelled.
- `ListHelper.MostLikes`: ties are stated only as "some author with the greatest total", for the same key-ordering reason.
- `likes` values are integers. JavaScript numbers are doubles; floating point, `NaN` and non-numeric `likes` are not modelled.
- Registration bodies carry strings or nothing. A non-string `username` or `password` (a number, an object) is not modelled.
- The blog-creating handler's `new Blog(...)`, `save()` and 201 reply are persistence only. Only the object they receive, `WithDefaultLikes(body)`, is modelled.
- `bcrypt` (salted hashing, compare) and `jsonwebtoken` (sign, verify) are foreign libraries. They are parameters of the model, not defined.
- The MongoDB layer is not modelled: `find`, `populate` projections, the GET handlers, and the uniqueness index that produces the duplicate-key error.
- The login router is not modelled: it is a user lookup, a `bcrypt.compare` and a `jwt.sign` around one "401 unless the credentials are correct" branch.
- app.js wiring is not modelled: routers, CORS, the JSON body parser and the database connection. app.js mounts only the blogs router, so the middleware order is not visible and each component is modelled on its own.
- `next(error)` and `next()` are modelled as results: `PassOn` and `Next`. The Express call chain is not modelled.
- `request.get('authorization')` is a header lookup. The header is a constructor argument of `Request`.
