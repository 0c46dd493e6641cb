# In-memory resolvers of the local GraphQL schema

This project models the resolver layer of `src/localSchema.js`. The layer has
two seeded tables: three authors and four posts. It answers the queries
`Query.posts` and `Query.author(id)`, the fields `Post.author`,
`Author.posts` and `Counter.countStr`, and the mutations `upvotePost` and
`downvotePost`. The mutations change the `votes` of a post record inside the
shared posts array.

Layout:

- `wrappers.dfy`: `Option` (a look-up that finds nothing, JavaScript's
  `undefined`) and `Result` (a resolver that throws; `Failure` carries the
  message of the thrown `Error`).
- `collections.dfy`: the two lodash functions the resolvers call, as pure
  functions with their behaviour stated. `find` is `FirstIndex`/`Find`, the
  first element that matches. `filter` is `Select`, the order-preserving
  selection of every element that matches.
- `decimal.dfy`: how a template string renders an integral number. `Render`
  writes an optional `-` and then the digits without leading zeros, the
  form `Canonical` describes. `Parse` is its partner: it reads the string
  back, and the rendering is the only canonical string that parses to a
  given number.
- `local_schema.dfy`: the records (`Author`, `Post`, `Counter`), the seed
  tables and the pure resolvers. It also holds `Vote`, a function over the
  posts table that specifies what a vote mutation does, with lemmas about it.
- `resolvers.dfy`: the class `Store`, which owns the posts as an
  `array<Post>`. It has `Query.posts`, `Query.author` and `Author.posts` over its live
  tables, and the two mutations. The mutations
  do a linear first-match search (`IndexOf`) and then update the record in
  place. Each mutation's `ensures` states the new table and the result as
  `Vote` of the old table.

Two facts about the source shape the model:

- Both mutations search the posts array linearly for the first post with
  the given id (src/localSchema.js:71, 79).
- A missing post throws a plain `Error` whose message is
  `Couldn't find post with id <postId>` (src/localSchema.js:73, 81). The
  model returns that message as `Failure(message)`.

## Model

| member | source | states |
|---|---|---|
| Collections.FirstIndex | src/localSchema.js:71 | lodash `find`'s search: returns the index of an element that matches, with no match before it; returns `None` exactly when no element matches |
| Collections.Find | src/localSchema.js:66 | lodash `find`: the result is the element at the first matching index; `None` (undefined) exactly when nothing in the table matches |
| Collections.Select | src/localSchema.js:104 | lodash `filter`: the result contains only matching elements of the input, and each matching element appears exactly as often as in the input |
| Collections.SelectIsSubsequence | src/localSchema.js:104 | `filter` keeps the table order: its result is a subsequence of the input |
| Collections.SelectAppend | src/localSchema.js:104 | filtering a concatenation gives the concatenation of the filtered parts, in order |
| Collections.SelectEmpty | src/localSchema.js:104 | the filtered result is empty exactly when no element matches |
| Decimal.Digits | src/localSchema.js:100 | the digits of a natural number: non-empty, all decimal digits, no leading zero unless the number is 0 |
| Decimal.Render | src/localSchema.js:100 | rendering an integer gives the canonical form: `-` exactly for negatives, never `-0`, and no leading zero except the string `0` itself |
| Decimal.DigitsRoundTrip | src/localSchema.js:100 | reading the digits back gives the original number |
| Decimal.RenderRoundTrip | src/localSchema.js:100 | `Parse(Render(n)) == Some(n)` for every integer |
| Decimal.CanonicalDigitsAreDigits | src/localSchema.js:100 | a digit string without a leading zero is exactly the digits of the number it denotes |
| Decimal.CanonicalIsRender | src/localSchema.js:100 | a canonical string that parses to `n` is `Render(n)`: the rendering is the only canonical spelling of a number |
| Decimal.RenderInjective | src/localSchema.js:73 | distinct integers render distinctly |
| LocalSchema.SeedIdsDistinct | src/localSchema.js:50-61 | the seeded author ids are pairwise distinct, and so are the seeded post ids |
| LocalSchema.QueryAuthor | src/localSchema.js:66 | `Query.author(id)`: the first author with that id; no result (not an error) exactly when no author has it |
| LocalSchema.PostAuthor | src/localSchema.js:108 | `Post.author`: the first author whose id equals the post's `authorId`; no result exactly when none has it |
| LocalSchema.QueryAuthorUnique | src/localSchema.js:66 | when the author ids are distinct, `Query.author(id)` returns a given author exactly when that author is in the table with that id |
| LocalSchema.AuthorPosts | src/localSchema.js:104 | `Author.posts`: only posts from the table whose `authorId` is the author's id, each matching post as often as in the table |
| LocalSchema.AuthorPostsInTableOrder | src/localSchema.js:104 | `Author.posts` lists its posts in table order |
| LocalSchema.AuthorPostsEmpty | src/localSchema.js:104 | `Author.posts` is empty exactly when no post has that author |
| LocalSchema.NavigationAgrees | src/localSchema.js:104-108 | when author ids are distinct, take a post and an author from the tables: the post is in the author's `posts` exactly when the post's `author` is that author |
| LocalSchema.SeedAuthorPosts | src/localSchema.js:56-61 | on the seed data, author 2 has posts 2 and 3, in that order |
| LocalSchema.SeedAuthorLookup | src/localSchema.js:50-54 | on the seed data, `Query.author(3)` is Mikhail Novikov and `Query.author(4)` has no result |
| LocalSchema.CountStr | src/localSchema.js:100 | `Counter.countStr` is `Current count: ` followed by a canonical decimal string that parses back to the count (by `Decimal.CanonicalIsRender`, exactly the rendering of the count) |
| LocalSchema.NotFoundMessage | src/localSchema.js:73 | the mutation error message is `Couldn't find post with id ` followed by a canonical decimal string that parses back to the id (so exactly the rendering of the id) |
| LocalSchema.NotFoundMessageInjective | src/localSchema.js:73 | distinct ids give distinct not-found messages |
| LocalSchema.Vote | src/localSchema.js:70-85 | the shared behaviour of both mutations: the table keeps its length; the vote succeeds exactly when some post has the id, and then returns a post with that id that is in the new table; on failure the table is unchanged and the error is the not-found message. `VotePresent`, `VoteAbsent` and `VoteThenUnvote` state the rest |
| LocalSchema.VotePresent | src/localSchema.js:70-77 | a vote on a present id adds the delta to the votes of the first post with that id; its id, title and authorId, every other post and the table length stay the same; the result is that updated post |
| LocalSchema.VoteAbsent | src/localSchema.js:71-74 | a vote on an id that no post has fails with `Couldn't find post with id <id>` and leaves the table unchanged |
| LocalSchema.FirstMatchIgnoresVotes | src/localSchema.js:71-83 | the post the search finds depends only on the ids, so changing votes never moves the match |
| LocalSchema.VoteThenUnvote | src/localSchema.js:75-83 | a vote followed by the opposite vote on the same id restores the table exactly; either both succeed or both fail |
| Resolvers.Store.constructor | src/localSchema.js:50-61 | the store holds the given author table and a fresh posts array with the given posts |
| Resolvers.Store.QueryPosts | src/localSchema.js:65 | `Query.posts` is the live posts table: every record, in table order |
| Resolvers.Store.AuthorById | src/localSchema.js:66 | `Query.author(id)` over the store's author table: the first author with that id, or no result exactly when none has it |
| Resolvers.Store.AuthorPostsOf | src/localSchema.js:104 | `Author.posts` over the live posts array: only posts of the array whose `authorId` is the author's id, each matching post as often as in the table, kept in table order, with their current votes |
| Resolvers.Store.IndexOf | src/localSchema.js:71 | the search loop returns the first index whose post has the id (the index `FirstIndex` specifies), or `None` exactly when no post has it |
| Resolvers.Store.Upvote | src/localSchema.js:70-77 | `upvotePost` leaves the posts array in the state, and returns the result, that `Vote(old table, id, +1)` specifies |
| Resolvers.Store.Downvote | src/localSchema.js:78-85 | `downvotePost` leaves the posts array in the state, and returns the result, that `Vote(old table, id, -1)` specifies |
| Resolvers.UpvoteThenDownvote | src/localSchema.js:70-85 | the two mutations called in turn on one id leave the posts array as it was; either both succeed or both fail |
| Resolvers.SeedScenario | src/localSchema.js:56-77 | on the seed data, `upvotePost(1)` returns post 1 with 3 votes (it had 2); then `downvotePost(999)` fails with `Couldn't find post with id 999` and changes nothing; `Query.author(1)` is Tom Coleman |

## Left out

- The `counter` subscription (src/localSchema.js:89-96): it is driven by a timer, a random channel name and a publish/subscribe iterator. Only the `Counter` record and its `countStr` field are modelled.
- Schema construction (the type definitions and `makeExecutableSchema`, src/localSchema.js:9-48, 113-116): GraphQL parsing and validation belong to a third-party library.
- The `transformSchema` field filter (src/localSchema.js:118-125): its allow/deny semantics live in a library whose code is not part of this model.
- Server start-up, the `PubSub` instance and console output (src/localSchema.js:127-130): I/O.
- src/remoteSchema.js is not part of this model: it only creates an HTTP link, introspects a remote service, wraps it and starts a server.
- GraphQL argument coercion and error reporting: the engine checks that `id`/`postId` are 32-bit integers before a resolver runs. It also turns a thrown error into a field error. The model takes any integer and returns the error as `Failure(message)`.
- Resolvers.Store.Upvote: votes are unbounded integers. A JavaScript Number loses precision beyond 2^53, and the model does not capture that.
- Resolvers.Store.Downvote: the same unbounded-integer simplification as `Upvote`.
- Decimal.Render: JavaScript uses exponent notation for magnitudes of at least 10^21, and the model does not. Values that large do not arise from GraphQL `Int` fields.
- Aliasing of the returned record: in the source, a mutation returns the same object that sits in the array. So a later mutation would also change what an earlier caller holds. The model returns the updated record as a value, equal to the array's element at the moment of return.
