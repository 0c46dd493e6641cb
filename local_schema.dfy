/**
 * The in-memory data and the resolvers of the local schema: two seeded
 * tables (authors and posts), the look-ups `Query.author`, `Post.author` and
 * `Author.posts`, the string field `Counter.countStr`, and `Vote`, the
 * specification of what the `upvotePost` and `downvotePost` mutations do to
 * the posts table (the mutations themselves are methods of class `Store` in module Resolvers).
 */
module LocalSchema {
  import opened Wrappers
  import opened Collections
  import Decimal

  datatype Author = Author(id: int, firstName: string, lastName: string)

  datatype Post = Post(id: int, authorId: int, title: string, votes: int)

  /** A value emitted by the `counter` subscription. */
  datatype Counter = Counter(count: int)

  const SeedAuthors: seq<Author> := [
    Author(1, "Tom", "Coleman"),
    Author(2, "Sashko", "Stubailo"),
    Author(3, "Mikhail", "Novikov")
  ]

  const SeedPosts: seq<Post> := [
    Post(1, 1, "Introduction to GraphQL", 2),
    Post(2, 2, "Welcome to Meteor", 3),
    Post(3, 2, "Advanced GraphQL", 1),
    Post(4, 3, "Launchpad is Cool", 7)
  ]

  // The match objects handed to lodash: `{ id }` on authors, `{ id: postId }`
  // and `{ authorId }` on posts.

  function AuthorIdIs(id: int): Author -> bool {
    (a: Author) => a.id == id
  }

  function PostIdIs(id: int): Post -> bool {
    (p: Post) => p.id == id
  }

  function WrittenBy(authorId: int): Post -> bool {
    (p: Post) => p.authorId == authorId
  }

  ghost predicate DistinctAuthorIds(authors: seq<Author>) {
    forall i, j :: 0 <= i < j < |authors| ==> authors[i].id != authors[j].id
  }

  ghost predicate DistinctPostIds(posts: seq<Post>) {
    forall i, j :: 0 <= i < j < |posts| ==> posts[i].id != posts[j].id
  }

  lemma SeedIdsDistinct()
    ensures DistinctAuthorIds(SeedAuthors) && DistinctPostIds(SeedPosts)
  {
  }

  /** `Query.author(id)`: the first author with that id, or no result. */
  function QueryAuthor(authors: seq<Author>, id: int): (r: Option<Author>)
    ensures r.Some? ==> r.value in authors && r.value.id == id
    ensures r.Some? ==> exists i :: 0 <= i < |authors| && authors[i] == r.value && forall j :: 0 <= j < i ==> authors[j].id != id
    ensures r.None? <==> forall a :: a in authors ==> a.id != id
  {
    Find(authors, AuthorIdIs(id))
  }

  /** `Post.author`: the first author whose id is the post's `authorId`, or no result. */
  function PostAuthor(authors: seq<Author>, post: Post): (r: Option<Author>)
    ensures r.Some? ==> r.value in authors && r.value.id == post.authorId
    ensures r.Some? ==> exists i :: 0 <= i < |authors| && authors[i] == r.value && forall j :: 0 <= j < i ==> authors[j].id != post.authorId
    ensures r.None? <==> forall a :: a in authors ==> a.id != post.authorId
  {
    Find(authors, AuthorIdIs(post.authorId))
  }

  /** When author ids are distinct, the author found for an id is the only author with that id. */
  lemma QueryAuthorUnique(authors: seq<Author>, id: int, a: Author)
    requires DistinctAuthorIds(authors)
    ensures QueryAuthor(authors, id) == Some(a) <==> a in authors && a.id == id
  {
  }

  /** `Author.posts`: every post whose `authorId` is the author's id. */
  function AuthorPosts(posts: seq<Post>, author: Author): (r: seq<Post>)
    ensures forall p :: p in r ==> p in posts && p.authorId == author.id
    ensures forall p :: p in posts ==> multiset(r)[p] == if p.authorId == author.id then multiset(posts)[p] else 0
  {
    Select(posts, WrittenBy(author.id))
  }

  /** `Author.posts` lists the selected posts in their table order. */
  lemma AuthorPostsInTableOrder(posts: seq<Post>, author: Author)
    ensures IsSubsequence(AuthorPosts(posts, author), posts)
  {
    SelectIsSubsequence(posts, WrittenBy(author.id));
  }

  /** `Author.posts` is empty exactly when no post has that author. */
  lemma AuthorPostsEmpty(posts: seq<Post>, author: Author)
    ensures AuthorPosts(posts, author) == [] <==> forall p :: p in posts ==> p.authorId != author.id
  {
    SelectEmpty(posts, WrittenBy(author.id));
  }

  /** The two navigation fields agree: a post is among an author's posts exactly when that author is the post's author. */
  lemma NavigationAgrees(authors: seq<Author>, posts: seq<Post>, a: Author, p: Post)
    requires DistinctAuthorIds(authors)
    requires a in authors && p in posts
    ensures p in AuthorPosts(posts, a) <==> PostAuthor(authors, p) == Some(a)
  {
  }

  lemma SeedAuthorPosts()
    ensures AuthorPosts(SeedPosts, SeedAuthors[1]) == [SeedPosts[1], SeedPosts[2]]
  {
  }

  lemma SeedAuthorLookup()
    ensures QueryAuthor(SeedAuthors, 3) == Some(SeedAuthors[2])
    ensures QueryAuthor(SeedAuthors, 4) == None
  {
  }

  const CountPrefix: string := "Current count: "

  /** `Counter.countStr`: the fixed prefix followed by the decimal count. */
  function CountStr(c: Counter): (r: string)
    ensures |r| > |CountPrefix| && r[..|CountPrefix|] == CountPrefix
    ensures Decimal.Canonical(r[|CountPrefix|..]) && Decimal.Parse(r[|CountPrefix|..]) == Some(c.count)
  {
    Decimal.RenderRoundTrip(c.count);
    var r := CountPrefix + Decimal.Render(c.count);
    assert r[|CountPrefix|..] == Decimal.Render(c.count);
    r
  }

  const NotFoundPrefix: string := "Couldn't find post with id "

  /** The message of the error the vote mutations throw for an unknown post id. */
  function NotFoundMessage(postId: int): (m: string)
    ensures |m| > |NotFoundPrefix| && m[..|NotFoundPrefix|] == NotFoundPrefix
    ensures Decimal.Canonical(m[|NotFoundPrefix|..]) && Decimal.Parse(m[|NotFoundPrefix|..]) == Some(postId)
  {
    Decimal.RenderRoundTrip(postId);
    var m := NotFoundPrefix + Decimal.Render(postId);
    assert m[|NotFoundPrefix|..] == Decimal.Render(postId);
    m
  }

  /** Distinct unknown ids give distinct messages: the message names the id. */
  lemma NotFoundMessageInjective(m: int, n: int)
    ensures NotFoundMessage(m) == NotFoundMessage(n) ==> m == n
  {
  }

  /**
   * A vote on the posts table: find the first post with id `postId`; with none,
   * the table is unchanged and the mutation fails; otherwise that post's votes
   * change by `delta` and the updated post is returned.
   */
  function Vote(table: seq<Post>, postId: int, delta: int): (r: (seq<Post>, Result<Post, string>))
    ensures |r.0| == |table|
    ensures r.1.Success? <==> exists p :: p in table && p.id == postId
    ensures r.1.Failure? ==> r.0 == table && r.1.error == NotFoundMessage(postId)
    ensures r.1.Success? ==> r.1.value.id == postId && r.1.value in r.0
  {
    match FirstIndex(table, PostIdIs(postId))
    case None => (table, Failure(NotFoundMessage(postId)))
    case Some(i) =>
      var post := table[i].(votes := table[i].votes + delta);
      assert table[i := post][i] == post;
      (table[i := post], Success(post))
  }

  /** A vote on a present id changes only the votes of the first post with that id, and returns that post. */
  lemma VotePresent(table: seq<Post>, postId: int, delta: int, i: nat)
    requires i < |table| && table[i].id == postId
    requires forall j :: 0 <= j < i ==> table[j].id != postId
    ensures var (after, r) := Vote(table, postId, delta);
      && |after| == |table|
      && after[i].votes == table[i].votes + delta
      && after[i].id == table[i].id
      && after[i].authorId == table[i].authorId
      && after[i].title == table[i].title
      && (forall j :: 0 <= j < |table| && j != i ==> after[j] == table[j])
      && r == Success(after[i])
  {
  }

  /** A vote on an absent id fails with the not-found message and leaves the table as it was. */
  lemma VoteAbsent(table: seq<Post>, postId: int, delta: int)
    requires forall p :: p in table ==> p.id != postId
    ensures Vote(table, postId, delta) == (table, Failure("Couldn't find post with id " + Decimal.Render(postId)))
  {
  }

  /** The first match depends on the ids alone, so changing votes never moves it. */
  lemma FirstMatchIgnoresVotes(t: seq<Post>, u: seq<Post>, postId: int)
    requires |t| == |u| && forall j :: 0 <= j < |t| ==> t[j].id == u[j].id
    ensures FirstIndex(t, PostIdIs(postId)) == FirstIndex(u, PostIdIs(postId))
  {
  }

  /** A vote followed by the opposite vote on the same id restores the table; both succeed or both fail. */
  lemma VoteThenUnvote(table: seq<Post>, postId: int, delta: int)
    ensures var (after, r) := Vote(table, postId, delta);
      && Vote(after, postId, -delta).0 == table
      && (Vote(after, postId, -delta).1.Success? <==> r.Success?)
  {
    var (after, r) := Vote(table, postId, delta);
    FirstMatchIgnoresVotes(table, after, postId);
    match FirstIndex(table, PostIdIs(postId))
    case None =>
    case Some(i) =>
      assert after[i].votes + -delta == table[i].votes;
      assert after[i := after[i].(votes := after[i].votes + -delta)] == table;
  }
}
