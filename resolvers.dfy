/**
 * The resolvers that touch the shared posts table in place: `Query.posts`
 * hands out the table, and the mutations `upvotePost` and `downvotePost`
 * search it for the first post with the given id and change that post's
 * votes by one. Each mutation is proved to do exactly what `Vote` specifies.
 */
module Resolvers {
  import opened Wrappers
  import opened Collections
  import opened LocalSchema
  import Decimal

  /** The two tables the resolvers close over; the posts are updated in place. */
  class Store {
    const authors: seq<Author>
    const posts: array<Post>

    constructor (authorTable: seq<Author>, postTable: seq<Post>)
      ensures authors == authorTable && posts[..] == postTable && fresh(posts)
    {
      authors := authorTable;
      posts := new Post[|postTable|](i requires 0 <= i < |postTable| => postTable[i]);
    }

    /** `Query.posts`: the live table itself, every post in table order. */
    function QueryPosts(): (r: seq<Post>)
      reads posts
      ensures |r| == posts.Length
      ensures forall i :: 0 <= i < |r| ==> r[i] == posts[i]
    {
      posts[..]
    }

    /** `Query.author(id)` over the store's author table. */
    function AuthorById(id: int): (r: Option<Author>)
      ensures r.Some? ==> r.value in authors && r.value.id == id
      ensures r.Some? ==> exists i :: 0 <= i < |authors| && authors[i] == r.value && forall j :: 0 <= j < i ==> authors[j].id != id
      ensures r.None? <==> forall a :: a in authors ==> a.id != id
    {
      QueryAuthor(authors, id)
    }

    /** `Author.posts` over the live table: it reads the current votes. */
    function AuthorPostsOf(a: Author): (r: seq<Post>)
      reads posts
      ensures forall p :: p in r ==> p in posts[..] && p.authorId == a.id
      ensures forall i :: 0 <= i < posts.Length && posts[i].authorId == a.id ==> posts[i] in r
      ensures forall p :: p in posts[..] ==> multiset(r)[p] == if p.authorId == a.id then multiset(posts[..])[p] else 0
      ensures IsSubsequence(r, posts[..])
    {
      AuthorPostsInTableOrder(posts[..], a);
      var r := AuthorPosts(posts[..], a);
      assert forall i :: 0 <= i < posts.Length ==> posts[..][i] in posts[..] && multiset(posts[..])[posts[..][i]] > 0;
      r
    }

    /** The `find(posts, { id: postId })` step of both mutations: a linear search for the first match. */
    method IndexOf(postId: int) returns (k: Option<nat>)
      ensures k == FirstIndex(posts[..], PostIdIs(postId))
      ensures k.Some? ==> k.value < posts.Length && posts[k.value].id == postId
      ensures k.None? <==> forall j :: 0 <= j < posts.Length ==> posts[j].id != postId
    {
      var i := 0;
      while i < posts.Length
        invariant 0 <= i <= posts.Length
        invariant forall j :: 0 <= j < i ==> posts[j].id != postId
      {
        if posts[i].id == postId {
          return Some(i);
        }
        i := i + 1;
      }
      return None;
    }

    /** `Mutation.upvotePost`. */
    method Upvote(postId: int) returns (r: Result<Post, string>)
      modifies posts
      ensures (posts[..], r) == Vote(old(posts[..]), postId, 1)
    {
      var k := IndexOf(postId);
      if k.None? {
        return Failure(NotFoundMessage(postId));
      }
      var i := k.value;
      posts[i] := posts[i].(votes := posts[i].votes + 1);
      r := Success(posts[i]);
    }

    /** `Mutation.downvotePost`. */
    method Downvote(postId: int) returns (r: Result<Post, string>)
      modifies posts
      ensures (posts[..], r) == Vote(old(posts[..]), postId, -1)
    {
      var k := IndexOf(postId);
      if k.None? {
        return Failure(NotFoundMessage(postId));
      }
      var i := k.value;
      posts[i] := posts[i].(votes := posts[i].votes - 1);
      r := Success(posts[i]);
    }
  }

  /** An upvote followed by a downvote of the same id leaves the table as it was. */
  method UpvoteThenDownvote(store: Store, postId: int) returns (up: Result<Post, string>, down: Result<Post, string>)
    modifies store.posts
    ensures store.posts[..] == old(store.posts[..])
    ensures up.Success? <==> down.Success?
  {
    ghost var before := store.posts[..];
    up := store.Upvote(postId);
    down := store.Downvote(postId);
    VoteThenUnvote(before, postId, 1);
  }

  /** The seeded tables: upvoting post 1 takes it from 2 to 3 votes; downvoting post 999 then fails and changes nothing. */
  method SeedScenario() returns (store: Store, up: Result<Post, string>, down: Result<Post, string>)
    ensures fresh(store.posts)
    ensures up == Success(Post(1, 1, "Introduction to GraphQL", 3))
    ensures down == Failure("Couldn't find post with id 999")
    ensures store.QueryPosts() == SeedPosts[0 := Post(1, 1, "Introduction to GraphQL", 3)]
    ensures store.AuthorById(1) == Some(Author(1, "Tom", "Coleman"))
  {
    store := new Store(SeedAuthors, SeedPosts);
    up := store.Upvote(1);
    VotePresent(SeedPosts, 1, 1, 0);
    ghost var afterUp := store.posts[..];
    down := store.Downvote(999);
    VoteAbsent(afterUp, 999, -1);
    assert Decimal.Digits(9) == "9";
    assert Decimal.Digits(99) == "99";
    assert Decimal.Render(999) == "999";
    assert "Couldn't find post with id " + "999" == "Couldn't find post with id 999";
    SeedIdsDistinct();
    QueryAuthorUnique(SeedAuthors, 1, SeedAuthors[0]);
  }
}
