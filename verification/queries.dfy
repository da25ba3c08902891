/** The read projections: the posts of one category, the category list
    ordered by its counter, the newest comments, and the total number of
    posts. None of them changes the store. */
module Queries {
  import opened Common
  import opened BlogModels
  import opened BlogStore
  import opened Ordering

  // ----- posts of a category -----

  /** `PostByCategoryListView.get_queryset`: the category is fetched with a
      bare `.get(pk=...)`, so an unknown key is an unhandled error; the
      listing holds exactly the posts filed under the category. */
  function PostsInCategory(s: Store, c: CategoryId): (r: Result<set<PostId>>)
    ensures c !in s.categories <==> r == Err(ServerError)
    ensures r.Ok? ==> forall p :: p in r.value <==> p in s.posts && s.posts[p].category == c
  {
    if c !in s.categories then Err(ServerError) else Ok(PostsIn(s.posts, c))
  }

  /** The counter is faithful exactly when every category's listing is as
      long as its `post_amount` says. */
  lemma ListingsMatchCounters(s: Store)
    ensures CounterConsistent(s) <==>
      forall c :: c in s.categories ==> |PostsInCategory(s, c).value| == s.categories[c].postAmount
  {
  }

  // ----- categories by count -----

  /** The `post_amount` column as a sort key. */
  function PostAmounts(categories: map<CategoryId, Category>): (key: map<nat, int>)
    ensures key.Keys == categories.Keys
    ensures forall c :: c in categories ==> key[c] == categories[c].postAmount
  {
    map c | c in categories :: categories[c].postAmount
  }

  /** `CategoryListView.queryset`: every category once, most posts first. */
  method CategoriesByCount(s: Store) returns (order: seq<CategoryId>)
    ensures forall c :: multiset(order)[c] == (if c in s.categories then 1 else 0)
    ensures forall i :: 0 <= i < |order| ==> order[i] in s.categories
    ensures forall i, j :: 0 <= i < j < |order| ==> s.categories[order[i]].postAmount >= s.categories[order[j]].postAmount
  {
    order := SortDesc(PostAmounts(s.categories));
  }

  /** Read through a faithful counter, the category list ranks categories
      by the number of posts they actually hold. */
  lemma CategoriesRankedByPosts(s: Store, order: seq<CategoryId>)
    requires CounterConsistent(s)
    requires forall i :: 0 <= i < |order| ==> order[i] in s.categories
    requires forall i, j :: 0 <= i < j < |order| ==> s.categories[order[i]].postAmount >= s.categories[order[j]].postAmount
    ensures forall i, j :: 0 <= i < j < |order| ==> |PostsIn(s.posts, order[i])| >= |PostsIn(s.posts, order[j])|
  {
  }

  // ----- home page -----

  /** The `post_date` column as a sort key. */
  function PostDates(posts: map<PostId, Post>): (key: map<nat, int>)
    ensures key.Keys == posts.Keys
    ensures forall p :: p in posts ==> key[p] == posts[p].postDate
  {
    map p | p in posts :: posts[p].postDate
  }

  /** `PostListView.queryset`: every post once, newest first. */
  method PostsNewestFirst(s: Store) returns (order: seq<PostId>)
    ensures forall p :: multiset(order)[p] == (if p in s.posts then 1 else 0)
    ensures forall i :: 0 <= i < |order| ==> order[i] in s.posts
    ensures forall i, j :: 0 <= i < j < |order| ==> s.posts[order[i]].postDate >= s.posts[order[j]].postDate
  {
    order := SortDesc(PostDates(s.posts));
  }

  // ----- latest comments -----

  /** The number of comments the sidebar shows when none is asked for. */
  const DefaultLatestCount: int := 5

  /** The `pub_date` column as a sort key. */
  function PubDates(comments: map<CommentId, Comment>): (key: map<nat, int>)
    ensures key.Keys == comments.Keys
    ensures forall k :: k in comments ==> key[k] == comments[k].pubDate
  {
    map k | k in comments :: comments[k].pubDate
  }

  /** `show_latest_comments(count)`: the comments newest first, cut after
      `count`. The query refuses a negative slice bound. */
  method LatestComments(s: Store, count: int) returns (r: Result<seq<CommentId>>)
    ensures count < 0 <==> r.Err?
    ensures r.Err? ==> r.error == ServerError
    ensures r.Ok? ==> |r.value| == if count < |s.comments| then count else |s.comments|
    ensures r.Ok? ==> forall i :: 0 <= i < |r.value| ==> r.value[i] in s.comments
    ensures r.Ok? ==> forall i, j :: 0 <= i < j < |r.value| ==> r.value[i] != r.value[j]
    ensures r.Ok? ==> forall i, j :: 0 <= i < j < |r.value| ==>
      s.comments[r.value[i]].pubDate >= s.comments[r.value[j]].pubDate
    ensures r.Ok? ==> forall k, i :: k in s.comments && k !in r.value && 0 <= i < |r.value| ==>
      s.comments[r.value[i]].pubDate >= s.comments[k].pubDate
  {
    if count < 0 {
      return Err(ServerError);
    }
    var key := PubDates(s.comments);
    var order := SortDesc(key);
    var n := if count < |order| then count else |order|;
    PrefixOfSorted(key, order, n);
    r := Ok(order[..n]);
  }

  /** The tag with its default argument: the five newest comments, or all of them when there are fewer. */
  method LatestCommentsByDefault(s: Store) returns (r: seq<CommentId>)
    ensures |r| == if |s.comments| < DefaultLatestCount then |s.comments| else DefaultLatestCount
    ensures forall i :: 0 <= i < |r| ==> r[i] in s.comments
    ensures forall i, j :: 0 <= i < j < |r| ==> s.comments[r[i]].pubDate >= s.comments[r[j]].pubDate
    ensures forall i, j :: 0 <= i < j < |r| ==> r[i] != r[j]
    ensures forall k, i :: k in s.comments && k !in r && 0 <= i < |r| ==> s.comments[r[i]].pubDate >= s.comments[k].pubDate
  {
    var latest := LatestComments(s, DefaultLatestCount);
    r := latest.value;
  }

  // ----- total number of posts -----

  /** `total_post`: the number of stored posts. */
  function TotalPost(s: Store): nat {
    |s.posts|
  }

  /** The counters of the listed categories added up. */
  function SumAmounts(categories: map<CategoryId, Category>, order: seq<CategoryId>): int
    requires forall i :: 0 <= i < |order| ==> order[i] in categories
  {
    if order == [] then 0 else categories[order[0]].postAmount + SumAmounts(categories, order[1..])
  }

  /** The categories a listing mentions. */
  function Listed(order: seq<CategoryId>): set<CategoryId> {
    set x | x in order
  }

  /** The posts filed under any category of `cs`. */
  function PostsUnder(posts: map<PostId, Post>, cs: set<CategoryId>): set<PostId> {
    set p | p in posts && posts[p].category in cs
  }

  /** Summing faithful counters over distinct categories counts the posts
      filed under them. */
  lemma {:induction false} SumCountsPosts(s: Store, order: seq<CategoryId>)
    requires CounterConsistent(s)
    requires forall i :: 0 <= i < |order| ==> order[i] in s.categories
    requires forall i, j :: 0 <= i < j < |order| ==> order[i] != order[j]
    ensures SumAmounts(s.categories, order) == |PostsUnder(s.posts, Listed(order))|
    decreases |order|
  {
    if order == [] {
      assert Listed(order) == {};
      assert PostsUnder(s.posts, {}) == {};
    } else {
      var c, tail := order[0], order[1..];
      SumCountsPosts(s, tail);
      var rest := Listed(tail);
      assert Listed(order) == rest + {c};
      assert c !in rest;
      assert PostsUnder(s.posts, rest + {c}) == PostsUnder(s.posts, rest) + PostsIn(s.posts, c);
      assert PostsUnder(s.posts, rest) * PostsIn(s.posts, c) == {};
      assert SumAmounts(s.categories, order) == s.categories[c].postAmount + SumAmounts(s.categories, tail);
      assert s.categories[c].postAmount == |PostsIn(s.posts, c)|;
      assert |PostsUnder(s.posts, rest) + PostsIn(s.posts, c)| == |PostsUnder(s.posts, rest)| + |PostsIn(s.posts, c)|;
      assert SumAmounts(s.categories, tail) == |PostsUnder(s.posts, rest)|;
    }
  }

  /** A listing of each category once covers exactly the category keys and
      repeats none. */
  lemma ListsEachCategory(s: Store, order: seq<CategoryId>)
    requires forall c :: multiset(order)[c] == (if c in s.categories then 1 else 0)
    ensures forall i :: 0 <= i < |order| ==> order[i] in s.categories
    ensures forall i, j :: 0 <= i < j < |order| ==> order[i] != order[j]
    ensures Listed(order) == s.categories.Keys
  {
    EachOnceDistinct(PostAmounts(s.categories), order);
    forall i | 0 <= i < |order| ensures order[i] in s.categories {
      assert order[i] in multiset(order);
    }
    forall c | c in s.categories ensures c in order {
      assert c in multiset(order);
    }
  }

  /** Under a faithful counter, the total shown by `total_post` is the sum
      of all categories' `post_amount`, summed in the category list's order
      or any other listing of each category once. */
  lemma TotalPostIsSumOfCounters(s: Store, order: seq<CategoryId>)
    requires PostRefs(s) && CounterConsistent(s)
    requires forall c :: multiset(order)[c] == (if c in s.categories then 1 else 0)
    ensures TotalPost(s) == SumAmounts(s.categories, order)
  {
    ListsEachCategory(s, order);
    SumCountsPosts(s, order);
    assert SumAmounts(s.categories, order) == |PostsUnder(s.posts, s.categories.Keys)|;
    assert PostsUnder(s.posts, s.categories.Keys) == s.posts.Keys;
    assert |s.posts.Keys| == |s.posts|;
  }
}
