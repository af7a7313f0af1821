/** The `CodePost` record of src/App.tsx, the draft the form hands to the
    root component, and the id-based views of the post list that the
    handlers and the renderers rely on. */
module Listing {
  import opened Wrappers
  import opened NumberText

  /** One listing.  `isSoldOut` is an optional property in the source, so it
      has three states: absent, false, true. */
  datatype CodePost = CodePost(
    id: int,
    title: string,
    price: Num,
    code: string,
    description: string,
    language: string,
    createdAt: string,
    isSoldOut: Option<bool>)

  /** `Omit<CodePost, "id" | "createdAt">` as the form builds it: the five
      author-supplied fields and nothing else. */
  datatype Draft = Draft(
    title: string,
    price: Num,
    code: string,
    description: string,
    language: string)

  /** The truthiness of `isSoldOut`: an absent flag counts as not sold. */
  predicate IsSold(p: CodePost) {
    p.isSoldOut == Some(true)
  }

  /** The draft a post's own fields would make. */
  function DraftOf(p: CodePost): (d: Draft)
    ensures d.title == p.title && d.price == p.price && d.code == p.code
    ensures d.description == p.description && d.language == p.language
  {
    Draft(p.title, p.price, p.code, p.description, p.language)
  }

  predicate UniqueIds(posts: seq<CodePost>) {
    forall i, j :: 0 <= i < j < |posts| ==> posts[i].id != posts[j].id
  }

  /** Position of the first post with the given id, or -1 when none has it. */
  function IndexOf(posts: seq<CodePost>, id: int): (k: int)
    ensures -1 <= k < |posts|
    ensures k >= 0 ==> posts[k].id == id
    ensures k >= 0 ==> forall j :: 0 <= j < k ==> posts[j].id != id
    ensures k == -1 <==> forall j :: 0 <= j < |posts| ==> posts[j].id != id
  {
    if |posts| == 0 then -1
    else if posts[0].id == id then 0
    else
      var k := IndexOf(posts[1..], id);
      if k < 0 then -1 else k + 1
  }

  /** The stored post with the given id: the first one holding it. */
  function Lookup(posts: seq<CodePost>, id: int): Option<CodePost> {
    var k := IndexOf(posts, id);
    if k < 0 then None else Some(posts[k])
  }

  /** With unique ids, every post is the one found under its own id. */
  lemma LookupOwnId(posts: seq<CodePost>, i: int)
    requires UniqueIds(posts)
    requires 0 <= i < |posts|
    ensures IndexOf(posts, posts[i].id) == i
    ensures Lookup(posts, posts[i].id) == Some(posts[i])
  {
  }

  /** `Math.max(...posts.map(p => p.id))` on a non-empty list. */
  function MaxId(posts: seq<CodePost>): (m: int)
    requires |posts| > 0
    ensures forall i :: 0 <= i < |posts| ==> posts[i].id <= m
    ensures exists i :: 0 <= i < |posts| && posts[i].id == m
  {
    if |posts| == 1 then posts[0].id
    else
      var rest := MaxId(posts[1..]);
      if posts[0].id >= rest then posts[0].id else rest
  }

  /** Ids are pairwise distinct and at least 1. */
  predicate WellFormedStore(posts: seq<CodePost>) {
    && UniqueIds(posts)
    && forall i :: 0 <= i < |posts| ==> posts[i].id >= 1
  }
}
