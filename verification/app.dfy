/** The root component of src/App.tsx as a reducer: the state it keeps in
    `useState`, one pure transition per event handler, and what each
    transition preserves.  The blocking `window.confirm` becomes a boolean
    input (the user's answer) and every confirm or alert box becomes a
    `Dialog` value in the transition's output. */
module App {
  import opened Wrappers
  import opened NumberText
  import opened Listing

  /** `posts`, `selectedPost`, `showForm` and `editMode`. */
  datatype AppState = AppState(
    posts: seq<CodePost>,
    selected: Option<CodePost>,
    showForm: bool,
    editMode: bool)

  /** The blocking boxes the handlers open, each naming the post's title
      where the source's message does. */
  datatype Dialog =
    | ConfirmDelete(title: string)
    | Deleted(title: string)
    | AlreadyPurchased
    | ConfirmPurchase(title: string)
    | Purchased(title: string)

  predicate IsConfirm(d: Dialog) {
    d.ConfirmDelete? || d.ConfirmPurchase?
  }

  /** The state after a handler ran, and the boxes it opened, in order. */
  datatype Reaction = Reaction(state: AppState, dialogs: seq<Dialog>)

  /** The `createdAt` label of a post added in this session. */
  const JustNow: string := "방금 전"

  /** The listing the page starts with. */
  const Seed: CodePost := CodePost(
    1,
    "React 투두리스트 컴포넌트",
    Finite(15000),
    "function TodoList() {\n const [todos, setTodos] = useState([]);\n return <div>...</div>\n}",
    "깔끔한 투두리스트 컴포넌트입니다",
    "JavaScript",
    "2시간 전",
    Some(false))

  /** The seeded store: one unsold post with id 1, selected, no form open. */
  function Initial(): (s: AppState)
    ensures |s.posts| == 1 && s.posts[0].id == 1 && !IsSold(s.posts[0])
    ensures s.selected == Some(s.posts[0])
    ensures !s.showForm && !s.editMode
  {
    AppState([Seed], Some(Seed), false, false)
  }

  /** The state invariant: ids are distinct and at least 1, and a selected
      post is exactly the stored post with its id. */
  predicate Inv(s: AppState) {
    && WellFormedStore(s.posts)
    && (s.selected.Some? ==> Lookup(s.posts, s.selected.value.id) == s.selected)
  }

  /** The id `handleAddPost` gives a new post: one more than the largest id,
      or 1 for an empty store. */
  function NextId(posts: seq<CodePost>): (id: int)
    ensures forall i :: 0 <= i < |posts| ==> posts[i].id < id
    ensures |posts| == 0 ==> id == 1
    ensures |posts| > 0 ==> exists i :: 0 <= i < |posts| && posts[i].id == id - 1
  {
    if |posts| > 0 then MaxId(posts) + 1 else 1
  }

  /** `handleSelectPost`: the clicked post becomes the selection. */
  function HandleSelectPost(s: AppState, post: CodePost): (r: Reaction)
    ensures r.state == s.(selected := Some(post)) && r.dialogs == []
  {
    Reaction(s.(selected := Some(post)), [])
  }

  /** `handleAddPost`: the draft gets a fresh id, the "just now" label and an
      unsold flag, goes to the front of the store, becomes the selection, and
      the form closes. */
  function HandleAddPost(s: AppState, d: Draft): (r: Reaction)
    ensures |r.state.posts| == |s.posts| + 1 && r.state.posts[1..] == s.posts
    ensures forall i :: 0 <= i < |s.posts| ==> s.posts[i].id != r.state.posts[0].id
    ensures r.state.posts[0].id == NextId(s.posts)
    ensures DraftOf(r.state.posts[0]) == d
    ensures r.state.posts[0].createdAt == JustNow && r.state.posts[0].isSoldOut == Some(false)
    ensures r.state.selected == Some(r.state.posts[0])
    ensures !r.state.showForm && r.state.editMode == s.editMode
    ensures r.dialogs == []
  {
    var post := CodePost(NextId(s.posts), d.title, d.price, d.code, d.description, d.language,
                         JustNow, Some(false));
    Reaction(s.(posts := [post] + s.posts, selected := Some(post), showForm := false), [])
  }

  /** `handleEditPost`: without a selection nothing happens.  Otherwise the
      draft's fields replace those of every stored post with the selected id
      while id, `createdAt` and `isSoldOut` are kept from the selection; the
      new record becomes the selection and the form closes. */
  function HandleEditPost(s: AppState, d: Draft): (r: Reaction)
    ensures s.selected.None? ==> r == Reaction(s, [])
    ensures s.selected.Some? ==>
      var sel := s.selected.value;
      && r.state.selected.Some?
      && r.state.selected.value.id == sel.id
      && r.state.selected.value.createdAt == sel.createdAt
      && r.state.selected.value.isSoldOut == sel.isSoldOut
      && DraftOf(r.state.selected.value) == d
      && |r.state.posts| == |s.posts|
      && (forall i :: 0 <= i < |s.posts| && s.posts[i].id == sel.id ==> r.state.posts[i] == r.state.selected.value)
      && (forall i :: 0 <= i < |s.posts| && s.posts[i].id != sel.id ==> r.state.posts[i] == s.posts[i])
      && !r.state.showForm && !r.state.editMode
      && r.dialogs == []
  {
    match s.selected
    case None => Reaction(s, [])
    case Some(sel) =>
      var post := CodePost(sel.id, d.title, d.price, d.code, d.description, d.language,
                           sel.createdAt, sel.isSoldOut);
      var posts := seq(|s.posts|, i requires 0 <= i < |s.posts| =>
        if s.posts[i].id == post.id then post else s.posts[i]);
      Reaction(AppState(posts, Some(post), false, false), [])
  }

  /** `posts.filter(p => p.id !== id)`. */
  function RemoveId(posts: seq<CodePost>, id: int): (r: seq<CodePost>)
    ensures |r| <= |posts|
    ensures forall p :: p in r <==> p in posts && p.id != id
  {
    if |posts| == 0 then []
    else if posts[0].id == id then RemoveId(posts[1..], id)
    else [posts[0]] + RemoveId(posts[1..], id)
  }

  /** Filtering distributes over concatenation: the kept posts stay in
      store order and keep their multiplicity.  With the membership clause
      of `RemoveId` this fixes the result on every store. */
  lemma {:induction false} RemoveIdAppend(a: seq<CodePost>, b: seq<CodePost>, id: int)
    ensures RemoveId(a + b, id) == RemoveId(a, id) + RemoveId(b, id)
  {
    if |a| == 0 {
      assert a + b == b;
    } else {
      assert (a + b)[0] == a[0];
      assert (a + b)[1..] == a[1..] + b;
      RemoveIdAppend(a[1..], b, id);
    }
  }

  /** `handleDeletePost`: without a selection nothing happens; otherwise the
      user is asked, and only on "yes" are the posts with the selected id
      dropped, the selection cleared and the deletion announced. */
  function HandleDeletePost(s: AppState, ok: bool): (r: Reaction)
    ensures s.selected.None? ==> r == Reaction(s, [])
    ensures s.selected.Some? && !ok ==> r == Reaction(s, [ConfirmDelete(s.selected.value.title)])
    ensures s.selected.Some? && ok ==>
      var sel := s.selected.value;
      && r.state.posts == RemoveId(s.posts, sel.id)
      && (forall p :: p in r.state.posts <==> p in s.posts && p.id != sel.id)
      && r.state.selected.None?
      && r.state.showForm == s.showForm && r.state.editMode == s.editMode
      && r.dialogs == [ConfirmDelete(sel.title), Deleted(sel.title)]
  {
    match s.selected
    case None => Reaction(s, [])
    case Some(sel) =>
      if !ok then Reaction(s, [ConfirmDelete(sel.title)])
      else Reaction(s.(posts := RemoveId(s.posts, sel.id), selected := None),
                    [ConfirmDelete(sel.title), Deleted(sel.title)])
  }

  /** `handleBuy`: without a selection nothing happens.  A sold selection is
      refused with a message before any question is asked.  Otherwise the
      user is asked, and only on "yes" is every stored post with the selected
      id marked sold, the selection mirrored, and the purchase announced. */
  function HandleBuy(s: AppState, ok: bool): (r: Reaction)
    ensures s.selected.None? ==> r == Reaction(s, [])
    ensures s.selected.Some? && IsSold(s.selected.value) ==> r == Reaction(s, [AlreadyPurchased])
    ensures s.selected.Some? && !IsSold(s.selected.value) && !ok ==>
      r == Reaction(s, [ConfirmPurchase(s.selected.value.title)])
    ensures s.selected.Some? && !IsSold(s.selected.value) && ok ==>
      var sel := s.selected.value;
      && |r.state.posts| == |s.posts|
      && (forall i :: 0 <= i < |s.posts| && s.posts[i].id == sel.id ==>
            r.state.posts[i] == s.posts[i].(isSoldOut := Some(true)))
      && (forall i :: 0 <= i < |s.posts| && s.posts[i].id != sel.id ==> r.state.posts[i] == s.posts[i])
      && r.state.selected == Some(sel.(isSoldOut := Some(true)))
      && r.state.showForm == s.showForm && r.state.editMode == s.editMode
      && r.dialogs == [ConfirmPurchase(sel.title), Purchased(sel.title)]
  {
    match s.selected
    case None => Reaction(s, [])
    case Some(sel) =>
      if IsSold(sel) then Reaction(s, [AlreadyPurchased])
      else if !ok then Reaction(s, [ConfirmPurchase(sel.title)])
      else
        var posts := seq(|s.posts|, i requires 0 <= i < |s.posts| =>
          if s.posts[i].id == sel.id then s.posts[i].(isSoldOut := Some(true)) else s.posts[i]);
        Reaction(s.(posts := posts, selected := Some(sel.(isSoldOut := Some(true)))),
                 [ConfirmPurchase(sel.title), Purchased(sel.title)])
  }

  /** The events the page can deliver to the root component. */
  datatype Op =
    | SelectPost(post: CodePost)
    | CloseDetail
    | OpenNewForm
    | OpenEditForm
    | CloseForm
    | SubmitForm(draft: Draft)
    | Delete
    | Buy

  /** One event, with `ok` the answer the user would give a confirm box:
      the header's add button, the detail pane's close, edit, delete and buy
      buttons, a list row, and the form's close and submit callbacks. */
  function Step(s: AppState, op: Op, ok: bool): (r: Reaction)
    ensures r.dialogs != [] ==> op.Delete? || op.Buy?
    ensures r.state.posts != s.posts ==> op.SubmitForm? || ((op.Delete? || op.Buy?) && ok)
    ensures op.OpenNewForm? || op.OpenEditForm? ==> r.state.showForm && r.state.editMode == op.OpenEditForm?
    ensures op.CloseForm? ==> !r.state.showForm && !r.state.editMode
    ensures op.SubmitForm? && (s.selected.Some? || !s.editMode) ==> !r.state.showForm
    ensures op.SubmitForm? && s.selected.None? && s.editMode ==> r == Reaction(s, [])
    ensures op.CloseDetail? ==> r.state.selected.None?
    ensures op.SelectPost? ==> r.state.selected == Some(op.post)
  {
    match op
    case SelectPost(p) => HandleSelectPost(s, p)
    case CloseDetail => Reaction(s.(selected := None), [])
    case OpenNewForm => Reaction(s.(showForm := true, editMode := false), [])
    case OpenEditForm => Reaction(s.(showForm := true, editMode := true), [])
    case CloseForm => Reaction(s.(showForm := false, editMode := false), [])
    case SubmitForm(d) => if s.editMode then HandleEditPost(s, d) else HandleAddPost(s, d)
    case Delete => HandleDeletePost(s, ok)
    case Buy => HandleBuy(s, ok)
  }

  /** A selection event carries a post of the current store, as every row of
      the list does. */
  predicate OpDelivered(s: AppState, op: Op) {
    op.SelectPost? ==> op.post in s.posts
  }
}
