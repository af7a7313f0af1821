/** What the root component's handlers preserve: distinct positive ids, a
    selection that mirrors its stored post, sold flags that never revert,
    and edits, deletions and purchases that touch exactly one stored post. */
module AppInvariants {
  import opened Wrappers
  import opened Listing
  import opened App

  /** Under the invariant the selection sits at a known position. */
  lemma SelectedIndex(s: AppState) returns (k: int)
    requires Inv(s) && s.selected.Some?
    ensures 0 <= k < |s.posts| && s.posts[k] == s.selected.value
    ensures IndexOf(s.posts, s.selected.value.id) == k
    ensures forall j :: 0 <= j < |s.posts| && j != k ==> s.posts[j].id != s.selected.value.id
  {
    k := IndexOf(s.posts, s.selected.value.id);
  }

  lemma {:induction false} RemoveAbsentId(posts: seq<CodePost>, id: int)
    requires forall j :: 0 <= j < |posts| ==> posts[j].id != id
    ensures RemoveId(posts, id) == posts
  {
    if |posts| > 0 {
      RemoveAbsentId(posts[1..], id);
    }
  }

  /** Filtering out an id held by exactly one post removes that post and
      keeps the others in order. */
  lemma {:induction false} RemoveIdAt(posts: seq<CodePost>, k: int)
    requires 0 <= k < |posts|
    requires forall j :: 0 <= j < |posts| && j != k ==> posts[j].id != posts[k].id
    ensures RemoveId(posts, posts[k].id) == posts[..k] + posts[k + 1..]
  {
    var id := posts[k].id;
    if k == 0 {
      RemoveAbsentId(posts[1..], id);
    } else {
      var tail := posts[1..];
      assert tail[k - 1] == posts[k];
      forall j | 0 <= j < |tail| && j != k - 1 ensures tail[j].id != tail[k - 1].id {
        assert tail[j] == posts[j + 1];
      }
      RemoveIdAt(tail, k - 1);
      assert RemoveId(posts, id) == [posts[0]] + RemoveId(tail, id) by {
        assert posts[0].id != id;
      }
      assert tail[..k - 1] + tail[k..] == posts[1..k] + posts[k + 1..];
      assert posts[..k] == [posts[0]] + posts[1..k];
    }
  }

  /** Adding keeps the invariant: the new id exceeds every stored id. */
  lemma AddKeepsInv(s: AppState, d: Draft)
    requires Inv(s)
    ensures Inv(HandleAddPost(s, d).state)
  {
  }

  /** An edit, when something is selected, replaces exactly the selected
      post in place. */
  lemma EditReplacesExactlyOne(s: AppState, d: Draft) returns (k: int)
    requires Inv(s) && s.selected.Some?
    ensures 0 <= k < |s.posts| && s.posts[k] == s.selected.value
    ensures HandleEditPost(s, d).state.posts == s.posts[k := HandleEditPost(s, d).state.selected.value]
  {
    k := SelectedIndex(s);
  }

  lemma EditKeepsInv(s: AppState, d: Draft)
    requires Inv(s)
    ensures Inv(HandleEditPost(s, d).state)
  {
  }

  /** A confirmed delete, when something is selected, removes exactly the
      selected post and keeps the others in order. */
  lemma DeleteRemovesExactlyOne(s: AppState) returns (k: int)
    requires Inv(s) && s.selected.Some?
    ensures 0 <= k < |s.posts| && s.posts[k] == s.selected.value
    ensures HandleDeletePost(s, true).state.posts == s.posts[..k] + s.posts[k + 1..]
    ensures |HandleDeletePost(s, true).state.posts| == |s.posts| - 1
  {
    k := SelectedIndex(s);
    RemoveIdAt(s.posts, k);
  }

  lemma DeleteKeepsInv(s: AppState, ok: bool)
    requires Inv(s)
    ensures Inv(HandleDeletePost(s, ok).state)
  {
    if s.selected.Some? && ok {
      var k := DeleteRemovesExactlyOne(s);
      var t := HandleDeletePost(s, ok).state;
      forall i | 0 <= i < |t.posts| ensures t.posts[i] == s.posts[if i < k then i else i + 1] {
      }
    }
  }

  /** A confirmed purchase of an unsold selection sets the flag on exactly
      the selected post and changes nothing else in the store. */
  lemma BuyFlipsExactlyOne(s: AppState) returns (k: int)
    requires Inv(s) && s.selected.Some? && !IsSold(s.selected.value)
    ensures 0 <= k < |s.posts| && s.posts[k] == s.selected.value
    ensures HandleBuy(s, true).state.posts == s.posts[k := s.selected.value.(isSoldOut := Some(true))]
    ensures HandleBuy(s, true).state.selected == Some(HandleBuy(s, true).state.posts[k])
  {
    k := SelectedIndex(s);
  }

  lemma BuyKeepsInv(s: AppState, ok: bool)
    requires Inv(s)
    ensures Inv(HandleBuy(s, ok).state)
  {
  }

  /** Every event the page can deliver keeps the invariant. */
  lemma StepKeepsInv(s: AppState, op: Op, ok: bool)
    requires Inv(s) && OpDelivered(s, op)
    ensures Inv(Step(s, op, ok).state)
  {
    match op
    case SelectPost(p) =>
      var i :| 0 <= i < |s.posts| && s.posts[i] == p;
      LookupOwnId(s.posts, i);
    case SubmitForm(d) =>
      if s.editMode { EditKeepsInv(s, d); } else { AddKeepsInv(s, d); }
    case Delete => DeleteKeepsInv(s, ok);
    case Buy => BuyKeepsInv(s, ok);
    case _ =>
  }

  /** Nothing sold in `s` is unsold in `t`: every post of `t` that shares
      an id with a sold post of `s` is sold, and so is a selection that keeps
      a sold selection's id. */
  predicate KeepsSold(s: AppState, t: AppState) {
    && (forall i, j ::
          (0 <= i < |s.posts| && 0 <= j < |t.posts| && IsSold(s.posts[i])
           && t.posts[j].id == s.posts[i].id) ==> IsSold(t.posts[j]))
    && ((s.selected.Some? && IsSold(s.selected.value) && t.selected.Some?
         && t.selected.value.id == s.selected.value.id) ==> IsSold(t.selected.value))
  }

  lemma AddNeverUnsells(s: AppState, d: Draft)
    requires Inv(s)
    ensures KeepsSold(s, HandleAddPost(s, d).state)
  {
  }

  lemma EditNeverUnsells(s: AppState, d: Draft)
    requires Inv(s)
    ensures KeepsSold(s, HandleEditPost(s, d).state)
  {
  }

  lemma DeleteNeverUnsells(s: AppState, ok: bool)
    requires Inv(s)
    ensures KeepsSold(s, HandleDeletePost(s, ok).state)
  {
    if s.selected.Some? && ok {
      var t := HandleDeletePost(s, ok).state;
      forall i, j | 0 <= i < |s.posts| && 0 <= j < |t.posts| && IsSold(s.posts[i])
        && t.posts[j].id == s.posts[i].id
        ensures IsSold(t.posts[j])
      {
        assert t.posts[j] in s.posts;
        var m :| 0 <= m < |s.posts| && s.posts[m] == t.posts[j];
        assert m == i;
      }
    }
  }

  lemma BuyNeverUnsells(s: AppState, ok: bool)
    requires Inv(s)
    ensures KeepsSold(s, HandleBuy(s, ok).state)
  {
  }

  /** No event turns a sold post back into an unsold one. */
  lemma StepNeverUnsells(s: AppState, op: Op, ok: bool)
    requires Inv(s) && OpDelivered(s, op)
    ensures KeepsSold(s, Step(s, op, ok).state)
  {
    match op
    case SelectPost(p) =>
      var i :| 0 <= i < |s.posts| && s.posts[i] == p;
      LookupOwnId(s.posts, i);
    case SubmitForm(d) =>
      if s.editMode { EditNeverUnsells(s, d); } else { AddNeverUnsells(s, d); }
    case Delete => DeleteNeverUnsells(s, ok);
    case Buy => BuyNeverUnsells(s, ok);
    case _ =>
  }

  /** Closing the detail pane clears the selection, and the form buttons
      set only the two form flags. */
  lemma ViewEventsMoveOnlyFlags(s: AppState, op: Op, ok: bool)
    ensures op.SelectPost? || op.CloseDetail? ==>
      Step(s, op, ok).state == s.(selected := if op.SelectPost? then Some(op.post) else None)
    ensures op.OpenNewForm? || op.OpenEditForm? || op.CloseForm? ==>
      Step(s, op, ok).state == s.(showForm := !op.CloseForm?, editMode := op.OpenEditForm?)
  {
  }

  /** A confirm box, when an event opens one, is the first box it opens. */
  lemma ConfirmComesFirst(s: AppState, op: Op, ok: bool)
    ensures forall i :: 0 < i < |Step(s, op, ok).dialogs| ==> !IsConfirm(Step(s, op, ok).dialogs[i])
  {
  }

  /** The answer to a confirm box matters only when one was shown: an event
      that opens no confirm box does the same whatever the answer. */
  lemma AnswerMattersOnlyWhenAsked(s: AppState, op: Op)
    requires |Step(s, op, false).dialogs| == 0 || !IsConfirm(Step(s, op, false).dialogs[0])
    ensures Step(s, op, true) == Step(s, op, false)
  {
  }

  /** Buying twice with "yes" both times ends where buying once does; the
      second attempt only reports that the post is already sold. */
  lemma BuyTwiceSameAsOnce(s: AppState)
    requires Inv(s) && s.selected.Some? && !IsSold(s.selected.value)
    ensures var once := Step(s, Buy, true).state;
      Step(once, Buy, true) == Reaction(once, [AlreadyPurchased])
  {
  }
}
