/** Sequences of events against the root component, starting from any state
    that satisfies the invariant (the seeded page does). */
module AppRun {
  import opened Wrappers
  import opened NumberText
  import opened Listing
  import opened App
  import opened AppInvariants

  /** An event and the answer the user gives if it opens a confirm box. */
  datatype Event = Event(op: Op, ok: bool)

  /** Runs the events in order, collecting every box they open. */
  function Run(s: AppState, events: seq<Event>): (r: Reaction)
    ensures |events| == 0 ==> r == Reaction(s, [])
    ensures |events| > 0 ==> |r.dialogs| >= |Step(s, events[0].op, events[0].ok).dialogs|
    decreases |events|
  {
    if |events| == 0 then Reaction(s, [])
    else
      var first := Step(s, events[0].op, events[0].ok);
      var rest := Run(first.state, events[1..]);
      Reaction(rest.state, first.dialogs + rest.dialogs)
  }

  /** Running two stretches of events one after the other is running them
      together: the state carries over and the boxes are concatenated. */
  lemma {:induction false} RunAppend(s: AppState, a: seq<Event>, b: seq<Event>)
    ensures var ra := Run(s, a);
      var rb := Run(ra.state, b);
      Run(s, a + b) == Reaction(rb.state, ra.dialogs + rb.dialogs)
    decreases |a|
  {
    if |a| == 0 {
      assert a + b == b;
    } else {
      var first := Step(s, a[0].op, a[0].ok);
      assert (a + b)[0] == a[0];
      assert (a + b)[1..] == a[1..] + b;
      RunAppend(first.state, a[1..], b);
      var ra := Run(first.state, a[1..]);
      var rb := Run(ra.state, b);
      assert first.dialogs + (ra.dialogs + rb.dialogs) == (first.dialogs + ra.dialogs) + rb.dialogs;
    }
  }

  /** Every selection event of the run carries a post stored at that point. */
  predicate Delivered(s: AppState, events: seq<Event>)
    decreases |events|
  {
    |events| == 0 ||
      (OpDelivered(s, events[0].op) && Delivered(Step(s, events[0].op, events[0].ok).state, events[1..]))
  }

  lemma InitialInv()
    ensures Inv(Initial())
  {
  }

  /** Any delivered run keeps the invariant: ids stay distinct and at least
      1, and the selection keeps mirroring its stored post. */
  lemma {:induction false} RunKeepsInv(s: AppState, events: seq<Event>)
    requires Inv(s) && Delivered(s, events)
    ensures Inv(Run(s, events).state)
    decreases |events|
  {
    if |events| > 0 {
      StepKeepsInv(s, events[0].op, events[0].ok);
      RunKeepsInv(Step(s, events[0].op, events[0].ok).state, events[1..]);
    }
  }

  /** The ids of the sold posts. */
  function SoldIds(posts: seq<CodePost>): set<int> {
    set i | 0 <= i < |posts| && IsSold(posts[i]) :: posts[i].id
  }

  /** The event is a confirmed delete of a sold selection: the one event
      that takes a sold id out of the store. */
  predicate DropsSold(s: AppState, op: Op, ok: bool) {
    op.Delete? && ok && s.selected.Some? && IsSold(s.selected.value)
  }

  /** No event of the run is a confirmed delete of a sold selection. */
  predicate KeepsSoldPosts(s: AppState, events: seq<Event>)
    decreases |events|
  {
    |events| == 0 ||
      (!DropsSold(s, events[0].op, events[0].ok)
       && KeepsSoldPosts(Step(s, events[0].op, events[0].ok).state, events[1..]))
  }

  /** A confirmed delete of an unsold selection keeps every sold post: under
      the invariant only the selection holds its id. */
  lemma DeleteUnsoldKeepsSoldIds(s: AppState)
    requires Inv(s) && s.selected.Some? && !IsSold(s.selected.value)
    ensures SoldIds(s.posts) <= SoldIds(RemoveId(s.posts, s.selected.value.id))
  {
    var sel := s.selected.value;
    var r := RemoveId(s.posts, sel.id);
    var k := SelectedIndex(s);
    forall x | x in SoldIds(s.posts) ensures x in SoldIds(r) {
      var i :| 0 <= i < |s.posts| && IsSold(s.posts[i]) && s.posts[i].id == x;
      assert i != k;
      assert s.posts[i] in r;
      var j :| 0 <= j < |r| && r[j] == s.posts[i];
      assert IsSold(r[j]) && r[j].id == x;
    }
  }

  /** Every event other than a confirmed delete of a sold selection keeps
      each sold id stored and sold. */
  lemma StepKeepsSoldIds(s: AppState, op: Op, ok: bool)
    requires Inv(s) && !DropsSold(s, op, ok)
    ensures SoldIds(s.posts) <= SoldIds(Step(s, op, ok).state.posts)
  {
    if op.Delete? && ok && s.selected.Some? {
      DeleteUnsoldKeepsSoldIds(s);
    }
  }

  /** Along a delivered run that never confirms the delete of a sold
      selection, no sold post disappears or becomes unsold. */
  lemma {:induction false} RunKeepsSoldIds(s: AppState, events: seq<Event>)
    requires Inv(s) && Delivered(s, events) && KeepsSoldPosts(s, events)
    ensures SoldIds(s.posts) <= SoldIds(Run(s, events).state.posts)
    decreases |events|
  {
    if |events| > 0 {
      var t := Step(s, events[0].op, events[0].ok).state;
      StepKeepsSoldIds(s, events[0].op, events[0].ok);
      StepKeepsInv(s, events[0].op, events[0].ok);
      RunKeepsSoldIds(t, events[1..]);
    }
  }

  /** A run of two events is the second event applied after the first. */
  lemma RunOfTwo(s: AppState, e1: Event, e2: Event)
    ensures var r1 := Step(s, e1.op, e1.ok);
      var r2 := Step(r1.state, e2.op, e2.ok);
      Run(s, [e1, e2]) == Reaction(r2.state, r1.dialogs + r2.dialogs)
  {
    assert [e1, e2][1..] == [e2];
    assert [e2][1..] == [];
  }

  /** The id of a deleted post with the largest id is handed out again by
      the next addition, and the new holder of that id is unsold although
      the deleted one was sold. */
  lemma DeletedMaxIdIsReused()
    ensures var sold := CodePost(2, "B", Finite(5000), "x", "y", "JS", JustNow, Some(true));
      var seed := CodePost(1, "A", Finite(15000), "c", "d", "JS", "old", Some(false));
      var s := AppState([sold, seed], Some(sold), false, false);
      var d := Draft("C", Finite(1), "z", "w", "JS");
      var t := Run(s, [Event(Delete, true), Event(SubmitForm(d), true)]).state;
      && Inv(s) && 2 in SoldIds(s.posts)
      && |t.posts| == 2 && t.posts[0].id == 2 && !IsSold(t.posts[0]) && 2 !in SoldIds(t.posts)
  {
    var sold := CodePost(2, "B", Finite(5000), "x", "y", "JS", JustNow, Some(true));
    var seed := CodePost(1, "A", Finite(15000), "c", "d", "JS", "old", Some(false));
    var s := AppState([sold, seed], Some(sold), false, false);
    var d := Draft("C", Finite(1), "z", "w", "JS");
    var s1 := Step(s, Delete, true).state;
    assert s1.posts == [seed] by {
      assert RemoveId(s.posts, 2) == [seed];
    }
    var s2 := Step(s1, SubmitForm(d), true).state;
    var added := CodePost(2, "C", Finite(1), "z", "w", "JS", JustNow, Some(false));
    assert s2.posts == [added, seed] by {
      assert MaxId(s1.posts) == 1;
    }
    RunOfTwo(s, Event(Delete, true), Event(SubmitForm(d), true));
    assert 2 !in SoldIds(s2.posts);
  }

  /** Adding "B" to a store holding only "A" (id 1) gives "B" id 2 at the
      front, selected; buying it with "yes" marks only it sold and announces
      "B"; a declined delete afterwards changes nothing. */
  lemma CreateBuyDeclineScenario()
    ensures var a := CodePost(1, "A", Finite(15000), "c", "d", "JS", "2시간 전", Some(false));
      var s := AppState([a], Some(a), false, false);
      var d := Draft("B", Finite(5000), "x", "y", "JS");
      var s1 := Step(s, SubmitForm(d), true).state;
      var r2 := Step(s1, Buy, true);
      var r3 := Step(r2.state, Delete, false);
      && |s1.posts| == 2 && s1.posts[0].id == 2 && s1.posts[0].title == "B" && s1.posts[1] == a
      && s1.selected == Some(s1.posts[0])
      && r2.state.posts == [s1.posts[0].(isSoldOut := Some(true)), a]
      && r2.dialogs == [ConfirmPurchase("B"), Purchased("B")]
      && r3.state == r2.state
  {
    var a := CodePost(1, "A", Finite(15000), "c", "d", "JS", "2시간 전", Some(false));
    var s := AppState([a], Some(a), false, false);
    var d := Draft("B", Finite(5000), "x", "y", "JS");
    var s1 := Step(s, SubmitForm(d), true).state;
    assert MaxId(s.posts) == 1;
    var r2 := Step(s1, Buy, true);
    assert r2.state.posts == [s1.posts[0].(isSoldOut := Some(true)), a];
  }
}
