/** The listing list of src/components/CodeList.tsx: a placeholder for an
    empty store, otherwise one row per post in store order. */
module CodeList {
  import opened Wrappers
  import opened Listing
  import CodeItem

  const EmptyText: string := "등록된 코드가 없습니다"

  /** Either the placeholder text alone or the rows, top to bottom. */
  datatype ListView = Placeholder(text: string) | Rows(rows: seq<CodeItem.ItemView>)

  /** A row is highlighted when its id equals the selected id; a null id
      (`None`) equals no id. */
  predicate RowSelected(p: CodePost, selectedPostId: Option<int>) {
    selectedPostId == Some(p.id)
  }

  /** `CodeList({ posts, onSelectPost, selectedPostId })`. */
  function Render(posts: seq<CodePost>, selectedPostId: Option<int>): (v: ListView)
    ensures v.Placeholder? <==> |posts| == 0
    ensures v.Placeholder? ==> v.text == EmptyText
    ensures v.Rows? ==> |v.rows| == |posts|
    ensures v.Rows? ==> forall i :: 0 <= i < |posts| ==>
      v.rows[i] == CodeItem.Render(posts[i], RowSelected(posts[i], selectedPostId))
  {
    if |posts| == 0 then Placeholder(EmptyText)
    else Rows(seq(|posts|, i requires 0 <= i < |posts| => CodeItem.Render(posts[i], RowSelected(posts[i], selectedPostId))))
  }

  /** Row `i` shows post `i` and reports post `i` when clicked, whatever its
      sold state, so every selection made through the list is a stored post. */
  lemma RowsFollowStore(posts: seq<CodePost>, selectedPostId: Option<int>, i: int)
    requires 0 <= i < |posts|
    ensures Render(posts, selectedPostId).Rows?
    ensures Render(posts, selectedPostId).rows[i].onClick == posts[i]
    ensures Render(posts, selectedPostId).rows[i].title == posts[i].title
  {
  }

  /** A null selected id highlights no row. */
  lemma NullSelectsNoRow(posts: seq<CodePost>)
    requires |posts| > 0
    ensures forall i :: 0 <= i < |posts| ==> !Render(posts, None).rows[i].highlighted
  {
  }

  /** With distinct ids at most one row is highlighted. */
  lemma AtMostOneHighlighted(posts: seq<CodePost>, selectedPostId: Option<int>)
    requires UniqueIds(posts)
    requires |posts| > 0
    ensures forall i, j ::
      (0 <= i < |posts| && 0 <= j < |posts|
       && Render(posts, selectedPostId).rows[i].highlighted
       && Render(posts, selectedPostId).rows[j].highlighted) ==> i == j
  {
  }
}
