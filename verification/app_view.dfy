/** The decisions src/App.tsx makes while rendering: the detail pane of the
    selected post, the selected id handed to the list, and the form's mode
    and seed data. */
module AppView {
  import opened Wrappers
  import opened Listing
  import opened App
  import opened AppInvariants
  import CodeItem
  import CodeList
  import CodeForm

  const NoSelectionText: string := "코드를 선택해주세요"
  const SoldStampText: string := "SOLD OUT"
  const PurchasedPriceText: string := "구매 완료"
  const BuyButtonText: string := "구매하기"
  const BoughtButtonText: string := "구매 완료된 코드"

  /** The detail pane: a prompt when nothing is selected, otherwise the
      selected post with its sold-dependent stamp, price label, code colour
      and purchase button. */
  datatype DetailView =
    | NoSelection(prompt: string)
    | Detail(
        title: string,
        stamp: Option<string>,
        priceLabel: CodeItem.PriceLabel,
        createdAt: string,
        description: string,
        code: string,
        codeMuted: bool,
        buyDisabled: bool,
        buyLabel: string)

  function RenderDetail(selected: Option<CodePost>): (v: DetailView)
    ensures v.NoSelection? <==> selected.None?
    ensures selected.Some? ==>
      var p := selected.value;
      && v.title == p.title && v.code == p.code && v.description == p.description
      && (v.stamp.Some? <==> IsSold(p))
      && (v.priceLabel == CodeItem.Fixed(PurchasedPriceText) <==> IsSold(p))
      && (!IsSold(p) ==> v.priceLabel == CodeItem.Amount(p.price))
      && (v.codeMuted <==> IsSold(p))
      && (v.buyDisabled <==> IsSold(p))
      && v.buyLabel == (if IsSold(p) then BoughtButtonText else BuyButtonText)
  {
    match selected
    case None => NoSelection(NoSelectionText)
    case Some(p) =>
      var sold := IsSold(p);
      Detail(
        title := p.title,
        stamp := if sold then Some(SoldStampText) else None,
        priceLabel := if sold then CodeItem.Fixed(PurchasedPriceText) else CodeItem.Amount(p.price),
        createdAt := p.createdAt,
        description := p.description,
        code := p.code,
        codeMuted := sold,
        buyDisabled := sold,
        buyLabel := if sold then BoughtButtonText else BuyButtonText)
  }

  /** The purchase button is disabled exactly when pressing it would only
      be refused as already purchased. */
  lemma BuyDisabledExactlyWhenRefused(s: AppState, ok: bool)
    requires s.selected.Some?
    ensures RenderDetail(s.selected).buyDisabled <==> HandleBuy(s, ok) == Reaction(s, [AlreadyPurchased])
  {
  }

  /** `selectedPost?.id || null`: the selected id, except that a falsy id
      (zero) is passed as null. */
  function SelectedPostId(s: AppState): (id: Option<int>)
    ensures id.Some? <==> s.selected.Some? && s.selected.value.id != 0
    ensures id.Some? ==> id.value == s.selected.value.id
  {
    match s.selected
    case None => None
    case Some(p) => if p.id != 0 then Some(p.id) else None
  }

  /** The list pane: every stored post in store order, the row highlighted
      whose id equals a non-zero selected id. */
  function RenderList(s: AppState): (v: CodeList.ListView)
    ensures v.Placeholder? <==> |s.posts| == 0
    ensures v.Rows? ==> |v.rows| == |s.posts|
    ensures v.Rows? ==> forall i :: 0 <= i < |s.posts| ==>
      && v.rows[i].onClick == s.posts[i]
      && (v.rows[i].highlighted <==>
            s.selected.Some? && s.selected.value.id != 0 && s.posts[i].id == s.selected.value.id)
  {
    CodeList.Render(s.posts, SelectedPostId(s))
  }

  /** Under the invariant the list highlights exactly the row of the
      selected post: ids are at least 1, so the null fallback never hides
      a selection. */
  lemma ListHighlightsSelection(s: AppState)
    requires Inv(s) && |s.posts| > 0
    ensures forall i :: 0 <= i < |s.posts| ==>
      (RenderList(s).rows[i].highlighted <==> s.selected == Some(s.posts[i]))
  {
  }

  /** The form as mounted: absent unless `showForm`, seeded from the
      selection in edit mode and empty otherwise
      (`initialData={editMode ? selectedPost : undefined}`). */
  function RenderForm(s: AppState): (f: Option<CodeForm.Fields>)
    ensures f.Some? <==> s.showForm
    ensures f.Some? && !s.editMode ==> f.value == CodeForm.Fields("", "", "", "", CodeForm.DefaultLanguage)
    ensures f.Some? && s.editMode ==> f.value == CodeForm.InitialFields(s.selected)
  {
    if s.showForm then Some(CodeForm.InitialFields(if s.editMode then s.selected else None)) else None
  }

  /** The header button opens an empty form for a new post, the detail
      pane's edit button opens the form seeded from the selection, and
      closing the form unmounts it. */
  lemma FormButtons(s: AppState, ok: bool)
    ensures RenderForm(Step(s, OpenNewForm, ok).state) == Some(CodeForm.InitialFields(None))
    ensures RenderForm(Step(s, OpenEditForm, ok).state) == Some(CodeForm.InitialFields(s.selected))
    ensures RenderForm(Step(s, CloseForm, ok).state).None?
  {
  }

  /** A submission adds a post when the form was opened for a new post and
      edits the selection when it was opened for editing. */
  lemma SubmitFollowsMode(s: AppState, d: Draft, ok: bool)
    ensures !s.editMode ==> Step(s, SubmitForm(d), ok) == HandleAddPost(s, d)
    ensures s.editMode ==> Step(s, SubmitForm(d), ok) == HandleEditPost(s, d)
  {
  }

  /** Clicking any row, sold or not, selects that row's post. */
  lemma ClickSelectsRow(s: AppState, i: int, ok: bool)
    requires 0 <= i < |s.posts|
    ensures RenderList(s).Rows?
    ensures Step(s, SelectPost(RenderList(s).rows[i].onClick), ok).state.selected == Some(s.posts[i])
    ensures OpDelivered(s, SelectPost(RenderList(s).rows[i].onClick))
  {
  }

  /** Opening the edit form on the selection and submitting it untouched
      leaves the store and the selection as they were and closes the form
      (the submission goes to the edit handler in edit mode). */
  lemma UntouchedEditKeepsStore(s: AppState)
    requires Inv(s) && s.showForm && s.editMode && s.selected.Some?
    requires var p := s.selected.value;
      p.title != "" && p.code != "" && p.description != "" && p.language != ""
    ensures RenderForm(s).Some?
    ensures CodeForm.Submit(RenderForm(s).value).Submitted?
    ensures HandleEditPost(s, CodeForm.Submit(RenderForm(s).value).draft).state
      == s.(showForm := false, editMode := false)
  {
    UntouchedEditFormSubmitsOwnFields(s);
    EditWithOwnFieldsKeepsStore(s);
  }

  /** The edit form seeded from the selection, submitted untouched, emits
      the selection's own fields. */
  lemma UntouchedEditFormSubmitsOwnFields(s: AppState)
    requires s.showForm && s.editMode && s.selected.Some?
    requires var p := s.selected.value;
      p.title != "" && p.code != "" && p.description != "" && p.language != ""
    ensures RenderForm(s) == Some(CodeForm.InitialFields(Some(s.selected.value)))
    ensures CodeForm.Submit(RenderForm(s).value) == CodeForm.Submitted(DraftOf(s.selected.value))
  {
    CodeForm.UntouchedEditRoundTrip(s.selected.value);
  }

  /** Editing the selection with its own fields changes only the form flags. */
  lemma EditWithOwnFieldsKeepsStore(s: AppState)
    requires Inv(s) && s.selected.Some?
    ensures HandleEditPost(s, DraftOf(s.selected.value)).state == s.(showForm := false, editMode := false)
  {
  }
}
