# Code market: listing lifecycle model

A Dafny model of the core of a small single-page "code market". Users list
code snippets for sale, edit and delete them, and buy them in a simulated
purchase that marks a listing sold. All state is in memory.

The model covers four pieces of the source:

- **The root component** (`src/App.tsx`). It owns the post list, the
  selected post and the two form flags (`showForm`, `editMode`). It also holds
  the handlers for select, add, edit, delete and buy. Here the root is a
  reducer: `App.Step(state, op, ok)` returns the next state and the dialog
  boxes opened along the way.
  - The answer to the blocking `window.confirm` is the boolean input `ok`.
  - Every confirm box and every `window.alert` becomes a `Dialog` value in
    the output, in order.
  - The render-time decisions of the root are modelled in `AppView`. They
    cover the detail pane, the selected id handed to the list, and the form
    being mounted and seeded.
- **The editor form** (`src/components/CodeForm.tsx`). This covers how its
  fields are seeded and what submitting does: it either refuses with the
  "fill in every field" alert or emits a draft.
- **A list row** (`src/components/CodeItem.tsx`). This covers the sold badge,
  the price label, the muted styling, whether the description shows, and the
  two-line code preview with its "...".
- **The list** (`src/components/CodeList.tsx`). It shows a placeholder for an
  empty store, or one row per post in store order. A row is highlighted
  exactly when its id equals the selected id.

Some choices follow the source's types closely:

- `isSoldOut?: boolean` is an optional property. It is modelled as
  `Option<bool>`. "Sold" means its JavaScript truthiness: `Some(true)`.
- The price is a JavaScript number produced by `parseInt`, so it can be NaN
  (`parseInt(".5")` is NaN). It is modelled as `Num = Finite(int) | NaN`.
- `parseInt` is modelled as ECMA-262 defines the global `parseInt` with no
  radix argument:
  - skip leading StrWhiteSpaceChar code points;
  - read an optional sign;
  - switch to radix 16 after a `0x`/`0X` prefix;
  - read the longest run of digits;
  - return NaN if that run is empty.
- `Number.prototype.toString` is modelled as the plain decimal numeral. It is
  used to seed the edit form's price field. `parseInt` is proved to undo
  it: `parseInt(x.toString())` is x for every price. The converse fails, since
  `parseInt("1.5")` is 1, which prints as "1".

The main results:

- Every delivered event keeps an invariant `App.Inv`. Ids are pairwise
  distinct and at least 1. A selected post equals the stored post with its
  id. A selection event is delivered when it carries a post stored at that
  moment, which is what every list row passes.
- Edits, confirmed deletes and confirmed purchases each touch exactly one
  stored post (`s.posts[k := …]`, `s.posts[..k] + s.posts[k+1..]`).
- No delivered event turns a sold post back into an unsold one.
- The confirm answer matters only when a confirm box was shown. Buying twice
  ends where buying once does.
- `split("\n")` and `join("\n")` are inverses. The row preview is the
  longest prefix of the code that holds at most one line feed.
- Submitting, untouched, the edit form of a post whose title, code,
  description and language are non-empty leaves the store unchanged.

Three behaviours of the code deserve a note, because a reader might expect
otherwise:

- **Ids can be reused.** `handleAddPost` gives a new post `max(ids) + 1`
  (src/App.tsx:42). So after the post with the largest id is deleted, the
  next new post gets that same id. `AppRun.DeletedMaxIdIsReused` exhibits
  this with a sold post whose id comes back on an unsold post. Sold-flag
  monotonicity is therefore stated per event
  (`AppInvariants.StepNeverUnsells`). It is stated per run only for runs
  that never confirm the delete of a sold selection
  (`AppRun.RunKeepsSoldIds`).
- **Selecting does not check membership.** `handleSelectPost` stores
  whatever post it is given (src/App.tsx:35-37). The model does the same.
  The invariant lemmas assume what the list delivers: a post from the
  current store (`App.OpDelivered`).
- **An empty language becomes the default.** The form seeds its language
  with `initialData?.language || 'JavaScript'`
  (src/components/CodeForm.tsx:16), so a listing whose language is empty
  opens as "JavaScript".

## Model

| member | source | states |
|---|---|---|
| NumberText.TrimStart | src/components/CodeForm.tsx:29 | `parseInt` first drops a prefix made only of white space, and what remains does not start with white space |
| NumberText.DigitPrefix | src/components/CodeForm.tsx:29 | the digits read are the longest prefix of digits: the next character, if any, is not a digit |
| NumberText.Decimal | src/components/CodeForm.tsx:13 | the decimal numeral is non-empty, all digits, and has no leading zero |
| NumberText.ParseInt | src/components/CodeForm.tsx:29 | `parseInt` gives a number exactly when, after white space and an optional sign, a decimal digit follows (or, behind a `0x` prefix, a hexadecimal digit); without a minus sign the number is not negative |
| NumberText.NumberToString | src/components/CodeForm.tsx:13 | the string form of a price is never empty, so the empty-string fallback of the price seed never applies |
| NumberText.DecimalValue | src/components/CodeForm.tsx:13 | the numeral printed for n has the value n |
| NumberText.ParseDecimalNumeral | src/components/CodeForm.tsx:29 | a numeral without leading zeros has no hexadecimal prefix and is read whole in radix 10 |
| NumberText.ParseIntInvertsToString | src/components/CodeForm.tsx:13-29 | `parseInt(x.toString())` gives back x for every price, NaN included |
| NumberText.ParseIntStopsAtPoint | src/components/CodeForm.tsx:29 | a price typed as "1.5" is stored as 1: the integer read ends at the decimal point |
| NumberText.ParseIntNeedsLeadingDigit | src/components/CodeForm.tsx:29 | a price typed as ".5" has no leading digit and is stored as NaN |
| Lines.Split | src/components/CodeItem.tsx:57 | `split("\n")` gives one more piece than there are line feeds, and no piece contains a line feed |
| Lines.Join | src/components/CodeItem.tsx:57 | the joined text begins with the first piece, followed by a line feed when there is a second piece (Lines.JoinSplit and Lines.SplitJoin make it the inverse of Lines.Split) |
| Lines.JoinSplit | src/components/CodeItem.tsx:57 | joining the pieces of a split with "\n" gives back the original text |
| Lines.SplitJoin | src/components/CodeItem.tsx:57 | splitting the join of line-feed-free pieces gives back the pieces |
| Lines.JoinSplitsAt | src/components/CodeItem.tsx:57 | the join of a list is the join of its first k pieces, a line feed, and the join of the rest |
| Listing.DraftOf | src/App.tsx:6-15 | the draft of a post carries exactly its five author-supplied fields |
| Listing.IndexOf | src/App.tsx:61 | the position found is the first post with the id, or -1 exactly when no post has it |
| Listing.LookupOwnId | src/App.tsx:61 | with distinct ids every post is the one found under its own id |
| Listing.MaxId | src/App.tsx:42 | `Math.max` over the ids bounds every id and is attained by some post |
| CodeForm.InitialFields | src/components/CodeForm.tsx:12-16 | with no initial data the fields are empty and the language is "JavaScript"; otherwise each field is copied, the price becomes its string form, and an empty language falls back to "JavaScript" |
| CodeForm.Submit | src/components/CodeForm.tsx:19-34 | the submission is refused exactly when title, price text, code or description is empty, and the language is never checked; otherwise the draft is the fields with the price parsed, and has no id or createdAt |
| CodeForm.WhitespaceFieldsPass | src/components/CodeForm.tsx:22 | fields holding only a space pass the check (the price then parses to NaN) |
| CodeForm.UntouchedEditRoundTrip | src/components/CodeForm.tsx:12-33 | a form seeded from a post and submitted untouched emits that post's own fields, given non-empty checked fields; an empty language comes back as "JavaScript" |
| CodeItem.PreviewIsFirstTwoLines | src/components/CodeItem.tsx:57 | the preview is a prefix of the code: all of it when there are fewer than two line feeds, otherwise everything before the second line feed |
| CodeItem.HasMoreLines | src/components/CodeItem.tsx:59 | "..." follows the preview exactly when the code has more than two lines |
| CodeItem.PreviewText | src/components/CodeItem.tsx:56-60 | the code box shows the preview, a line feed, and "..." only when lines were cut; a short code shows whole |
| CodeItem.Render | src/components/CodeItem.tsx:9-49 | the badge, the dimmed colours and the "SOLD OUT" price label appear exactly when the post is sold; otherwise the price is shown; the description paragraph appears exactly when the description is non-empty; a click reports the post whether or not it is sold |
| CodeItem.AbsentFlagIsUnsold | src/components/CodeItem.tsx:10 | a post without an `isSoldOut` flag renders exactly as one whose flag is false |
| CodeList.Render | src/components/CodeList.tsx:10-29 | an empty store shows only the placeholder; otherwise there is one row per post in store order, highlighted exactly when its id equals the selected id |
| CodeList.RowsFollowStore | src/components/CodeList.tsx:18-25 | row i shows post i and reports post i when clicked |
| CodeList.NullSelectsNoRow | src/components/CodeList.tsx:23 | a null selected id highlights no row |
| CodeList.AtMostOneHighlighted | src/components/CodeList.tsx:23 | with distinct ids at most one row is highlighted |
| App.NextId | src/App.tsx:42 | a new id is 1 for an empty store, otherwise one more than an existing id and larger than every id, so it differs from all of them |
| App.Initial | src/App.tsx:18-33 | the page starts with one unsold post with id 1, which is selected, and no form open |
| App.HandleSelectPost | src/App.tsx:35-37 | selecting replaces only the selection and opens no box |
| App.HandleAddPost | src/App.tsx:39-49 | the new post goes to the front with id NextId (one more than the largest id, or 1 for an empty store), which no stored post holds, the draft's fields, createdAt "방금 전" and an unsold flag; the old posts follow unchanged and in order; the new post is selected and the form closes; editMode is untouched |
| App.HandleEditPost | src/App.tsx:51-65 | with no selection nothing changes; otherwise the posts with the selected id become the new record, which keeps id, createdAt and isSoldOut and takes the rest from the draft; the other posts are unchanged, the record is selected, and both form flags clear |
| App.RemoveId | src/App.tsx:71 | the filtered store holds exactly the posts whose id differs from the given one |
| App.RemoveIdAppend | src/App.tsx:71 | filtering distributes over concatenation, so the kept posts stay in store order with their multiplicity; with the membership clause of App.RemoveId this fixes the filtered store |
| App.HandleDeletePost | src/App.tsx:67-74 | with no selection nothing happens; a declined confirm changes nothing; an accepted one leaves the store filtered by RemoveId (exactly the posts with another id, in store order), clears the selection and announces the title |
| App.HandleBuy | src/App.tsx:77-99 | with no selection nothing happens; a sold selection is refused with the "already purchased" box and no confirm; a declined confirm changes nothing; an accepted one sets the flag on the posts with the selected id, changes nothing else, mirrors the flag into the selection and announces the title |
| App.Step | src/App.tsx:109-190 | only a delete or a buy opens a box; only a submission or a confirmed delete or buy can change the store; the two form buttons open the form in their mode; closing the form clears both flags; a submission closes it unless an edit finds no selection, which changes nothing; closing the detail clears the selection; a row click selects its post |
| AppInvariants.SelectedIndex | src/App.tsx:35-37 | under the invariant the selection is stored at exactly one position, and no other post has its id |
| AppInvariants.RemoveIdAt | src/App.tsx:71 | filtering out an id held by one post removes exactly that post and keeps the rest in order |
| AppInvariants.AddKeepsInv | src/App.tsx:39-49 | adding keeps ids distinct and at least 1, and the new selection is the stored new post |
| AppInvariants.EditReplacesExactlyOne | src/App.tsx:61 | an edit replaces exactly the selected post, in place |
| AppInvariants.EditKeepsInv | src/App.tsx:51-65 | editing keeps the invariant |
| AppInvariants.DeleteRemovesExactlyOne | src/App.tsx:67-74 | a confirmed delete removes exactly the selected post, keeps the others in order, and shortens the store by one |
| AppInvariants.DeleteKeepsInv | src/App.tsx:67-74 | deleting keeps the invariant |
| AppInvariants.BuyFlipsExactlyOne | src/App.tsx:87-95 | a confirmed purchase sets the flag on exactly the selected post, and the new selection equals that stored post |
| AppInvariants.BuyKeepsInv | src/App.tsx:77-99 | buying keeps the invariant |
| AppInvariants.StepKeepsInv | src/App.tsx:35-99 | every delivered event keeps ids distinct and at least 1 and keeps the selection equal to the stored post with its id |
| AppInvariants.AddNeverUnsells | src/App.tsx:44 | adding leaves every sold id sold; only the fresh post starts unsold |
| AppInvariants.EditNeverUnsells | src/App.tsx:58 | an edit copies the flag, so a sold post stays sold |
| AppInvariants.DeleteNeverUnsells | src/App.tsx:71 | posts left after a delete keep their flags |
| AppInvariants.BuyNeverUnsells | src/App.tsx:89 | buying only ever sets the flag to true |
| AppInvariants.StepNeverUnsells | src/App.tsx:35-99 | no delivered event turns a stored or selected sold post with a given id into an unsold one |
| AppInvariants.ViewEventsMoveOnlyFlags | src/App.tsx:110-188 | selecting sets the selection and closing the detail pane clears it; "add" opens the form with editMode false, "edit" with editMode true, closing clears both; nothing else changes |
| AppInvariants.ConfirmComesFirst | src/App.tsx:69-97 | a confirm box, when one opens, is the first box of the event |
| AppInvariants.AnswerMattersOnlyWhenAsked | src/App.tsx:69-85 | an event that opens no confirm box does the same whatever the answer would have been |
| AppInvariants.BuyTwiceSameAsOnce | src/App.tsx:78-95 | a second confirmed purchase changes nothing and only shows the "already purchased" box |
| AppView.RenderDetail | src/App.tsx:133-180 | with no selection the pane prompts for one; otherwise the SOLD OUT stamp, the "구매 완료" price label, the muted code and the disabled "구매 완료된 코드" button appear exactly when the post is sold |
| AppView.BuyDisabledExactlyWhenRefused | src/App.tsx:165-170 | the purchase button is disabled exactly when pressing it would be refused as already purchased |
| AppView.SelectedPostId | src/App.tsx:127 | the list receives the selected id, except that a falsy id 0 is passed as null |
| AppView.RenderList | src/App.tsx:124-128 | the list shows the placeholder exactly for an empty store; otherwise row i reports post i and is highlighted exactly when a selection with a non-zero id shares that post's id |
| AppView.ListHighlightsSelection | src/App.tsx:124-128 | under the invariant the list highlights exactly the row of the selected post |
| AppView.RenderForm | src/App.tsx:186-191 | the form is mounted exactly when showForm holds; outside edit mode it is the empty form, in edit mode it is CodeForm seeded from the selection (`initialData={editMode ? selectedPost : undefined}`) |
| AppView.FormButtons | src/App.tsx:110-190 | "add" mounts an empty form, "edit" mounts one seeded from the selection, closing unmounts it |
| AppView.SubmitFollowsMode | src/App.tsx:189 | a submission adds in add mode and edits in edit mode |
| AppView.ClickSelectsRow | src/components/CodeItem.tsx:14 | clicking any row, sold or not, selects that row's stored post and is a delivered event |
| AppView.UntouchedEditKeepsStore | src/App.tsx:51-64 | the edit form opened on the selection, submitted untouched to the edit handler, leaves store and selection as they were and closes the form (that edit mode routes to the edit handler is AppView.SubmitFollowsMode) |
| AppView.UntouchedEditFormSubmitsOwnFields | src/components/CodeForm.tsx:12-33 | the edit form shown for the selection is seeded from it, and submitting it untouched emits exactly the selection's own fields |
| AppView.EditWithOwnFieldsKeepsStore | src/App.tsx:51-64 | editing the selection with a draft of its own fields changes only the two form flags |
| AppRun.Run | src/App.tsx:35-99 | a run of no events changes nothing, and a run collects at least the boxes of its first event |
| AppRun.RunAppend | src/App.tsx:35-99 | running two stretches of events in turn equals running them together: the state carries over and the boxes are concatenated in order |
| AppRun.InitialInv | src/App.tsx:18-33 | the seeded page, one unsold post with id 1 selected, satisfies the invariant |
| AppRun.RunKeepsInv | src/App.tsx:35-99 | every delivered sequence of events keeps the invariant |
| AppRun.DeleteUnsoldKeepsSoldIds | src/App.tsx:67-74 | under the invariant, a confirmed delete of an unsold selection keeps every sold id stored and sold |
| AppRun.StepKeepsSoldIds | src/App.tsx:58-89 | every event other than a confirmed delete of a sold selection keeps each sold id stored and sold |
| AppRun.RunKeepsSoldIds | src/App.tsx:58-89 | along a delivered run that never confirms the delete of a sold selection, no sold post disappears or becomes unsold |
| AppRun.DeletedMaxIdIsReused | src/App.tsx:42-71 | deleting the sold post with the largest id and then adding gives the new, unsold post that same id |
| AppRun.CreateBuyDeclineScenario | src/App.tsx:39-99 | adding "B" to a store holding only "A" (id 1) gives it id 2 at the front, selected; a confirmed buy marks only it sold and announces "B"; a declined delete then changes nothing |

## Left out

- `Number.prototype.toLocaleString` (src/App.tsx:148, src/components/CodeItem.tsx:48) is locale-dependent library code. The shown amount is the uninterpreted label `Amount(price)`, standing for the formatted price followed by "원".
- JavaScript numbers are IEEE doubles. The model uses unbounded integers. So it leaves out rounding of very long digit strings in `parseInt`, `Infinity`, and the exponent form `toString` uses from 10^21 on. It also folds negative zero into zero (see the next line).
- Negative zero is not modelled. `parseInt("-0")` is -0, and `toLocaleString` shows it as "-0", so a price typed "-0" is labelled "-0원" in the source. The model stores 0, whose label `Amount(Finite(0))` stands for "0원".
- NumberText.ParseIntInvertsToString: holds for the plain decimal numerals of the model; with doubles it would need the price to be below 10^21 in magnitude.
- The browser's sanitising of the `type="number"` price input is left out. The field holds arbitrary text, and typing into any field is a choice of arbitrary `Fields` values.
- `window.confirm` and `window.alert` are host dialogs. The user's answer is an input. The dialog text is reduced to its kind and the title it names.
- Presentation is left out: JSX structure, Tailwind classes, the form's heading and button labels (src/components/CodeForm.tsx:43, 149), the static "결제 후 확인 가능" overlay, and the footer post count.
- React `useState` scheduling is left out. Each handler is one atomic snapshot transition.
- `Math.max(...ids)` can fail on a very large spread. That limit is not modelled.
- The cancel button only calls `onClose`. It is modelled through the root's `CloseForm` event.
- AppRun.RunKeepsSoldIds: covers only runs that never confirm the delete of a sold selection. Such a delete removes the sold id, and the source reuses the largest id after a delete, so "a sold id stays sold" fails across a delete followed by an add (see AppRun.DeletedMaxIdIsReused).
- AppInvariants.StepNeverUnsells: assumes the event is delivered (a selection carries a stored post). `handleSelectPost` itself accepts any record.
