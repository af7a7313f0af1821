/** One row of the listing list, src/components/CodeItem.tsx: which badge,
    price label and text styling it shows, and the two-line code preview. */
module CodeItem {
  import opened Wrappers
  import opened NumberText
  import opened Lines
  import opened Listing

  /** A price as shown: a fixed text, or `Amount(p)` standing for
      `p.toLocaleString() + "원"` (the locale formatting is not modelled). */
  datatype PriceLabel = Fixed(text: string) | Amount(price: Num)

  const SoldOutLabel: string := "SOLD OUT"
  const SoldBadgeText: string := "구매 완료한 코드"

  /** The decisions the row's markup makes.  `description` is `None` when
      the paragraph is not rendered at all; `muted` is the dimmed text
      colour of a sold post; `onClick` is the post the row reports when it
      is clicked. */
  datatype ItemView = ItemView(
    highlighted: bool,
    badge: Option<string>,
    title: string,
    description: Option<string>,
    muted: bool,
    language: string,
    priceLabel: PriceLabel,
    preview: string,
    ellipsis: bool,
    onClick: CodePost)

  /** `code.split("\n").slice(0, 2).join("\n")`. */
  function Preview(code: string): string {
    var lines := Split(code);
    Join(lines[..if |lines| < 2 then |lines| else 2])
  }

  /** The preview is the longest prefix of the code that holds at most one
      line feed: the whole code when it has fewer than three lines, otherwise
      everything before the second line feed. */
  lemma PreviewIsFirstTwoLines(code: string)
    ensures |Preview(code)| <= |code| && Preview(code) == code[..|Preview(code)|]
    ensures NewlineCount(code) < 2 ==> Preview(code) == code
    ensures NewlineCount(code) >= 2 ==>
      (NewlineCount(Preview(code)) == 1 && |Preview(code)| < |code| && code[|Preview(code)|] == '\n')
  {
    var lines := Split(code);
    JoinSplit(code);
    if |lines| > 2 {
      var shown := lines[..2];
      JoinSplitsAt(lines, 2);
      SplitJoin(shown);
    } else {
      assert lines[..|lines|] == lines;
    }
  }

  /** `code.split("\n").length > 2`: whether "..." follows the preview. */
  function HasMoreLines(code: string): (b: bool)
    ensures b <==> NewlineCount(code) >= 2
  {
    |Split(code)| > 2
  }

  /** The text inside the row's `<code>` element: the preview, a line feed,
      and "..." only when lines were cut (a `false` child renders nothing). */
  function PreviewText(code: string): (t: string)
    ensures HasMoreLines(code) ==> t == Preview(code) + "\n..."
    ensures !HasMoreLines(code) ==> t == code + "\n"
  {
    PreviewIsFirstTwoLines(code);
    Preview(code) + "\n" + (if HasMoreLines(code) then "..." else "")
  }

  /** `CodeItem({ post, onSelectPost, isSelected })`. */
  function Render(post: CodePost, isSelected: bool): (v: ItemView)
    ensures v.highlighted == isSelected
    ensures v.badge.Some? <==> IsSold(post)
    ensures v.badge.Some? ==> v.badge.value == SoldBadgeText
    ensures v.priceLabel == Fixed(SoldOutLabel) <==> IsSold(post)
    ensures !IsSold(post) ==> v.priceLabel == Amount(post.price)
    ensures v.description.Some? <==> post.description != ""
    ensures v.description.Some? ==> v.description.value == post.description
    ensures v.muted <==> IsSold(post)
    ensures v.preview == PreviewText(post.code)
    ensures v.ellipsis <==> NewlineCount(post.code) >= 2
    ensures v.onClick == post
  {
    var isSoldOut := IsSold(post);
    ItemView(
      highlighted := isSelected,
      badge := if isSoldOut then Some(SoldBadgeText) else None,
      title := post.title,
      description := if post.description != "" then Some(post.description) else None,
      muted := isSoldOut,
      language := post.language,
      priceLabel := if isSoldOut then Fixed(SoldOutLabel) else Amount(post.price),
      preview := PreviewText(post.code),
      ellipsis := HasMoreLines(post.code),
      onClick := post)
  }

  /** An absent sold flag renders exactly like an explicit `false`. */
  lemma AbsentFlagIsUnsold(post: CodePost, isSelected: bool)
    requires post.isSoldOut == None
    ensures Render(post, isSelected) == Render(post.(isSoldOut := Some(false)), isSelected).(onClick := post)
  {
  }
}
