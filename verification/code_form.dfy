/** The listing editor form of src/components/CodeForm.tsx: the five text
    fields it holds, how they are seeded, and what submitting them does. */
module CodeForm {
  import opened Wrappers
  import opened NumberText
  import opened Listing

  /** The form's local state; the price is kept as the text of its input. */
  datatype Fields = Fields(
    title: string,
    price: string,
    code: string,
    description: string,
    language: string)

  /** The language selected when nothing else is given. */
  const DefaultLanguage: string := "JavaScript"

  /** Either the form refuses to submit (and alerts that every field must be
      filled in) or it hands a draft to its `onSubmit` callback. */
  datatype SubmitResult = MissingField | Submitted(draft: Draft)

  /** The `useState` seeds: each field falls back to its default when the
      seed value is falsy, so an empty language seeds the default too. */
  function InitialFields(initialData: Option<CodePost>): (f: Fields)
    ensures initialData.None? ==> f == Fields("", "", "", "", DefaultLanguage)
    ensures initialData.Some? ==>
      var p := initialData.value;
      && f.title == p.title && f.code == p.code && f.description == p.description
      && f.price == NumberToString(p.price)
      && f.language == (if p.language == "" then DefaultLanguage else p.language)
  {
    match initialData
    case None => Fields("", "", "", "", DefaultLanguage)
    case Some(p) =>
      Fields(p.title, NumberToString(p.price), p.code, p.description,
             if p.language != "" then p.language else DefaultLanguage)
  }

  /** `handleSubmit`: only emptiness of title, price text, code and
      description is checked; the language is never checked, and the price
      text goes through `parseInt`. */
  function Submit(f: Fields): (r: SubmitResult)
    ensures r.MissingField? <==> (f.title == "" || f.price == "" || f.code == "" || f.description == "")
    ensures r.Submitted? ==> r.draft == Draft(f.title, ParseInt(f.price), f.code, f.description, f.language)
  {
    if f.title == "" || f.price == "" || f.code == "" || f.description == "" then MissingField
    else Submitted(Draft(f.title, ParseInt(f.price), f.code, f.description, f.language))
  }

  /** A field holding only white space is not empty and passes the check. */
  lemma WhitespaceFieldsPass(language: string)
    ensures Submit(Fields(" ", " ", " ", " ", language)) == Submitted(Draft(" ", NaN, " ", " ", language))
  {
  }

  /** Opening the form on a post and submitting it untouched hands back that
      post's own fields, provided none of the checked fields is empty and the
      language is set (an empty language comes back as the default). */
  lemma UntouchedEditRoundTrip(p: CodePost)
    requires p.title != "" && p.code != "" && p.description != ""
    ensures p.language != "" ==> Submit(InitialFields(Some(p))) == Submitted(DraftOf(p))
    ensures p.language == "" ==> Submit(InitialFields(Some(p))) == Submitted(DraftOf(p).(language := DefaultLanguage))
  {
    ParseIntInvertsToString(p.price);
  }
}
