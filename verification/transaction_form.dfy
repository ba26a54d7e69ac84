/** `app/components/TransactionForm.tsx`: the four text fields, the rule
    that disables the Add button, and what a submit hands to `onAdd`.
    `Number(form.amount)` is a parameter. */
module TransactionForm {
  import opened Wrappers
  import opened Text
  import opened Transactions

  /** The form state: the raw text of each field. */
  datatype Form = Form(amount: string, category: string, date: string, notes: string)

  const EMPTY_FORM: Form := Form("", "", "", "")

  /** The `name` of the input a change event comes from. */
  datatype Field = AmountField | CategoryField | DateField | NotesField

  function Get(f: Form, field: Field): string {
    match field
    case AmountField => f.amount
    case CategoryField => f.category
    case DateField => f.date
    case NotesField => f.notes
  }

  /** `handleChange`: `{ ...form, [name]: value }`. */
  function HandleChange(f: Form, field: Field, value: string): (r: Form)
    ensures Get(r, field) == value
    ensures forall g :: g != field ==> Get(r, g) == Get(f, g)
  {
    match field
    case AmountField => f.(amount := value)
    case CategoryField => f.(category := value)
    case DateField => f.(date := value)
    case NotesField => f.(notes := value)
  }

  /** Changing a field to the value it has changes nothing, and a second
      change of the same field overrides the first. */
  lemma HandleChangeLaws(f: Form, field: Field, v: string, w: string)
    ensures HandleChange(f, field, Get(f, field)) == f
    ensures HandleChange(HandleChange(f, field, v), field, w) == HandleChange(f, field, w)
  {
  }

  /** `disabled`: some field is the empty string. The test is on the raw
      text, so white space alone counts as filled in. */
  predicate Disabled(f: Form) {
    !(f.amount != "" && f.category != "" && f.date != "" && f.notes != "")
  }

  lemma DisabledIffSomeFieldEmpty(f: Form)
    ensures Disabled(f) <==> exists g :: Get(f, g) == ""
  {
    if Disabled(f) {
      if f.amount == "" { assert Get(f, AmountField) == ""; }
      else if f.category == "" { assert Get(f, CategoryField) == ""; }
      else if f.date == "" { assert Get(f, DateField) == ""; }
      else { assert Get(f, NotesField) == ""; }
    }
  }

  /** Filling in all four fields, in any order, enables the button. */
  lemma FillingEveryFieldEnables(a: string, c: string, d: string, n: string)
    requires a != "" && c != "" && d != "" && n != ""
    ensures Disabled(EMPTY_FORM)
    ensures !Disabled(HandleChange(HandleChange(HandleChange(HandleChange(EMPTY_FORM, NotesField, n), DateField, d), CategoryField, c), AmountField, a))
  {
  }

  datatype Submitted = Submitted(sent: NewTransaction, form: Form)

  /** `handleSubmit`: the record passed to `onAdd` (amount converted,
      category and notes trimmed, date as typed), then the form cleared. */
  function HandleSubmit(f: Form, toNumber: string -> Amount): (r: Submitted)
    ensures r.form == EMPTY_FORM
    ensures r.sent.amount == toNumber(f.amount) && r.sent.date == f.date
    ensures r.sent.category == Trim(f.category) && r.sent.notes == Trim(f.notes)
    ensures Disabled(r.form)
    ensures Trim(r.sent.category) == r.sent.category && Trim(r.sent.notes) == r.sent.notes
  {
    TrimIdempotent(f.category);
    TrimIdempotent(f.notes);
    Submitted(NewTransaction(toNumber(f.amount), Trim(f.category), f.date, Trim(f.notes)), EMPTY_FORM)
  }

  /** A submit as the page allows it: the disabled Add button submits
      nothing. */
  function Submit(f: Form, toNumber: string -> Amount): (r: Option<Submitted>)
    ensures r.Some? <==> !Disabled(f)
  {
    if Disabled(f) then None else Some(HandleSubmit(f, toNumber))
  }

  /** After a submit the form is empty again, so the button is disabled
      until every field is filled in anew. */
  lemma SubmitDisablesForm(f: Form, toNumber: string -> Amount)
    ensures Disabled(HandleSubmit(f, toNumber).form)
  {
  }

  /** The record sent has no surrounding white space in its category or
      notes, and its category groups exactly as the typed text would. */
  lemma SubmittedTextIsTrimmed(f: Form, toNumber: string -> Amount)
    ensures Trim(HandleSubmit(f, toNumber).sent.category) == HandleSubmit(f, toNumber).sent.category
    ensures Trim(HandleSubmit(f, toNumber).sent.notes) == HandleSubmit(f, toNumber).sent.notes
    ensures !AllSpace(f.category) ==>
      CategoryKey(HandleSubmit(f, toNumber).sent.category) == CategoryKey(f.category)
  {
    TrimIdempotent(f.category);
    TrimIdempotent(f.notes);
    TrimEmptyIffAllSpace(f.category);
  }

  /** A category of white space only enables the button but is sent as the
      empty string, which the list and the charts then file under
      "Uncategorized"; the typed text itself would have keyed as `""`. */
  lemma WhitespaceCategoryIsSentEmpty(f: Form, toNumber: string -> Amount)
    requires f.category != "" && AllSpace(f.category)
    requires f.amount != "" && f.date != "" && f.notes != ""
    ensures Submit(f, toNumber).Some?
    ensures Submit(f, toNumber).value.sent.category == ""
    ensures CategoryKey(Submit(f, toNumber).value.sent.category) == UNCATEGORIZED
    ensures CategoryKey(f.category) == ""
  {
    TrimEmptyIffAllSpace(f.category);
    CategoryKeyCases(f.category);
  }

  /** Notes of white space only pass the check and are sent empty. */
  lemma WhitespaceNotesAreSentEmpty(f: Form, toNumber: string -> Amount)
    requires !Disabled(f) && AllSpace(f.notes)
    ensures Submit(f, toNumber).value.sent.notes == ""
  {
    TrimEmptyIffAllSpace(f.notes);
  }
}
