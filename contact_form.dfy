/**
 * The contact form of `src/pages/Contact.tsx`: four text fields kept in one
 * `formData` record, a change handler, and a submit handler that either
 * rejects the form with an error toast or accepts it and clears every field.
 * Unlike the quote form, every field is required, the message included.
 */
module ContactPage {

  datatype ContactData = ContactData(name: string, email: string, phone: string, message: string)

  /** The names of the fields, as the inputs' `name` attributes give them. */
  datatype Field = Name | Email | Phone | Message

  /** The toast a submit shows. */
  datatype Toast = FillAllFields | MessageSent

  /** The initial state and the state after an accepted submit. */
  const Blank := ContactData("", "", "", "")

  function Get(d: ContactData, f: Field): string {
    match f
    case Name => d.name
    case Email => d.email
    case Phone => d.phone
    case Message => d.message
  }

  /** `{...formData, [f]: v}`: field `f` becomes `v`, the other three stay. */
  function With(d: ContactData, f: Field, v: string): (r: ContactData)
    ensures Get(r, f) == v
    ensures forall g :: g != f ==> Get(r, g) == Get(d, g)
  {
    match f
    case Name => d.(name := v)
    case Email => d.(email := v)
    case Phone => d.(phone := v)
    case Message => d.(message := v)
  }

  /** The submit handler's test: none of the four strings is empty. */
  predicate Complete(d: ContactData) {
    d.name != "" && d.email != "" && d.phone != "" && d.message != ""
  }

  /** The form passes exactly when every field is non-empty. */
  lemma CompleteIffAllFilled(d: ContactData)
    ensures Complete(d) <==> forall f :: Get(d, f) != ""
  {
    if !Complete(d) {
      var f :| f in [Name, Email, Phone, Message] && Get(d, f) == "";
    }
  }

  /** The message is required here: an otherwise filled form without one is rejected. */
  lemma MessageRequired(d: ContactData)
    ensures !Complete(d.(message := ""))
  {
  }

  /** Only emptiness is tested: blank-looking values pass. */
  lemma OnlyEmptinessTested()
    ensures Complete(ContactData(" ", " ", " ", " "))
  {
  }

  /** The form after a submit: cleared when it passed, untouched when it did not. */
  function AfterSubmit(d: ContactData): ContactData {
    if Complete(d) then Blank else d
  }

  /** A submit straight after any submit is rejected. */
  lemma SecondSubmitRejected(d: ContactData)
    ensures !Complete(AfterSubmit(d))
    ensures !Complete(d) ==> AfterSubmit(d) == d
  {
  }

  /** Every field is empty in the blank form. */
  lemma BlankIsEmpty()
    ensures forall f :: Get(Blank, f) == ""
  {
  }

  /** Typing all four fields into any form makes it pass. */
  lemma FillingAllPasses(d: ContactData, name: string, email: string, phone: string, message: string)
    requires name != "" && email != "" && phone != "" && message != ""
    ensures Complete(With(With(With(With(d, Name, name), Email, email), Phone, phone), Message, message))
  {
    var d1 := With(d, Name, name);
    var d2 := With(d1, Email, email);
    var d3 := With(d2, Phone, phone);
    var d4 := With(d3, Message, message);
    assert Get(d4, Name) == name;
    assert Get(d4, Email) == email;
    assert Get(d4, Phone) == phone;
  }

  class ContactForm {
    var formData: ContactData

    constructor ()
      ensures formData == Blank
    {
      formData := Blank;
    }

    /** `handleSubmit`: reject and keep the form, or accept and clear it. */
    method HandleSubmit() returns (toast: Toast)
      modifies this
      ensures Complete(old(formData)) <==> toast == MessageSent
      ensures formData == AfterSubmit(old(formData))
    {
      if formData.name == "" || formData.email == "" || formData.phone == "" || formData.message == "" {
        return FillAllFields;
      }
      toast := MessageSent;
      formData := Blank;
    }

    /** `handleChange`: the input named `f` now holds `v`. */
    method HandleChange(f: Field, v: string)
      modifies this
      ensures formData == With(old(formData), f, v)
    {
      formData := With(formData, f, v);
    }
  }
}
