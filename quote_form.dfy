/**
 * The quote request form of `src/pages/Quote.tsx`: six text fields kept in
 * one `formData` record, a change handler for the text inputs, a change
 * handler for the service drop-down, and a submit handler that either
 * rejects the form with an error toast or accepts it and clears every field.
 * Nothing is sent anywhere: acceptance only shows a success toast.
 */
module QuotePage {

  datatype QuoteData = QuoteData(name: string, email: string, phone: string,
                                 location: string, service: string, message: string)

  /** The names of the fields, as the inputs' `name` attributes give them. */
  datatype Field = Name | Email | Phone | Location | Service | Message

  /** The toast a submit shows. */
  datatype Toast = FillRequiredFields | QuoteSubmitted

  /** The initial state and the state after an accepted submit. */
  const Blank := QuoteData("", "", "", "", "", "")

  /** The entries of the service drop-down. */
  const ServiceOptions: seq<string> := [
    "Borehole Drilling (Manual)",
    "Borehole Drilling (Machine)",
    "Industrial Borehole",
    "Swimming Pool Construction",
    "Water Fountain Installation",
    "Water Treatment System",
    "Pump Installation & Repair",
    "Borehole Rehabilitation",
    "Multiple Services"]

  function Get(d: QuoteData, f: Field): string {
    match f
    case Name => d.name
    case Email => d.email
    case Phone => d.phone
    case Location => d.location
    case Service => d.service
    case Message => d.message
  }

  /** `{...formData, [f]: v}`: field `f` becomes `v`, the other five stay. */
  function With(d: QuoteData, f: Field, v: string): (r: QuoteData)
    ensures Get(r, f) == v
    ensures forall g :: g != f ==> Get(r, g) == Get(d, g)
  {
    match f
    case Name => d.(name := v)
    case Email => d.(email := v)
    case Phone => d.(phone := v)
    case Location => d.(location := v)
    case Service => d.(service := v)
    case Message => d.(message := v)
  }

  /** The fields the submit handler insists on; the message is optional. */
  predicate Required(f: Field) {
    f != Message
  }

  /** The submit handler's test: none of the five required strings is empty. */
  predicate Complete(d: QuoteData) {
    d.name != "" && d.email != "" && d.phone != "" && d.location != "" && d.service != ""
  }

  /** The form passes exactly when every required field is non-empty. */
  lemma CompleteIffRequiredFilled(d: QuoteData)
    ensures Complete(d) <==> forall f :: Required(f) ==> Get(d, f) != ""
  {
    if !Complete(d) {
      var f :| f in [Name, Email, Phone, Location, Service] && Get(d, f) == "";
      assert Required(f);
    }
  }

  /** The message plays no part in the decision. */
  lemma MessageOptional(d: QuoteData, m: string)
    ensures Complete(d.(message := m)) == Complete(d)
  {
  }

  /** Only emptiness is tested: blanks pass, and so does a service outside the drop-down. */
  lemma OnlyEmptinessTested()
    ensures Complete(QuoteData(" ", " ", " ", " ", "x", ""))
    ensures "x" !in ServiceOptions
  {
  }

  /** The form after a submit: cleared when it passed, untouched when it did not. */
  function AfterSubmit(d: QuoteData): QuoteData {
    if Complete(d) then Blank else d
  }

  /** A submit straight after any submit is rejected. */
  lemma SecondSubmitRejected(d: QuoteData)
    ensures !Complete(AfterSubmit(d))
    ensures !Complete(d) ==> AfterSubmit(d) == d
  {
  }

  /** Every field is empty in the blank form, so it never passes. */
  lemma BlankRejected()
    ensures forall f :: Get(Blank, f) == ""
    ensures !Complete(Blank)
  {
  }

  /** Typing the five required fields into any form, in this order, makes it pass. */
  lemma FillingRequiredPasses(d: QuoteData, name: string, email: string, phone: string, location: string, service: string)
    requires name != "" && email != "" && phone != "" && location != "" && service != ""
    ensures Complete(With(With(With(With(With(d, Name, name), Email, email), Phone, phone), Location, location), Service, service))
  {
    var d1 := With(d, Name, name);
    var d2 := With(d1, Email, email);
    var d3 := With(d2, Phone, phone);
    var d4 := With(d3, Location, location);
    var d5 := With(d4, Service, service);
    assert Get(d5, Name) == name;
    assert Get(d5, Email) == email;
    assert Get(d5, Phone) == phone;
    assert Get(d5, Location) == location;
  }

  class QuoteForm {
    var formData: QuoteData

    constructor ()
      ensures formData == Blank
    {
      formData := Blank;
    }

    /** `handleSubmit`: reject and keep the form, or accept and clear it. */
    method HandleSubmit() returns (toast: Toast)
      modifies this
      ensures Complete(old(formData)) <==> toast == QuoteSubmitted
      ensures formData == AfterSubmit(old(formData))
    {
      if formData.name == "" || formData.email == "" || formData.phone == "" || formData.location == "" || formData.service == "" {
        return FillRequiredFields;
      }
      toast := QuoteSubmitted;
      formData := Blank;
    }

    /** `handleChange`: the input named `f` now holds `v`. */
    method HandleChange(f: Field, v: string)
      modifies this
      ensures formData == With(old(formData), f, v)
    {
      formData := With(formData, f, v);
    }

    /** `handleSelectChange`: the service drop-down now holds `v`. */
    method HandleSelectChange(v: string)
      modifies this
      ensures formData == With(old(formData), Service, v)
    {
      formData := formData.(service := v);
    }
  }
}
