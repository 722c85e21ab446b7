/** The "add your university" dialog (`AddUniversityModal`): four text
    inputs, a submit that refuses an incomplete form with an error toast and
    otherwise thanks the user, clears the form and closes. No request is
    made; the toast shown is returned. */
module AddUniversityModal {

  datatype Application = Application(name: string, city: string, website: string, contactPerson: string)

  datatype Field = Name | City | Website | ContactPerson

  datatype Toast = Toast(title: string, description: string, destructive: bool)

  const EmptyApplication: Application := Application("", "", "", "")

  const MissingFieldsToast: Toast := Toast("Ошибка", "Пожалуйста, заполните все поля", true)
  const AcceptedToast: Toast := Toast("Заявка принята!", "Мы свяжемся с вами в ближайшее время.", false)

  function Get(form: Application, field: Field): string {
    match field
    case Name => form.name
    case City => form.city
    case Website => form.website
    case ContactPerson => form.contactPerson
  }

  /** The validation of `handleSubmit`: some input is empty. Nothing is
      trimmed, so white space counts as filled in. */
  predicate Incomplete(form: Application) {
    form.name == [] || form.city == [] || form.website == [] || form.contactPerson == []
  }

  lemma IncompleteIffSomeEmpty(form: Application)
    ensures Incomplete(form) <==> exists field :: Get(form, field) == []
  {
    if Incomplete(form) {
      if form.name == [] { assert Get(form, Name) == []; }
      else if form.city == [] { assert Get(form, City) == []; }
      else if form.website == [] { assert Get(form, Website) == []; }
      else { assert Get(form, ContactPerson) == []; }
    }
  }

  /** `handleChange(field, value)`. */
  function Changed(form: Application, field: Field, value: string): Application {
    match field
    case Name => form.(name := value)
    case City => form.(city := value)
    case Website => form.(website := value)
    case ContactPerson => form.(contactPerson := value)
  }

  /** A change sets the named input and leaves every other one alone. */
  lemma ChangedOnlyField(form: Application, field: Field, value: string)
    ensures Get(Changed(form, field, value), field) == value
    ensures forall other :: other != field ==> Get(Changed(form, field, value), other) == Get(form, other)
  {
  }

  class Dialog {
    var open: bool
    var formData: Application

    /** The dialog starts closed with every input empty. */
    constructor ()
      ensures !open && formData == EmptyApplication
    {
      open := false;
      formData := EmptyApplication;
    }

    /** `onOpenChange`: the trigger opens the dialog, dismissing closes it. */
    method SetOpen(value: bool)
      modifies this
      ensures open == value && formData == old(formData)
    {
      open := value;
    }

    method HandleChange(field: Field, value: string)
      modifies this
      ensures formData == Changed(old(formData), field, value)
      ensures open == old(open)
    {
      formData := Changed(formData, field, value);
    }

    /** `handleSubmit`: an incomplete form gets the error toast and stays as
        it is; a complete one gets the thank-you toast, is cleared and the
        dialog closes. */
    method HandleSubmit() returns (toast: Toast)
      modifies this
      ensures toast.destructive <==> old(Incomplete(formData))
      ensures toast == (if old(Incomplete(formData)) then MissingFieldsToast else AcceptedToast)
      ensures old(Incomplete(formData)) ==> formData == old(formData) && open == old(open)
      ensures !old(Incomplete(formData)) ==> formData == EmptyApplication && !open
    {
      if Incomplete(formData) {
        return MissingFieldsToast;
      }
      toast := AcceptedToast;
      formData := EmptyApplication;
      open := false;
    }
  }

  /** `handleSubmit` accepts an application whose inputs are only blanks, and
      refuses the next submit of the cleared form. On the page, the browser's
      own `required` and `type="url"` checks run before the handler. */
  method BlankApplicationAccepted()
  {
    var dialog := new Dialog();
    dialog.SetOpen(true);
    dialog.HandleChange(Name, " ");
    dialog.HandleChange(City, " ");
    dialog.HandleChange(Website, " ");
    var toast := dialog.HandleSubmit();
    assert toast == MissingFieldsToast && dialog.open && dialog.formData.city == " ";
    dialog.HandleChange(ContactPerson, " ");
    toast := dialog.HandleSubmit();
    assert toast == AcceptedToast && !dialog.open;
    toast := dialog.HandleSubmit();
    assert toast == MissingFieldsToast;
  }
}
