/**
 * The contact creation form: eight input values, the flags and messages the
 * form shows, the record-field map sent to the record-creation call, and the
 * error-message extraction applied when that call fails. The call itself,
 * toasts and input validation widgets are outside; the validity result is an
 * input and the two outcomes of the call are the methods `OnCreateSuccess`
 * and `OnCreateFailure`.
 */
module ContactInputForm {
  import opened Optional

  /** The eight inputs, named by the `name` attribute that `handleInputChange` reads. */
  datatype FormField = FirstName | LastName | Title | Email | Phone | MobilePhone | Department | Description

  /** The values of the eight inputs. */
  datatype ContactFields = ContactFields(
    firstName: string, lastName: string, title: string, email: string,
    phone: string, mobilePhone: string, department: string, description: string)

  const EmptyFields := ContactFields("", "", "", "", "", "", "", "")

  /** The value of one input. */
  function Get(c: ContactFields, f: FormField): string
  {
    match f
    case FirstName => c.firstName
    case LastName => c.lastName
    case Title => c.title
    case Email => c.email
    case Phone => c.phone
    case MobilePhone => c.mobilePhone
    case Department => c.department
    case Description => c.description
  }

  /** `this[field] = value` over the eight named inputs. */
  function Set(c: ContactFields, f: FormField, value: string): (r: ContactFields)
    ensures Get(r, f) == value
    ensures forall g :: g != f ==> Get(r, g) == Get(c, g)
  {
    match f
    case FirstName => c.(firstName := value)
    case LastName => c.(lastName := value)
    case Title => c.(title := value)
    case Email => c.(email := value)
    case Phone => c.(phone := value)
    case MobilePhone => c.(mobilePhone := value)
    case Department => c.(department := value)
    case Description => c.(description := value)
  }

  /** The Contact field each input fills. */
  function ApiName(f: FormField): string
  {
    match f
    case FirstName => "FirstName"
    case LastName => "LastName"
    case Title => "Title"
    case Email => "Email"
    case Phone => "Phone"
    case MobilePhone => "MobilePhone"
    case Department => "Department"
    case Description => "Description"
  }

  /** The two inputs whose fields are always sent. */
  predicate Required(f: FormField)
  {
    f == FirstName || f == LastName
  }

  /** The six inputs sent only when filled in, in the order the form adds them. */
  const OptionalFields: seq<FormField> := [Title, Email, Phone, MobilePhone, Department, Description]

  /** Distinct inputs fill distinct Contact fields. */
  lemma ApiNameInjective(f: FormField, g: FormField)
    requires f != g
    ensures ApiName(f) != ApiName(g)
  {
  }

  /** `if (value) fields[apiName] = value` for each input of `fs` in turn. */
  function AddIfPresent(m: map<string, string>, c: ContactFields, fs: seq<FormField>): map<string, string>
    decreases |fs|
  {
    if fs == [] then m
    else
      var f := fs[0];
      AddIfPresent(if Get(c, f) != "" then m[ApiName(f) := Get(c, f)] else m, c, fs[1..])
  }

  /** The fields object before the optional inputs are considered. */
  function RequiredFields(c: ContactFields): map<string, string>
  {
    map[ApiName(FirstName) := c.firstName, ApiName(LastName) := c.lastName]
  }

  /** The `fields` object of the record input built in `handleSubmit`. */
  function BuildFields(c: ContactFields): map<string, string>
  {
    AddIfPresent(RequiredFields(c), c, OptionalFields)
  }

  /** Adding the filled-in inputs of `fs` adds their fields and touches no other. */
  lemma {:induction false} AddIfPresentFields(m: map<string, string>, c: ContactFields, fs: seq<FormField>, g: FormField)
    ensures ApiName(g) in AddIfPresent(m, c, fs) <==> ApiName(g) in m || (g in fs && Get(c, g) != "")
    ensures ApiName(g) in AddIfPresent(m, c, fs) ==>
      AddIfPresent(m, c, fs)[ApiName(g)] == if g in fs && Get(c, g) != "" then Get(c, g) else m[ApiName(g)]
    ensures forall k :: k in AddIfPresent(m, c, fs) ==> k in m || exists f :: f in fs && ApiName(f) == k
    decreases |fs|
  {
    if fs != [] {
      var f := fs[0];
      var m' := if Get(c, f) != "" then m[ApiName(f) := Get(c, f)] else m;
      if f != g {
        ApiNameInjective(f, g);
      }
      AddIfPresentFields(m', c, fs[1..], g);
      assert fs == [f] + fs[1..];
    }
  }

  /**
   * The fields object holds first and last name always, each optional field
   * exactly when its input is non-empty, each with its input's value, and
   * nothing else.
   */
  lemma BuildFieldsContents(c: ContactFields)
    ensures forall f :: ApiName(f) in BuildFields(c) <==> Required(f) || Get(c, f) != ""
    ensures forall f :: ApiName(f) in BuildFields(c) ==> BuildFields(c)[ApiName(f)] == Get(c, f)
    ensures forall k :: k in BuildFields(c) ==> exists f :: ApiName(f) == k
  {
    forall f
      ensures ApiName(f) in BuildFields(c) <==> Required(f) || Get(c, f) != ""
      ensures ApiName(f) in BuildFields(c) ==> BuildFields(c)[ApiName(f)] == Get(c, f)
    {
      BuildFieldsAt(c, f);
    }
    BuildFieldsKeys(c);
  }

  /** Every key of the fields object is the field of some input. */
  lemma BuildFieldsKeys(c: ContactFields)
    ensures forall k :: k in BuildFields(c) ==> exists f :: ApiName(f) == k
  {
    AddIfPresentFields(RequiredFields(c), c, OptionalFields, FirstName);
    forall k | k in BuildFields(c)
      ensures exists f :: ApiName(f) == k
    {
      if k in RequiredFields(c) {
        assert k == ApiName(FirstName) || k == ApiName(LastName);
      }
    }
  }

  /** `BuildFieldsContents` for one input. */
  lemma BuildFieldsAt(c: ContactFields, f: FormField)
    ensures ApiName(f) in BuildFields(c) <==> Required(f) || Get(c, f) != ""
    ensures ApiName(f) in BuildFields(c) ==> BuildFields(c)[ApiName(f)] == Get(c, f)
  {
    var required := RequiredFields(c);
    AddIfPresentFields(required, c, OptionalFields, f);
    assert ApiName(f) in required <==> Required(f);
    assert Required(f) <==> f !in OptionalFields;
    assert Required(f) ==> required[ApiName(f)] == Get(c, f);
  }

  /** A field's value as the record carries it, '' when the map leaves it out. */
  function FieldValue(m: map<string, string>, f: FormField): string
  {
    if ApiName(f) in m then m[ApiName(f)] else ""
  }

  /** Leaving out the empty optional fields loses nothing: every input reads back from the map. */
  lemma BuildFieldsRoundTrip(c: ContactFields)
    ensures forall f :: FieldValue(BuildFields(c), f) == Get(c, f)
  {
    BuildFieldsContents(c);
  }

  /** The argument of `createRecord`. */
  datatype RecordInput = RecordInput(apiName: string, fields: map<string, string>)

  /** The `body` of a failed create: '' and [] stand for a missing (or falsy) part. */
  datatype ErrorBody = ErrorBody(
    message: string,
    pageErrors: seq<string>,
    fieldErrors: seq<(string, seq<string>)>)

  /** The rejection value of `createRecord`. */
  datatype CreateError = CreateError(body: Option<ErrorBody>)

  const UnknownErrorMessage := "An unknown error occurred. Please try again."
  const RequiredFieldsMessage := "Please complete all required fields correctly."

  /** Every message an error carries. */
  ghost function ErrorMessages(error: CreateError): set<string>
  {
    match error.body
    case None => {}
    case Some(b) =>
      {b.message} + (set i | 0 <= i < |b.pageErrors| :: b.pageErrors[i])
      + (set i, j | 0 <= i < |b.fieldErrors| && 0 <= j < |b.fieldErrors[i].1| :: b.fieldErrors[i].1[j])
  }

  /**
   * `extractErrorMessage`: the body's own message, else the first page error,
   * else the first message of the first field's errors, else the fixed text.
   */
  function ExtractErrorMessage(error: CreateError): (msg: string)
    ensures error.body.None? ==> msg == UnknownErrorMessage
    ensures msg == UnknownErrorMessage || msg in ErrorMessages(error)
    ensures error.body.Some? ==>
      var b := error.body.value;
      && (b.message != "" ==> msg == b.message)
      && (b.message == "" && |b.pageErrors| > 0 ==> msg == b.pageErrors[0])
      && (b.message == "" && |b.pageErrors| == 0 && |b.fieldErrors| > 0 && |b.fieldErrors[0].1| > 0
          ==> msg == b.fieldErrors[0].1[0])
      && (b.message == "" && |b.pageErrors| == 0 && (|b.fieldErrors| == 0 || |b.fieldErrors[0].1| == 0)
          ==> msg == UnknownErrorMessage)
  {
    match error.body
    case None => UnknownErrorMessage
    case Some(b) =>
      if b.message != "" then b.message
      else if |b.pageErrors| > 0 then b.pageErrors[0]
      else if |b.fieldErrors| > 0 && |b.fieldErrors[0].1| > 0 then b.fieldErrors[0].1[0]
      else UnknownErrorMessage
  }

  /** The banner text of a successful create, built from the names before they are cleared. */
  function SuccessMessage(firstName: string, lastName: string): string
  {
    "Contact \"" + firstName + " " + lastName + "\" created successfully!"
  }


  class ContactInputForm {
    var firstName: string
    var lastName: string
    var title: string
    var email: string
    var phone: string
    var mobilePhone: string
    var department: string
    var description: string
    var isSaving: bool
    var showSuccess: bool
    var showError: bool
    var successMessage: string
    var errorMessage: string

    /** The eight input values. */
    function Values(): ContactFields
      reads this
    {
      ContactFields(firstName, lastName, title, email, phone, mobilePhone, department, description)
    }

    constructor ()
      ensures Values() == EmptyFields
      ensures !isSaving && !showSuccess && !showError
      ensures successMessage == "" && errorMessage == ""
    {
      firstName, lastName, title, email := "", "", "", "";
      phone, mobilePhone, department, description := "", "", "", "";
      isSaving, showSuccess, showError := false, false, false;
      successMessage, errorMessage := "", "";
    }

    /** `handleInputChange`: stores the value of the named input and hides both banners. */
    method HandleInputChange(field: FormField, value: string)
      modifies this`firstName, this`lastName, this`title, this`email,
               this`phone, this`mobilePhone, this`department, this`description,
               this`showSuccess, this`showError
      ensures Values() == Set(old(Values()), field, value)
      ensures !showSuccess && !showError
    {
      match field {
        case FirstName => firstName := value;
        case LastName => lastName := value;
        case Title => title := value;
        case Email => email := value;
        case Phone => phone := value;
        case MobilePhone => mobilePhone := value;
        case Department => department := value;
        case Description => description := value;
      }
      if showSuccess || showError {
        showSuccess := false;
        showError := false;
      }
    }

    /** `validateForm`, given whether every input reported itself valid. */
    method ValidateForm(allValid: bool) returns (valid: bool)
      modifies this`showError, this`errorMessage
      ensures valid == allValid
      ensures !allValid ==> showError && errorMessage == RequiredFieldsMessage
      ensures allValid ==> showError == old(showError) && errorMessage == old(errorMessage)
    {
      if !allValid {
        showError := true;
        errorMessage := RequiredFieldsMessage;
      }
      valid := allValid;
    }

    /**
     * `handleSubmit` up to the create call: an invalid form stops with the
     * required-fields error; a valid one enters the saving state and yields the
     * record input handed to `createRecord`.
     */
    method HandleSubmit(allValid: bool) returns (request: Option<RecordInput>)
      modifies this`isSaving, this`showSuccess, this`showError, this`errorMessage
      ensures !allValid ==> request == None && showError && errorMessage == RequiredFieldsMessage
      ensures !allValid ==> isSaving == old(isSaving) && showSuccess == old(showSuccess)
      ensures allValid ==> request == Some(RecordInput("Contact", BuildFields(Values())))
      ensures allValid ==> isSaving && !showSuccess && !showError && errorMessage == old(errorMessage)
    {
      var valid := ValidateForm(allValid);
      if !valid {
        return None;
      }
      isSaving := true;
      showSuccess := false;
      showError := false;
      var fields := BuildFields(Values());
      request := Some(RecordInput("Contact", fields));
    }

    /** `handleClear`: empties every input and hides both banners. */
    method HandleClear()
      modifies this`firstName, this`lastName, this`title, this`email,
               this`phone, this`mobilePhone, this`department, this`description,
               this`showSuccess, this`showError
      ensures Values() == EmptyFields
      ensures !showSuccess && !showError
    {
      firstName := "";
      lastName := "";
      title := "";
      email := "";
      phone := "";
      mobilePhone := "";
      department := "";
      description := "";
      showSuccess := false;
      showError := false;
    }

    /**
     * The success continuation: leaves the saving state, builds the banner text
     * from the names, then clears the form, which hides the banner again.
     */
    method OnCreateSuccess()
      modifies this`firstName, this`lastName, this`title, this`email,
               this`phone, this`mobilePhone, this`department, this`description,
               this`isSaving, this`showSuccess, this`showError, this`successMessage
      ensures !isSaving
      ensures successMessage == SuccessMessage(old(firstName), old(lastName))
      ensures Values() == EmptyFields
      ensures !showSuccess && !showError
      ensures errorMessage == old(errorMessage)
    {
      isSaving := false;
      showSuccess := true;
      successMessage := SuccessMessage(firstName, lastName);
      HandleClear();
    }

    /** The success continuation as the comments describe it: the banner stays up after the form is cleared. */
    method OnCreateSuccessKeepingBanner()
      modifies this`firstName, this`lastName, this`title, this`email,
               this`phone, this`mobilePhone, this`department, this`description,
               this`isSaving, this`showSuccess, this`showError, this`successMessage
      ensures !isSaving
      ensures successMessage == SuccessMessage(old(firstName), old(lastName))
      ensures Values() == EmptyFields
      ensures showSuccess && !showError
      ensures errorMessage == old(errorMessage)
    {
      isSaving := false;
      successMessage := SuccessMessage(firstName, lastName);
      HandleClear();
      showSuccess := true;
    }

    /** The failure continuation: leaves the saving state and shows the extracted message. */
    method OnCreateFailure(error: CreateError)
      modifies this`isSaving, this`showError, this`errorMessage
      ensures !isSaving && showError
      ensures errorMessage == ExtractErrorMessage(error)
    {
      isSaving := false;
      showError := true;
      errorMessage := ExtractErrorMessage(error);
    }
  }

  /**
   * A valid submit followed by a successful create, run both ways: as written the
   * success banner is off when the continuation returns; as intended it is on.
   */
  method SuccessBannerAfterCreate(first: string, last: string) returns (shownAsWritten: bool, shownAsIntended: bool)
    ensures !shownAsWritten && shownAsIntended
  {
    var written := new ContactInputForm();
    written.HandleInputChange(FirstName, first);
    written.HandleInputChange(LastName, last);
    var request := written.HandleSubmit(true);
    written.OnCreateSuccess();
    shownAsWritten := written.showSuccess;

    var intended := new ContactInputForm();
    intended.HandleInputChange(FirstName, first);
    intended.HandleInputChange(LastName, last);
    request := intended.HandleSubmit(true);
    intended.OnCreateSuccessKeepingBanner();
    shownAsIntended := intended.showSuccess;
  }
}
