/** The leaders' "register new participant" dialog
    (frontend/src/pages/admin/RegisterUserDialog.jsx): four fields, a `validate` that
    records an error for every failing field, and a submit that sends nothing unless
    all four pass and clears the form after a 200. */
module RegisterDialog {
  import opened Wrappers
  import opened Text

  datatype DialogForm = DialogForm(full_name: string, phone: string, reference: string, group: string)

  const Empty: DialogForm := DialogForm("", "", "", "")

  /** The inputs, by their `name`; `errs` uses the same names as its keys. */
  datatype DialogField = FullName | PhoneField | ReferenceField | GroupField

  /** `handleChange`: `{ ...prev, [name]: value }`. */
  function Change(f: DialogForm, k: DialogField, v: string): (r: DialogForm)
    ensures k == FullName ==> r == f.(full_name := v)
    ensures k == PhoneField ==> r == f.(phone := v)
    ensures k == ReferenceField ==> r == f.(reference := v)
    ensures k == GroupField ==> r == f.(group := v)
  {
    match k
    case FullName => f.(full_name := v)
    case PhoneField => f.(phone := v)
    case ReferenceField => f.(reference := v)
    case GroupField => f.(group := v)
  }

  /** The messages `validate` stores. */
  const NameRequired: string := "Full name is required"
  const PhoneInvalid: string := "Enter a valid 10-digit phone number"
  const ReferenceRequired: string := "Reference is required"
  const GroupRequired: string := "Group selection is required"

  /** The `errs` object `validate` builds: each check that fails adds its message.
      A field fails `!value.trim()` exactly when it is blank (`TrimEmptyIffBlank`). */
  function Errors(f: DialogForm): map<DialogField, string> {
    ErrorsFor(IsBlank(f.full_name), !IsTenDigits(f.phone), IsBlank(f.reference), f.group == "")
  }

  /** The map built from the four check outcomes, in the order the checks run. */
  function ErrorsFor(nameBad: bool, phoneBad: bool, referenceBad: bool, groupBad: bool): map<DialogField, string> {
    var e1 := AddIf(map[], nameBad, FullName, NameRequired);
    var e2 := AddIf(e1, phoneBad, PhoneField, PhoneInvalid);
    var e3 := AddIf(e2, referenceBad, ReferenceField, ReferenceRequired);
    AddIf(e3, groupBad, GroupField, GroupRequired)
  }

  /** One check of `validate`: `if (failed) errs.key = message`. */
  function AddIf(errs: map<DialogField, string>, failed: bool, key: DialogField, message: string): map<DialogField, string> {
    if failed then errs[key := message] else errs
  }

  /** Each failing check leaves its own key with its own message, whatever the
      others do, and a check that passes leaves no key. */
  lemma ErrorsForKeys(nameBad: bool, phoneBad: bool, referenceBad: bool, groupBad: bool)
    ensures var e := ErrorsFor(nameBad, phoneBad, referenceBad, groupBad);
      && (FullName in e <==> nameBad) && (PhoneField in e <==> phoneBad)
      && (ReferenceField in e <==> referenceBad) && (GroupField in e <==> groupBad)
      && (nameBad ==> e[FullName] == NameRequired)
      && (phoneBad ==> e[PhoneField] == PhoneInvalid)
      && (referenceBad ==> e[ReferenceField] == ReferenceRequired)
      && (groupBad ==> e[GroupField] == GroupRequired)
  {
  }

  /** Every check runs, so the map holds an error for exactly the failing fields;
      the group is only required to be non-empty, not to be one of the offered names. */
  lemma ErrorKeys(f: DialogForm)
    ensures FullName in Errors(f) <==> Trim(f.full_name) == ""
    ensures PhoneField in Errors(f) <==> !IsTenDigits(f.phone)
    ensures ReferenceField in Errors(f) <==> Trim(f.reference) == ""
    ensures GroupField in Errors(f) <==> f.group == ""
    ensures FullName in Errors(f) ==> Errors(f)[FullName] == NameRequired
    ensures PhoneField in Errors(f) ==> Errors(f)[PhoneField] == PhoneInvalid
    ensures ReferenceField in Errors(f) ==> Errors(f)[ReferenceField] == ReferenceRequired
    ensures GroupField in Errors(f) ==> Errors(f)[GroupField] == GroupRequired
  {
    TrimEmptyIffBlank(f.full_name);
    TrimEmptyIffBlank(f.reference);
    ErrorsForKeys(IsBlank(f.full_name), !IsTenDigits(f.phone), IsBlank(f.reference), f.group == "");
  }

  /** No error at all exactly when every field passes. */
  lemma ErrorsEmptyIffValid(f: DialogForm)
    ensures Errors(f) == map[] <==>
      Trim(f.full_name) != "" && IsTenDigits(f.phone) && Trim(f.reference) != "" && f.group != ""
  {
    ErrorKeys(f);
    if Errors(f) != map[] {
      var k :| k in Errors(f);
    }
  }

  /** How the request ends: resolved with a 2xx status, or rejected (network failure
      or a status axios treats as an error). */
  datatype PostOutcome = Resolved(status: int) | Rejected

  /** The dialog's state. */
  class Dialog {
    var form: DialogForm
    var errors: map<DialogField, string>
    var submitting: bool

    constructor ()
      ensures form == Empty && errors == map[] && !submitting
    {
      form := Empty;
      errors := map[];
      submitting := false;
    }

    method HandleChange(k: DialogField, v: string)
      modifies this
      ensures form == Change(old(form), k, v) && errors == old(errors) && submitting == old(submitting)
    {
      form := Change(form, k, v);
    }

    /** `validate`: every check runs, each adding its own key; true iff none failed. */
    method Validate() returns (ok: bool)
      modifies this
      ensures form == old(form) && submitting == old(submitting)
      ensures errors == Errors(form)
      ensures ok <==> |errors| == 0
    {
      var f := form;
      var nameBad, phoneBad := IsBlank(f.full_name), !IsTenDigits(f.phone);
      var referenceBad, groupBad := IsBlank(f.reference), f.group == "";
      assert Errors(f) == ErrorsFor(nameBad, phoneBad, referenceBad, groupBad);
      var errs: map<DialogField, string> := map[];
      if nameBad {
        errs := errs[FullName := NameRequired];
      }
      assert errs == AddIf(map[], nameBad, FullName, NameRequired);
      ghost var e1 := errs;
      if phoneBad {
        errs := errs[PhoneField := PhoneInvalid];
      }
      assert errs == AddIf(e1, phoneBad, PhoneField, PhoneInvalid);
      ghost var e2 := errs;
      if referenceBad {
        errs := errs[ReferenceField := ReferenceRequired];
      }
      assert errs == AddIf(e2, referenceBad, ReferenceField, ReferenceRequired);
      ghost var e3 := errs;
      if groupBad {
        errs := errs[GroupField := GroupRequired];
      }
      assert errs == AddIf(e3, groupBad, GroupField, GroupRequired);
      errors := errs;
      ok := |errs| == 0;
    }

    /** `handleSubmit`; `sent` tells whether the request went out, carrying `form`. */
    method HandleSubmit(outcome: PostOutcome) returns (sent: Option<DialogForm>, toasts: seq<string>)
      modifies this
      ensures errors == Errors(old(form))
      ensures errors != map[] ==> sent.None? && toasts == [] && form == old(form) && submitting == old(submitting)
      ensures errors == map[] ==> sent == Some(old(form)) && !submitting
      ensures errors == map[] && outcome == Resolved(200) ==> form == Empty
      ensures errors == map[] && outcome != Resolved(200) ==> form == old(form)
      ensures errors == map[] && outcome == Resolved(200) ==> toasts == ["Participant registered successfully 🎉"]
      ensures errors == map[] && outcome.Resolved? && outcome.status != 200 ==> toasts == []
      ensures errors == map[] && outcome.Rejected? ==> toasts == ["Registration failed. Please try again."]
    {
      var ok := Validate();
      if !ok {
        assert errors != map[] by {
          var k :| k in errors;
        }
        return None, [];
      }
      assert errors == map[];
      submitting := true;
      sent := Some(form);
      toasts := [];
      match outcome {
        case Resolved(status) =>
          if status == 200 {
            toasts := ["Participant registered successfully 🎉"];
            form := Empty;
          }
        case Rejected =>
          toasts := ["Registration failed. Please try again."];
      }
      submitting := false;
    }
  }
}
