/** The public registration form (frontend/src/pages/Register.jsx): the form state,
    its change handlers, the photo size limit, the submit chain that stops at the
    first failing check, and the multipart body the submit sends. */
module RegisterPage {
  import opened Wrappers
  import opened Text

  /** A date the picker produced, known here by its `toISOString()` text. */
  datatype Date = Date(iso: string)

  /** The `formData` state. */
  datatype Form = Form(
    first_name: string,
    last_name: string,
    dob: Option<Date>,
    email: string,
    phone: string,
    address: string,
    reference: string,
    group: string,
    eduType: string,
    standard: string,
    stream: string,
    schoolName: string,
    collegeName: string,
    branch: string,
    semester: string)

  /** The initial state: every text field empty and no date of birth. */
  const Initial: Form := Form("", "", None, "", "", "", "", "", "", "", "", "", "", "", "")

  /** The text fields, by the `name` attribute of their input. */
  datatype Field = FirstName | LastName | Email | Phone | Address | Reference | Group
                 | EduType | Standard | Stream | SchoolName | CollegeName | Branch | Semester

  function Get(f: Form, k: Field): string {
    match k
    case FirstName => f.first_name
    case LastName => f.last_name
    case Email => f.email
    case Phone => f.phone
    case Address => f.address
    case Reference => f.reference
    case Group => f.group
    case EduType => f.eduType
    case Standard => f.standard
    case Stream => f.stream
    case SchoolName => f.schoolName
    case CollegeName => f.collegeName
    case Branch => f.branch
    case Semester => f.semester
  }

  /** `{ ...prev, [name]: value }`: only the named field takes the new value. */
  function Set(f: Form, k: Field, v: string): (r: Form)
    ensures Get(r, k) == v
    ensures forall k' :: k' != k ==> Get(r, k') == Get(f, k')
    ensures r.dob == f.dob
  {
    match k
    case FirstName => f.(first_name := v)
    case LastName => f.(last_name := v)
    case Email => f.(email := v)
    case Phone => f.(phone := v)
    case Address => f.(address := v)
    case Reference => f.(reference := v)
    case Group => f.(group := v)
    case EduType => f.(eduType := v)
    case Standard => f.(standard := v)
    case Stream => f.(stream := v)
    case SchoolName => f.(schoolName := v)
    case CollegeName => f.(collegeName := v)
    case Branch => f.(branch := v)
    case Semester => f.(semester := v)
  }

  /** Setting a field to the value it holds changes nothing, and two writes to one
      field leave the last. */
  lemma SetSame(f: Form, k: Field, v: string, w: string)
    ensures Set(f, k, Get(f, k)) == f
    ensures Set(Set(f, k, v), k, w) == Set(f, k, w)
  {
  }

  /** The fields the education-type selector clears. */
  predicate IsEducationDetail(k: Field) {
    k == Standard || k == Stream || k == SchoolName || k == CollegeName || k == Branch || k == Semester
  }

  /** The education-type change: the type takes the new value, the six details are cleared. */
  function WithEduType(f: Form, v: string): (r: Form)
    ensures Get(r, EduType) == v
    ensures forall k :: IsEducationDetail(k) ==> Get(r, k) == ""
    ensures forall k :: k != EduType && !IsEducationDetail(k) ==> Get(r, k) == Get(f, k)
    ensures r.dob == f.dob
  {
    f.(eduType := v, standard := "", stream := "", schoolName := "", collegeName := "", branch := "", semester := "")
  }

  /** The standard change: the standard takes the new value, and only the stream is cleared. */
  function WithStandard(f: Form, v: string): (r: Form)
    ensures Get(r, Standard) == v && Get(r, Stream) == ""
    ensures forall k :: k != Standard && k != Stream ==> Get(r, k) == Get(f, k)
    ensures r.dob == f.dob
  {
    f.(standard := v, stream := "")
  }

  /** The stream selector is on screen: a school student in standard 11 or 12. */
  predicate ShowsStream(f: Form) {
    f.eduType == "school" && (f.standard == "11" || f.standard == "12")
  }

  /** Right after an education-type change no stream is chosen or offered; right
      after a standard change the stream is empty and is offered exactly for 11 and 12. */
  lemma ResetsHideStream(f: Form, v: string)
    ensures !ShowsStream(WithEduType(f, v)) && WithEduType(f, v).stream == ""
    ensures WithStandard(f, v).stream == ""
    ensures ShowsStream(WithStandard(f, v)) <==> f.eduType == "school" && (v == "11" || v == "12")
  {
  }

  /** An uploaded file: its name and size in bytes. */
  datatype File = File(name: string, size: nat)

  /** The photo size limit, 5 MiB. */
  const MaxPhotoBytes: nat := 5 * 1024 * 1024

  /** The messages of the submit checks, in the order they run. */
  const PhotoMissing := "Please select a photo"
  const DobMissing := "Please select your Date of Birth"
  const PhoneInvalid := "Phone number must be exactly 10 digits"
  const ReferenceMissing := "Please provide a reference"
  const GroupMissing := "Please select a group"

  /** The submit checks: the message of the first that fails, none when all pass. */
  function FirstFailure(photo: Option<File>, f: Form): (r: Option<string>)
    ensures r == Some(PhotoMissing) <==> photo.None?
    ensures r == Some(DobMissing) <==> photo.Some? && f.dob.None?
    ensures r == Some(PhoneInvalid) <==> photo.Some? && f.dob.Some? && !IsTenDigits(f.phone)
    ensures r == Some(ReferenceMissing) <==>
      photo.Some? && f.dob.Some? && IsTenDigits(f.phone) && IsBlank(f.reference)
    ensures r == Some(GroupMissing) <==>
      photo.Some? && f.dob.Some? && IsTenDigits(f.phone) && !IsBlank(f.reference) && f.group == ""
    ensures r.None? <==>
      photo.Some? && f.dob.Some? && IsTenDigits(f.phone) && !IsBlank(f.reference) && f.group != ""
  {
    TrimEmptyIffBlank(f.reference);
    if photo.None? then Some(PhotoMissing)
    else if f.dob.None? then Some(DobMissing)
    else if f.phone == "" || !IsTenDigits(f.phone) then Some(PhoneInvalid)
    else if f.reference == "" || Trim(f.reference) == "" then Some(ReferenceMissing)
    else if f.group == "" then Some(GroupMissing)
    else None
  }

  /** The keys of `formData` in the order `Object.keys` lists them. */
  const Keys: seq<string> := ["first_name", "last_name", "dob", "email", "phone", "address", "reference",
                              "group", "eduType", "standard", "stream", "schoolName", "collegeName",
                              "branch", "semester"]

  /** The text field a key names; `dob` is not one. */
  function FieldOf(key: string): Option<Field> {
    match key
    case "first_name" => Some(FirstName)
    case "last_name" => Some(LastName)
    case "email" => Some(Email)
    case "phone" => Some(Phone)
    case "address" => Some(Address)
    case "reference" => Some(Reference)
    case "group" => Some(Group)
    case "eduType" => Some(EduType)
    case "standard" => Some(Standard)
    case "stream" => Some(Stream)
    case "schoolName" => Some(SchoolName)
    case "collegeName" => Some(CollegeName)
    case "branch" => Some(Branch)
    case "semester" => Some(Semester)
    case _ => None
  }

  /** The text `append(key, value)` sends for a key: the date part of the ISO string
      for a set `dob`, "null" for an unset one, the field's text otherwise. */
  function SentValue(f: Form, key: string): string {
    if key == "dob" then
      match f.dob
      case Some(d) => Before(d.iso, 'T')
      case None => "null"
    else match FieldOf(key)
      case Some(k) => Get(f, k)
      case None => ""
  }

  /** The form's entries of the multipart body: one per key, in key order. */
  function Entries(f: Form): (r: seq<(string, string)>)
    ensures |r| == |Keys|
    ensures forall i :: 0 <= i < |r| ==> r[i] == (Keys[i], SentValue(f, Keys[i]))
  {
    seq(|Keys|, i requires 0 <= i < |Keys| => (Keys[i], SentValue(f, Keys[i])))
  }

  /** Every key is sent exactly once, every text field under its own name, and the
      date of birth as the part of its ISO text before the first 'T'. */
  lemma EntriesMeaning(f: Form, d: Date)
    requires f.dob == Some(d)
    ensures forall i, j :: 0 <= i < j < |Entries(f)| ==> Entries(f)[i].0 != Entries(f)[j].0
    ensures forall k :: Entries(f)[IndexOf(k)] == (KeyOf(k), Get(f, k))
    ensures Entries(f)[2] == ("dob", Before(d.iso, 'T'))
    ensures !HasChar(Entries(f)[2].1, 'T')
    ensures |Entries(f)[2].1| <= |d.iso| && d.iso[..|Entries(f)[2].1|] == Entries(f)[2].1
  {
    BeforeIsPrefix(d.iso, 'T');
    forall k ensures Entries(f)[IndexOf(k)] == (KeyOf(k), Get(f, k)) {
      var i := IndexOf(k);
      assert Keys[i] == KeyOf(k) && KeyOf(k) != "dob";
      assert SentValue(f, Keys[i]) == Get(f, k);
      assert Entries(f)[i] == (KeyOf(k), Get(f, k));
    }
  }

  /** The `name` of a text field's input. */
  function KeyOf(k: Field): (key: string)
    ensures FieldOf(key) == Some(k) && key != "dob"
  {
    match k
    case FirstName => "first_name"
    case LastName => "last_name"
    case Email => "email"
    case Phone => "phone"
    case Address => "address"
    case Reference => "reference"
    case Group => "group"
    case EduType => "eduType"
    case Standard => "standard"
    case Stream => "stream"
    case SchoolName => "schoolName"
    case CollegeName => "collegeName"
    case Branch => "branch"
    case Semester => "semester"
  }

  /** Where a text field's key stands in `Keys`. */
  function IndexOf(k: Field): (i: nat)
    ensures i < |Keys| && Keys[i] == KeyOf(k)
  {
    match k
    case FirstName => 0
    case LastName => 1
    case Email => 3
    case Phone => 4
    case Address => 5
    case Reference => 6
    case Group => 7
    case EduType => 8
    case Standard => 9
    case Stream => 10
    case SchoolName => 11
    case CollegeName => 12
    case Branch => 13
    case Semester => 14
  }

  /** One part of the multipart body. */
  datatype Part = TextPart(name: string, value: string) | FilePart(name: string, file: File)

  /** What the server's reply to the submit says. */
  datatype Outcome = Succeeded | Refused(error: Option<string>) | Unreachable(message: string)

  const SuccessToast: string := "Registration successful! Your QR code has been generated."
  const RetryToast: string := "Registration failed. Please try again."

  /** The toast for a refused submit: `data.error || "Registration failed"`, so an
      absent or empty error gives the fallback text. */
  function RefusalMessage(error: Option<string>): (m: string)
    ensures m != ""
    ensures error.Some? && error.value != "" ==> m == error.value
    ensures error.None? || error == Some("") ==> m == "Registration failed"
  {
    if error.Some? && error.value != "" then error.value else "Registration failed"
  }

  /** What a submit did: the body it sent (if any), the toasts it showed, and where it navigated. */
  datatype SubmitResult = SubmitResult(sent: Option<seq<Part>>, toasts: seq<string>, navigateTo: Option<string>)

  /** The registration page's state. */
  class RegisterForm {
    var form: Form
    var photo: Option<File>
    var loading: bool

    constructor ()
      ensures form == Initial && photo == None && !loading
    {
      form := Initial;
      photo := None;
      loading := false;
    }

    /** `handleInputChange` for the input named by `k`. */
    method HandleInputChange(k: Field, v: string)
      modifies this
      ensures form == Set(old(form), k, v) && photo == old(photo) && loading == old(loading)
    {
      form := Set(form, k, v);
    }

    /** `handleDateChange`. */
    method HandleDateChange(d: Option<Date>)
      modifies this
      ensures form == old(form).(dob := d) && photo == old(photo) && loading == old(loading)
    {
      form := form.(dob := d);
    }

    /** The education-type selector's `onChange`. */
    method HandleEduTypeChange(v: string)
      modifies this
      ensures form == WithEduType(old(form), v) && photo == old(photo) && loading == old(loading)
    {
      form := WithEduType(form, v);
    }

    /** The standard selector's `onChange`. */
    method HandleStandardChange(v: string)
      modifies this
      ensures form == WithStandard(old(form), v) && photo == old(photo) && loading == old(loading)
    {
      form := WithStandard(form, v);
    }

    /** `handlePhotoChange` for the first chosen file, if any: a file over the limit
        is refused with a toast and the previous photo kept. */
    method HandlePhotoChange(file: Option<File>) returns (toast: Option<string>)
      modifies this
      ensures form == old(form) && loading == old(loading)
      ensures file.None? ==> toast.None? && photo == old(photo)
      ensures file.Some? && file.value.size > MaxPhotoBytes ==>
        toast == Some("Photo size should be less than 5MB") && photo == old(photo)
      ensures file.Some? && file.value.size <= MaxPhotoBytes ==> toast.None? && photo == file
    {
      toast := None;
      if file.Some? {
        if file.value.size > MaxPhotoBytes {
          return Some("Photo size should be less than 5MB");
        }
        photo := file;
      }
    }

    /** The loop over `Object.keys(formData)`: one text part per key. */
    method AppendFields() returns (parts: seq<Part>)
      ensures |parts| == |Keys|
      ensures forall i :: 0 <= i < |parts| ==> parts[i] == TextPart(Entries(form)[i].0, Entries(form)[i].1)
    {
      parts := [];
      for i := 0 to |Keys|
        invariant |parts| == i
        invariant forall j :: 0 <= j < i ==> parts[j] == TextPart(Entries(form)[j].0, Entries(form)[j].1)
      {
        var key := Keys[i];
        var value: string;
        if key == "dob" && form.dob.Some? {
          value := Before(form.dob.value.iso, 'T');
        } else if key == "dob" {
          value := "null";
        } else {
          var k := FieldOf(key);
          value := if k.Some? then Get(form, k.value) else "";
        }
        parts := parts + [TextPart(key, value)];
      }
    }

    /** `handleSubmit`, with `outcome` standing for what the request brings back. */
    method HandleSubmit(outcome: Outcome) returns (r: SubmitResult)
      modifies this
      ensures form == old(form) && photo == old(photo)
      ensures FirstFailure(old(photo), old(form)).Some? ==>
        r == SubmitResult(None, [FirstFailure(old(photo), old(form)).value], None) && loading == old(loading)
      ensures FirstFailure(old(photo), old(form)).None? ==>
        && !loading
        && r.sent.Some? && |r.sent.value| == |Keys| + 1
        && (forall i :: 0 <= i < |Keys| ==> r.sent.value[i] == TextPart(Entries(form)[i].0, Entries(form)[i].1))
        && r.sent.value[|Keys|] == FilePart("photo", photo.value)
        && (r.navigateTo.Some? <==> outcome.Succeeded?)
        && (r.navigateTo.Some? ==> r.navigateTo.value == "/")
        && (outcome.Succeeded? ==> r.toasts == [SuccessToast])
        && (outcome.Refused? ==> r.toasts == [RefusalMessage(outcome.error)])
        && (outcome.Unreachable? ==> r.toasts == [outcome.message, RetryToast])
    {
      var failure := FirstFailure(photo, form);
      if failure.Some? {
        return SubmitResult(None, [failure.value], None);
      }
      loading := true;
      var parts := AppendFields();
      parts := parts + [FilePart("photo", photo.value)];
      match outcome {
        case Succeeded =>
          r := SubmitResult(Some(parts), [SuccessToast], Some("/"));
        case Refused(e) =>
          r := SubmitResult(Some(parts), [RefusalMessage(e)], None);
        case Unreachable(m) =>
          r := SubmitResult(Some(parts), [m, RetryToast], None);
      }
      loading := false;
    }
  }
}
