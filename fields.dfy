/** The form's field registry: the ten input fields, the property names they
    are stored under, and the two default records the form starts from. */
module Fields {

  datatype Option<+T> = None | Some(value: T)

  /** The ten input fields of the form, in the order the inputs record declares them. */
  datatype Field = FName | MName | LName | Gender | Dob | Phno | Email | House | City | States

  /** The input record: property name to current value. Keyed by the property
      name because a change event may carry any name. */
  type Inputs = map<string, string>

  /** The error record: field to message, the empty message meaning "valid". */
  type Errors = map<Field, string>

  /** The property name under which each field is stored. */
  function Name(f: Field): string {
    match f
    case FName => "fname"
    case MName => "mname"
    case LName => "lname"
    case Gender => "gender"
    case Dob => "dob"
    case Phno => "phno"
    case Email => "email"
    case House => "house"
    case City => "city"
    case States => "states"
  }

  /** Classifies a property name: the field it names, or None for any other name. */
  function FieldNamed(name: string): (r: Option<Field>)
    ensures r.Some? ==> Name(r.value) == name
    ensures r.None? ==> forall f: Field :: Name(f) != name
  {
    if name == "fname" then Some(FName)
    else if name == "mname" then Some(MName)
    else if name == "lname" then Some(LName)
    else if name == "gender" then Some(Gender)
    else if name == "dob" then Some(Dob)
    else if name == "phno" then Some(Phno)
    else if name == "email" then Some(Email)
    else if name == "house" then Some(House)
    else if name == "city" then Some(City)
    else if name == "states" then Some(States)
    else None
  }

  /** Every field's name classifies back to that field, so names are distinct. */
  lemma NameRoundTrip(f: Field)
    ensures FieldNamed(Name(f)) == Some(f)
  {
  }

  /** The fields that have an entry in the error record: all but the middle name. */
  const ErrorFields: set<Field> := {FName, LName, Gender, Dob, Phno, Email, House, City, States}

  /** The inputs the form mounts with: every value empty, the state on its
      "not selected" sentinel. */
  const InitialInput: Inputs := map[
    "fname" := "", "mname" := "", "lname" := "", "gender" := "", "dob" := "",
    "phno" := "", "email" := "", "house" := "", "city" := "", "states" := "NA"]

  /** The all-empty error record. */
  const InitialError: Errors := map[
    FName := "", LName := "", Gender := "", Dob := "", Phno := "",
    Email := "", House := "", City := "", States := ""]

  /** Holds of an inputs record that has a value for every field. */
  predicate HasAllFields(inputs: Inputs) {
    forall f: Field :: Name(f) in inputs
  }

  /** The defaults cover the registry: every field has an input, every field
      but the middle name has an (empty) error entry, and only the state
      starts non-empty. */
  lemma DefaultsCoverRegistry()
    ensures HasAllFields(InitialInput)
    ensures InitialError.Keys == ErrorFields
    ensures forall f :: f in ErrorFields ==> InitialError[f] == ""
    ensures forall f: Field :: InitialInput[Name(f)] == (if f == States then "NA" else "")
  {
    forall f: Field ensures Name(f) in InitialInput && InitialInput[Name(f)] == (if f == States then "NA" else "") {
      match f
      case FName =>
      case MName =>
      case LName =>
      case Gender =>
      case Dob =>
      case Phno =>
      case Email =>
      case House =>
      case City =>
      case States =>
    }
  }
}
