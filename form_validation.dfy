/**
 * useFormValidation: a per-field value dictionary, a per-field error
 * dictionary, and the required-field check.
 */
module FormValidation {

  /** A form field's JavaScript value. */
  datatype Value = Str(s: string) | Num(n: int) | Bool(b: bool) | Null | Undefined

  /** JavaScript truthiness (NaN is not representable here). */
  predicate Truthy(v: Value) {
    match v
    case Str(s) => s != ""
    case Num(n) => n != 0
    case Bool(b) => b
    case Null => false
    case Undefined => false
  }

  /** The characters `String.prototype.trim` removes: ECMAScript white space and line terminators. */
  predicate IsJsWhitespace(c: char) {
    var n := c as int;
    n == 0x09 || n == 0x0A || n == 0x0B || n == 0x0C || n == 0x0D || n == 0x20 || n == 0xA0 ||
    n == 0x1680 || (0x2000 <= n <= 0x200A) || n == 0x2028 || n == 0x2029 || n == 0x202F ||
    n == 0x205F || n == 0x3000 || n == 0xFEFF
  }

  /** `s.trim() === ''`. */
  predicate TrimsToEmpty(s: string) {
    forall i :: 0 <= i < |s| ==> IsJsWhitespace(s[i])
  }

  /**
   * The required test of validateRequired: a falsy value, or one whose
   * `toString().trim()` is empty. Numbers other than 0 and `true` print
   * as non-blank text, so only strings reach the trim test.
   */
  predicate FailsRequired(v: Value) {
    !Truthy(v) || (v.Str? && TrimsToEmpty(v.s))
  }

  /** A field absent from the form reads as `undefined`. */
  function Get(data: map<string, Value>, field: string): Value {
    if field in data then data[field] else Undefined
  }

  const RequiredMessage: string := "Este campo es requerido"

  /** The error map validateRequired aims for: one message per listed field that fails. */
  function RequiredErrors(data: map<string, Value>, fields: seq<string>): map<string, string> {
    map f | f in fields && FailsRequired(Get(data, f)) :: RequiredMessage
  }

  /** The field update of handleInputChange and setFieldValue: `{...prev, [name]: value}`. */
  function WithField(data: map<string, Value>, name: string, value: Value): (r: map<string, Value>)
    ensures r.Keys == data.Keys + {name} && r[name] == value
    ensures forall f :: f in data && f != name ==> r[f] == data[f]
  {
    data[name := value]
  }

  /** The error update of handleInputChange and setFieldValue: drop `name` when its message is truthy. */
  function ClearedError(errors: map<string, string>, name: string): (r: map<string, string>)
    ensures name in errors && errors[name] != "" ==> name !in r
    ensures name in errors && errors[name] == "" ==> r == errors
    ensures forall f :: f != name ==> (f in r <==> f in errors) && (f in r ==> r[f] == errors[f])
  {
    if name in errors && errors[name] != "" then errors - {name} else errors
  }

  /**
   * The forEach of validateRequired as a loop: the errors collected are
   * exactly one message per failing listed field, and the flag is true
   * exactly when no listed field failed.
   */
  method CollectRequiredErrors(data: map<string, Value>, fields: seq<string>) returns (newErrors: map<string, string>, isValid: bool)
    ensures newErrors == RequiredErrors(data, fields)
    ensures isValid <==> forall i :: 0 <= i < |fields| ==> !FailsRequired(Get(data, fields[i]))
    ensures isValid <==> newErrors == map[]
  {
    newErrors := map[];
    isValid := true;
    var i := 0;
    while i < |fields|
      invariant 0 <= i <= |fields|
      invariant newErrors == RequiredErrors(data, fields[..i])
      invariant isValid <==> forall j :: 0 <= j < i ==> !FailsRequired(Get(data, fields[j]))
    {
      var field := fields[i];
      if FailsRequired(Get(data, field)) {
        newErrors := newErrors[field := RequiredMessage];
        isValid := false;
      }
      assert fields[..i + 1] == fields[..i] + [field];
      i := i + 1;
    }
    assert fields[..|fields|] == fields;
    if !isValid {
      var j :| 0 <= j < |fields| && FailsRequired(Get(data, fields[j]));
      assert fields[j] in newErrors;
    }
  }

  class FormState {
    var formData: map<string, Value>
    var errors: map<string, string>
    const initialState: map<string, Value>

    constructor(initial: map<string, Value>)
      ensures initialState == initial && formData == initial && errors == map[]
    {
      initialState := initial;
      formData := initial;
      errors := map[];
    }

    /** setFieldValue(name, value). */
    method SetFieldValue(name: string, value: Value)
      modifies this
      ensures formData == WithField(old(formData), name, value)
      ensures errors == ClearedError(old(errors), name)
    {
      formData := WithField(formData, name, value);
      errors := ClearedError(errors, name);
    }

    /** handleInputChange(e): an input event carries the field's name and its text. */
    method HandleInputChange(name: string, value: string)
      modifies this
      ensures formData == WithField(old(formData), name, Str(value))
      ensures errors == ClearedError(old(errors), name)
    {
      formData := WithField(formData, name, Str(value));
      errors := ClearedError(errors, name);
    }

    /** setFieldError(name, error): only that message changes. */
    method SetFieldError(name: string, error: string)
      modifies this
      ensures errors == old(errors)[name := error] && formData == old(formData)
    {
      errors := errors[name := error];
    }

    /** clearForm. */
    method ClearForm()
      modifies this
      ensures formData == initialState && errors == map[]
    {
      formData := initialState;
      errors := map[];
    }

    /**
     * validateRequired(fields), with React running the updater before the
     * flag is returned: the values stay, the errors become the failing fields.
     */
    method ValidateRequired(fields: seq<string>) returns (isValid: bool)
      modifies this
      ensures formData == old(formData)
      ensures errors == RequiredErrors(formData, fields)
      ensures isValid <==> errors == map[]
    {
      var newErrors;
      newErrors, isValid := CollectRequiredErrors(formData, fields);
      errors := newErrors;
    }
  }

  /** The error map holds a message exactly for the listed fields that fail, and nothing else. */
  lemma RequiredErrorsSpec(data: map<string, Value>, fields: seq<string>, f: string)
    ensures f in RequiredErrors(data, fields) <==> f in fields && FailsRequired(Get(data, f))
    ensures f in RequiredErrors(data, fields) ==> RequiredErrors(data, fields)[f] == RequiredMessage
  {
  }

  /** What fails: missing fields, "", 0, false, null, and strings of blanks; a word or a non-zero number passes. */
  lemma RequiredExamples()
    ensures FailsRequired(Undefined) && FailsRequired(Null) && FailsRequired(Num(0)) && FailsRequired(Bool(false))
    ensures FailsRequired(Str("")) && FailsRequired(Str(" \t\n"))
    ensures !FailsRequired(Str(" a ")) && !FailsRequired(Num(7)) && !FailsRequired(Bool(true))
  {
    assert !IsJsWhitespace(" a "[1]);
  }
}
