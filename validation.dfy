/**
 * Option validation of the runner: the `required` checks on the command
 * options, the copy of the validator's error list, and the text of one
 * validation error.
 */
module Validation {

  /**
   * One failed constraint, as the validator reports it: the struct field's
   * name, the constraint's tag, the tag's parameter, and the field's value as
   * `%s` prints it (a string value prints as itself).
   */
  datatype FieldError = FieldError(field: string, tag: string, param: string, value: string)

  /**
   * The command options. Only `cqlFile` and `keyspace` carry the tag
   * `required`; in particular `numThreads` carries no constraint at all.
   */
  datatype Options = Options(
    host: string, port: int, user: string, password: string,
    cqlFile: string, keyspace: string,
    timeout: int, numConns: int, numThreads: int)

  /** What the validator's struct check returns: nil, or the list of field errors. */
  datatype StructError = Nil | ValidationErrors(fieldErrors: seq<FieldError>)

  /**
   * The field errors the validator reports for `o`: one `required` error for
   * each required field that holds the empty string, in declaration order.
   */
  function RequiredFieldErrors(o: Options): seq<FieldError>
  {
    (if o.cqlFile == "" then [FieldError("CQLFile", "required", "", o.cqlFile)] else [])
    + (if o.keyspace == "" then [FieldError("Keyspace", "required", "", o.keyspace)] else [])
  }

  /** The struct check: nil exactly when no required field is empty. */
  function ValidateStruct(o: Options): (err: StructError)
    ensures err.Nil? <==> o.cqlFile != "" && o.keyspace != ""
    ensures err.ValidationErrors? ==> |err.fieldErrors| > 0
  {
    var errs := RequiredFieldErrors(o);
    if errs == [] then Nil else ValidationErrors(errs)
  }

  /** What is reported is exactly one `required` error per empty required field. */
  lemma RequiredFieldErrorsSpec(o: Options)
    ensures |RequiredFieldErrors(o)| == 0 <==> o.cqlFile != "" && o.keyspace != ""
    ensures FieldError("CQLFile", "required", "", "") in RequiredFieldErrors(o) <==> o.cqlFile == ""
    ensures FieldError("Keyspace", "required", "", "") in RequiredFieldErrors(o) <==> o.keyspace == ""
    ensures forall e :: e in RequiredFieldErrors(o) ==>
              e.tag == "required" && e.field in ["CQLFile", "Keyspace"]
    ensures |RequiredFieldErrors(o)| == 2 ==> RequiredFieldErrors(o)[0].field == "CQLFile"
  {
  }

  /**
   * The field errors carried by a struct-check result: none for nil, otherwise
   * every field error in the order the validator reports them.
   */
  method ExtractValidationErrors(err: StructError) returns (fieldErrors: seq<FieldError>)
    ensures err.Nil? ==> fieldErrors == []
    ensures err.ValidationErrors? ==> fieldErrors == err.fieldErrors
  {
    fieldErrors := [];
    if err.ValidationErrors? {
      for i := 0 to |err.fieldErrors|
        invariant fieldErrors == err.fieldErrors[..i]
      {
        fieldErrors := fieldErrors + [err.fieldErrors[i]];
      }
      assert err.fieldErrors[..|err.fieldErrors|] == err.fieldErrors;
      return;
    }
    return [];
  }

  /** The validation errors of the options: one per empty required field. */
  method ValidateParams(o: Options) returns (errs: seq<FieldError>)
    ensures errs == RequiredFieldErrors(o)
    ensures |errs| == 0 <==> o.cqlFile != "" && o.keyspace != ""
  {
    var err := ValidateStruct(o);
    errs := ExtractValidationErrors(err);
  }

  /**
   * The text of one validation error about the flag described by `text`: the
   * flag text, then a phrase chosen by the tag ("min" reads "must be greater
   * than", as the program words it), ending in the parameter or the value.
   */
  function ValidationErrorToText(e: FieldError, text: string): string
  {
    match e.tag
    case "required" => text + " is required"
    case "max" => text + " cannot be greater than " + e.param
    case "min" => text + " must be greater than " + e.param
    case _ => text + " is not valid " + e.value
  }

  /**
   * Every message starts with the flag text; the rest is the phrase of its
   * tag, ending in the tag's parameter for "max" and "min" and in the value
   * for an unknown tag.
   */
  lemma ValidationErrorToTextShape(e: FieldError, text: string)
    ensures var r := ValidationErrorToText(e, text);
            && |text| <= |r| && r[..|text|] == text
            && (e.tag == "required" ==> r[|text|..] == " is required")
            && (e.tag == "max" ==> r[|text|..] == " cannot be greater than " + e.param)
            && (e.tag == "min" ==> r[|text|..] == " must be greater than " + e.param)
            && (e.tag !in ["required", "max", "min"] ==> r[|text|..] == " is not valid " + e.value)
  {
    var r := ValidationErrorToText(e, text);
    assert r == text + r[|text|..];
  }

  /** The kinds of tag that `ValidationErrorToText` words differently: `required`, `max`, `min`, any other. */
  function TagKind(tag: string): nat
  {
    if tag == "required" then 0 else if tag == "max" then 1 else if tag == "min" then 2 else 3
  }

  /** The characters after the flag text that tell the four kinds of tag apart. */
  lemma MessageMarks(e: FieldError, text: string)
    ensures var r, n := ValidationErrorToText(e, text), |text|;
            && |r| > n + 4
            && r[n + 1] == (if TagKind(e.tag) == 1 then 'c' else if TagKind(e.tag) == 2 then 'm' else 'i')
            && (TagKind(e.tag) == 0 ==> r[n + 4] == 'r')
            && (TagKind(e.tag) == 3 ==> r[n + 4] == 'n')
  {
    ValidationErrorToTextShape(e, text);
  }

  /**
   * For a given flag text, the message tells back the kind of tag, and with
   * it the parameter for `max` and `min` and the value for any other tag
   * except `required`: two errors give the same message exactly when these
   * agree.
   */
  lemma ValidationErrorToTextDetermines(e1: FieldError, e2: FieldError, text: string)
    ensures ValidationErrorToText(e1, text) == ValidationErrorToText(e2, text)
            <==> && TagKind(e1.tag) == TagKind(e2.tag)
                 && (TagKind(e1.tag) == 1 || TagKind(e1.tag) == 2 ==> e1.param == e2.param)
                 && (TagKind(e1.tag) == 3 ==> e1.value == e2.value)
  {
    ValidationErrorToTextShape(e1, text);
    ValidationErrorToTextShape(e2, text);
    MessageMarks(e1, text);
    MessageMarks(e2, text);
    var r1, r2 := ValidationErrorToText(e1, text), ValidationErrorToText(e2, text);
    var n := |text|;
    var s1, s2 := r1[n..], r2[n..];
    assert r1 == text + s1 && r2 == text + s2;
    if r1 == r2 {
      assert s1 == s2;
      var k1, k2 := TagKind(e1.tag), TagKind(e2.tag);
      if k1 == k2 && k1 == 1 {
        var w := " cannot be greater than ";
        assert s1[|w|..] == e1.param && s2[|w|..] == e2.param;
      } else if k1 == k2 && k1 == 2 {
        var w := " must be greater than ";
        assert s1[|w|..] == e1.param && s2[|w|..] == e2.param;
      } else if k1 == k2 && k1 == 3 {
        var w := " is not valid ";
        assert s1[|w|..] == e1.value && s2[|w|..] == e2.value;
      }
    }
  }

  /**
   * A message reads "<text> is required" exactly when the error is a
   * `required` one, whatever the parameter and the value of other errors.
   */
  lemma RequiredTextOnlyForRequired(e: FieldError, text: string)
    ensures ValidationErrorToText(e, text) == text + " is required" <==> e.tag == "required"
  {
    ValidationErrorToTextShape(e, text);
    var r, q := ValidationErrorToText(e, text), text + " is required";
    var n := |text|;
    if e.tag != "required" {
      if e.tag == "max" || e.tag == "min" {
        assert r[n + 1] != q[n + 1];
      } else {
        assert r[n + 4] != q[n + 4];
      }
    }
  }
}
