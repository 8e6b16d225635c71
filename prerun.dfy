/**
 * The option check run before the command: every validation error of the
 * options becomes one line naming the flag to set, and the lines, framed by
 * line breaks, are the command's error.
 */
module PreRun {
  import opened Wrappers
  import opened GoStrings
  import opened Validation

  /** How a message names the offending option: by its flags, or as an unknown field. */
  function FlagText(field: string): string
  {
    match field
    case "CQLFile" => "-f or --file"
    case "Keyspace" => "-k or --keyspace"
    case _ => "unknown error field: " + field
  }

  /** The two flagged fields are named by different flags, and never as unknown. */
  lemma FlagTextNames(field: string)
    ensures field == "CQLFile" <==> FlagText(field) == "-f or --file"
    ensures field == "Keyspace" <==> FlagText(field) == "-k or --keyspace"
    ensures field !in ["CQLFile", "Keyspace"] ==>
              |FlagText(field)| >= 21 && FlagText(field)[..21] == "unknown error field: " && FlagText(field)[21..] == field
  {
    var u := "unknown error field: ";
    assert |u| == 21;
    if field !in ["CQLFile", "Keyspace"] {
      assert (u + field)[..2] == "un";
      assert (u + field)[21..] == field;
    }
  }

  /** One message line per validation error, in order. */
  function Messages(errs: seq<FieldError>): seq<string>
  {
    seq(|errs|, i requires 0 <= i < |errs| => ValidationErrorToText(errs[i], FlagText(errs[i].field)))
  }

  /** The command's error for `errs`: none when there are no errors, else the lines between line breaks. */
  function PreRunMessage(errs: seq<FieldError>): Option<string>
  {
    if |errs| == 0 then None else Some("\n" + Join(Messages(errs), "\n") + "\n")
  }

  /**
   * Builds the error from the validation errors: fills one message slot per
   * error, then joins them.
   */
  method BuildPreRunError(errs: seq<FieldError>) returns (err: Option<string>)
    ensures err == PreRunMessage(errs)
  {
    if |errs| == 0 {
      return None;
    }
    var messages := new string[|errs|];
    for i := 0 to |errs|
      invariant messages[..i] == Messages(errs)[..i]
    {
      var text := FlagText(errs[i].field);
      messages[i] := ValidationErrorToText(errs[i], text);
    }
    assert messages[..] == Messages(errs)[..|errs|] == Messages(errs);
    return Some("\n" + Join(messages[..], "\n") + "\n");
  }

  /** `PreRunE`: no error exactly when the file and the keyspace are both set. */
  method PreRunE(o: Options) returns (err: Option<string>)
    ensures err == PreRunMessage(RequiredFieldErrors(o))
    ensures err.None? <==> o.cqlFile != "" && o.keyspace != ""
  {
    var errs := ValidateParams(o);
    err := BuildPreRunError(errs);
  }

  /**
   * Cut at its line breaks, the error is an empty line, then each message in
   * the order of the errors, then an empty line, as long as no message
   * contains a line break itself.
   */
  lemma PreRunMessageLines(errs: seq<FieldError>)
    requires |errs| > 0
    requires forall i :: 0 <= i < |errs| ==> '\n' !in Messages(errs)[i]
    ensures Split(PreRunMessage(errs).value, '\n') == [""] + Messages(errs) + [""]
  {
    SplitFramed(Messages(errs), '\n');
  }

  /**
   * The message lines for the options: the file flag's line when the file is
   * missing, then the keyspace flag's line when the keyspace is missing.
   */
  lemma RequiredMessages(o: Options)
    ensures Messages(RequiredFieldErrors(o))
            == (if o.cqlFile == "" then ["-f or --file" + " is required"] else [])
               + (if o.keyspace == "" then ["-k or --keyspace" + " is required"] else [])
  {
    var f := FieldError("CQLFile", "required", "", o.cqlFile);
    var k := FieldError("Keyspace", "required", "", o.keyspace);
    assert FlagText("CQLFile") == "-f or --file" && FlagText("Keyspace") == "-k or --keyspace";
    assert ValidationErrorToText(f, "-f or --file") == "-f or --file" + " is required";
    assert ValidationErrorToText(k, "-k or --keyspace") == "-k or --keyspace" + " is required";
  }

  /** With only the file missing, the error is the file flag's line between line breaks. */
  lemma PreRunFileMissing(o: Options)
    requires o.cqlFile == "" && o.keyspace != ""
    ensures PreRunMessage(RequiredFieldErrors(o)) == Some("\n" + ("-f or --file" + " is required") + "\n")
  {
    RequiredMessages(o);
    assert Join(["-f or --file" + " is required"], "\n") == "-f or --file" + " is required";
  }

  /** With both missing, the error has the file line, then the keyspace line. */
  lemma PreRunBothMissing(o: Options)
    requires o.cqlFile == "" && o.keyspace == ""
    ensures PreRunMessage(RequiredFieldErrors(o))
            == Some("\n" + ("-f or --file" + " is required" + "\n" + ("-k or --keyspace" + " is required")) + "\n")
  {
    RequiredMessages(o);
    var m := ["-f or --file" + " is required", "-k or --keyspace" + " is required"];
    assert m[1..] == ["-k or --keyspace" + " is required"];
    assert Join(m, "\n") == m[0] + "\n" + m[1];
  }
}
