/** The table of warning codes (contracts/completeness.mjs, WARNING_CODES): names and severities. */
module WarningCodes {
  import opened Prelude
  import opened ContractModel

  /** How codes are written in a contract file. */
  type Naming = Code -> string

  /** Names free of colons (so that "code::subject" reads back in one way) and pairwise different. */
  ghost predicate Proper(names: Naming) {
    && (forall c :: ':' !in names(c))
    && (forall c, d :: names(c) == names(d) ==> c == d)
  }

  const CONTRACT := "CONTRACT_"
  const OPENAPI := "CONTRACT_OPENAPI_"
  const UNRESOLVED := "_UNRESOLVED"

  /** The names of the table. */
  function CodeName(c: Code): string {
    match c
    case NoModule => CONTRACT + "NO_MODULE"
    case Empty => CONTRACT + "EMPTY"
    case UnmatchedEndpoint => CONTRACT + "UNMATCHED_ENDPOINT"
    case DuplicateOperationId => CONTRACT + "DUPLICATE_OPERATION_ID"
    case BodyUnknown => CONTRACT + "BODY_UNKNOWN"
    case OpenapiDrift => OPENAPI + "DRIFT"
    case OpenapiMissingOperation => OPENAPI + "MISSING_OPERATION"
    case OpenapiAmbiguous => OPENAPI + "AMBIGUOUS"
    case OpenapiDerivedOperationId => OPENAPI + "DERIVED_OPERATION_ID"
    case OpenapiSchemaUnresolved => OPENAPI + "SCHEMA" + UNRESOLVED
    case OpenapiResponseSchemaUnresolved => OPENAPI + "RESPONSE_SCHEMA" + UNRESOLVED
    case OpenapiErrorSchemaUnresolved => OPENAPI + "ERROR_SCHEMA" + UNRESOLVED
    case OpenapiParametersUnresolved => OPENAPI + "PARAMETERS" + UNRESOLVED
    case OpenapiSecurityUnresolved => OPENAPI + "SECURITY" + UNRESOLVED
    case UnreflectedPathPrefix => CONTRACT + "UNREFLECTED_PATH_PREFIX"
    case OpenapiRequestMediaTypeUnresolved => OPENAPI + "REQUEST_MEDIA_TYPE" + UNRESOLVED
    case OpenapiDescriptionUnresolved => OPENAPI + "DESCRIPTION" + UNRESOLVED
    case OpenapiUnsupportedAnnotationPresent => OPENAPI + "UNSUPPORTED_ANNOTATION_PRESENT"
  }

  ghost function NameLength(c: Code): nat {
    match c
    case NoModule => 18
    case Empty => 14
    case UnmatchedEndpoint => 27
    case DuplicateOperationId => 31
    case BodyUnknown => 21
    case OpenapiDrift => 22
    case OpenapiMissingOperation => 34
    case OpenapiAmbiguous => 26
    case OpenapiDerivedOperationId => 37
    case OpenapiSchemaUnresolved => 34
    case OpenapiResponseSchemaUnresolved => 43
    case OpenapiErrorSchemaUnresolved => 40
    case OpenapiParametersUnresolved => 38
    case OpenapiSecurityUnresolved => 36
    case UnreflectedPathPrefix => 32
    case OpenapiRequestMediaTypeUnresolved => 46
    case OpenapiDescriptionUnresolved => 39
    case OpenapiUnsupportedAnnotationPresent => 47
  }

  /** A name of the right length without a colon. */
  ghost predicate IsClean(c: Code) {
    ':' !in CodeName(c) && |CodeName(c)| == NameLength(c)
  }

  predicate IsSchemaCode(c: Code) {
    c.OpenapiSchemaUnresolved? || c.OpenapiResponseSchemaUnresolved? || c.OpenapiErrorSchemaUnresolved?
  }

  predicate IsCopyCode(c: Code) {
    || c.OpenapiParametersUnresolved? || c.OpenapiSecurityUnresolved?
    || c.OpenapiRequestMediaTypeUnresolved? || c.OpenapiDescriptionUnresolved?
  }

  lemma SchemaNamesAreClean(c: Code)
    requires IsSchemaCode(c)
    ensures IsClean(c)
  {
  }

  lemma CopyNamesAreClean(c: Code)
    requires IsCopyCode(c)
    ensures IsClean(c)
  {
  }

  predicate IsScanCode(c: Code) {
    || c.NoModule? || c.Empty? || c.UnmatchedEndpoint? || c.DuplicateOperationId? || c.BodyUnknown? ||
       c.UnreflectedPathPrefix?
  }

  lemma ScanNamesAreClean(c: Code)
    requires IsScanCode(c)
    ensures IsClean(c)
  {
  }

  lemma OtherNamesAreClean(c: Code)
    requires !IsSchemaCode(c) && !IsCopyCode(c) && !IsScanCode(c)
    ensures IsClean(c)
  {
  }

  lemma NamesAreClean(c: Code)
    ensures IsClean(c)
  {
    if IsSchemaCode(c) {
      SchemaNamesAreClean(c);
    } else if IsCopyCode(c) {
      CopyNamesAreClean(c);
    } else if IsScanCode(c) {
      ScanNamesAreClean(c);
    } else {
      OtherNamesAreClean(c);
    }
  }

  /** The lengths tell all names apart but one pair. */
  lemma LengthsDecide(c: Code, d: Code)
    requires NameLength(c) == NameLength(d) && c != d
    ensures (c, d) in {(OpenapiMissingOperation, OpenapiSchemaUnresolved),
      (OpenapiSchemaUnresolved, OpenapiMissingOperation)}
  {
  }

  lemma TextsDiffer(c: Code, d: Code, s: string, t: string)
    requires |s| == NameLength(c) && |t| == NameLength(d)
    requires (c, d) == (OpenapiMissingOperation, OpenapiSchemaUnresolved) ==> s != t
    requires (c, d) == (OpenapiSchemaUnresolved, OpenapiMissingOperation) ==> s != t
    ensures s == t ==> c == d
  {
    if NameLength(c) == NameLength(d) && c != d {
      LengthsDecide(c, d);
    }
  }

  lemma EqualLengthNames()
    ensures CodeName(OpenapiMissingOperation) != CodeName(OpenapiSchemaUnresolved)
  {
    assert CodeName(OpenapiMissingOperation)[|OPENAPI|] == 'M';
    assert CodeName(OpenapiSchemaUnresolved)[|OPENAPI|] == 'S';
  }

  lemma CodeNamesDiffer(c: Code, d: Code)
    ensures CodeName(c) == CodeName(d) ==> c == d
  {
    NamesAreClean(c);
    NamesAreClean(d);
    EqualLengthNames();
    TextsDiffer(c, d, CodeName(c), CodeName(d));
  }

  lemma TableIsProper()
    ensures Proper(CodeName)
  {
    forall c ensures ':' !in CodeName(c) {
      NamesAreClean(c);
    }
    forall c, d ensures CodeName(c) == CodeName(d) ==> c == d {
      CodeNamesDiffer(c, d);
    }
  }

  function SeverityOf(c: Code): Severity {
    match c
    case NoModule | Empty | UnmatchedEndpoint | DuplicateOperationId => Error
    case OpenapiDrift | OpenapiMissingOperation | OpenapiAmbiguous | UnreflectedPathPrefix => Error
    case _ => Warn
  }

  function MakeWarning(c: Code, subject: Option<string>): Warning {
    Warning(c, SeverityOf(c), subject)
  }
}
