/** The entities of a feature contract: operations, structured warnings, the contract itself. */
module ContractModel {
  import opened Prelude
  import opened JsonSchema

  datatype Severity = Error | Warn

  datatype Status = Complete | Partial | Blocked

  datatype Code =
    | NoModule
    | Empty
    | UnmatchedEndpoint
    | DuplicateOperationId
    | BodyUnknown
    | OpenapiDrift
    | OpenapiMissingOperation
    | OpenapiAmbiguous
    | OpenapiDerivedOperationId
    | OpenapiSchemaUnresolved
    | OpenapiResponseSchemaUnresolved
    | OpenapiErrorSchemaUnresolved
    | OpenapiParametersUnresolved
    | OpenapiSecurityUnresolved
    | UnreflectedPathPrefix
    | OpenapiRequestMediaTypeUnresolved
    | OpenapiDescriptionUnresolved
    | OpenapiUnsupportedAnnotationPresent

  datatype Warning = Warning(code: Code, severity: Severity, subject: Option<string>)

  /** What is known about a request body: `true`, `false` or 'unknown' in the contract. */
  datatype Body = Expected | Absent | Unknown

  datatype Provenance = ScanOnly | ScanSynthesized | ScanAndOpenapi | OpenapiOnly

  datatype Expansion = Expansion(rule: string, line: nat, tag: Option<string>)

  /** Fields copied verbatim from the source document. A security requirement is the set of scheme
      names it lists. */
  datatype Passthrough = Passthrough(
    parameters: Option<Json>,
    security: Option<seq<set<string>>>,
    summary: Option<string>,
    tags: Option<seq<string>>,
    responses: Option<Json>,
    requestBody: Option<Json>,
    description: Option<string>)

  datatype Operation = Operation(
    verb: string,
    path: string,
    pathParams: Schema,
    body: Body,
    provenance: Provenance,
    requestBodySchema: Option<Schema>,
    requestBodyRequired: Option<bool>,
    responseSchema: Option<Schema>,
    errorSchema: Option<Schema>,
    copied: Passthrough,
    pathParamsHeuristic: Option<seq<string>>,
    expansion: Option<Expansion>)

  datatype SourceProvenance = FromNothing | FromScan | FromScanAndOpenapi

  datatype Source = Source(adapter: Option<string>, moduleName: Option<string>, provenance: SourceProvenance)

  datatype Summary = Summary(status: Status, operationCount: nat, endpointCount: nat)

  datatype Contract = Contract(
    featureId: string,
    featureUid: string,
    source: Source,
    securitySchemes: Option<map<string, Json>>,
    operations: map<string, Operation>,
    warnings: seq<Warning>,
    completeness: Summary)
}
