/** The JSON-RPC error taxonomy: the `ErrorCode` enum, the `Error` value
    and its envelope (error.h, error.cpp, and the same code in
    src/error-inl.h). */
module Errors {
  import opened Json

  /** The `ErrorCode` enumerators; JSON-RPC 2.0 section 5.1 fixes the
      negative ones, 0 is the library's "no error" sentinel. */
  const NO_ERROR: int32 := 0
  const PARSE_ERROR: int32 := -32700
  const INVALID_REQUEST: int32 := -32600
  const METHOD_NOT_FOUND: int32 := -32601
  const INVALID_PARAMS: int32 := -32602
  const INTERNAL_ERROR: int32 := -32603

  const PARSE_ERROR_TEXT: string := "Invalid JSON was received by the server."
  const INVALID_REQUEST_TEXT: string := "The JSON sent is not a valid Request object."
  const METHOD_NOT_FOUND_TEXT: string := "The method does not exist / is not available."
  const INVALID_PARAMS_TEXT: string := "Invalid method parameter(s)."

  /** `Error(code, desc)` stores both fields verbatim; this constructor is
      that two-argument constructor. */
  datatype Error = Error(code: int32, desc: string)

  /** The codes for which `Error(code)` has a description of its own. */
  predicate IsDescribed(code: int32)
  {
    code == PARSE_ERROR || code == INVALID_REQUEST
    || code == METHOD_NOT_FOUND || code == INVALID_PARAMS
  }

  /** `Error(ErrorCode code)`: the switch that fills in the description.
      INTERNAL_ERROR shares the `default` arm and, like every unlisted
      code, falls through to NO_ERROR with an empty description. */
  function FromCode(code: int32): (e: Error)
    ensures IsDescribed(code) ==> e.code == code && |e.desc| > 0
    ensures !IsDescribed(code) ==> e == Error(NO_ERROR, "")
    ensures e.code == code <==> (IsDescribed(code) || code == NO_ERROR)
  {
    if code == PARSE_ERROR then Error(code, PARSE_ERROR_TEXT)
    else if code == INVALID_REQUEST then Error(code, INVALID_REQUEST_TEXT)
    else if code == METHOD_NOT_FOUND then Error(code, METHOD_NOT_FOUND_TEXT)
    else if code == INVALID_PARAMS then Error(code, INVALID_PARAMS_TEXT)
    else Error(NO_ERROR, "")
  }

  /** `Error()`: the default argument of the one-argument constructor. */
  function Default(): (e: Error)
    ensures e.code == NO_ERROR && e.desc == ""
  {
    FromCode(NO_ERROR)
  }

  /** The four described codes get four different descriptions, so the
      description alone tells which standard error was built. */
  lemma DescriptionsDistinct(c1: int32, c2: int32)
    requires IsDescribed(c1) && IsDescribed(c2)
    ensures FromCode(c1).desc == FromCode(c2).desc <==> c1 == c2
  {
  }

  /** Rebuilding an error from the code `Error(c)` ended with changes
      nothing: the table is idempotent. */
  lemma FromCodeIdempotent(c: int32)
    ensures FromCode(FromCode(c).code) == FromCode(c)
  {
  }

  /** INTERNAL_ERROR is a standard code, yet the one-argument constructor
      turns it into NO_ERROR, while the two-argument one keeps it. */
  lemma InternalErrorCollapses(desc: string)
    ensures FromCode(INTERNAL_ERROR) == Error(NO_ERROR, "")
    ensures Error(INTERNAL_ERROR, desc).code == INTERNAL_ERROR
  {
  }

  /** `operator QVariantMap`: the error response envelope, without `id`
      and without `data`. */
  function ToMap(e: Error): (v: Value)
    ensures v.Map? && v.fields.Keys == {"jsonrpc", "error"}
    ensures v.fields["jsonrpc"] == String("2.0")
    ensures v.fields["error"].Map? && v.fields["error"].fields.Keys == {"code", "message"}
    ensures v.fields["error"].fields["code"] == Int(e.code)
    ensures v.fields["error"].fields["message"] == String(e.desc)
  {
    Map(map["jsonrpc" := String("2.0"),
             "error" := Map(map["code" := Int(e.code), "message" := String(e.desc)])])
  }

  /** Reading an error envelope back: the code and message of its `error`
      object, when both have the right types. */
  function ErrorOf(v: Value): Option<Error>
  {
    if v.Map? && "error" in v.fields && v.fields["error"].Map?
       && "code" in v.fields["error"].fields && v.fields["error"].fields["code"].Int?
       && "message" in v.fields["error"].fields && v.fields["error"].fields["message"].String?
    then Some(Error(v.fields["error"].fields["code"].i, v.fields["error"].fields["message"].s))
    else None
  }

  /** The envelope loses nothing: the error can be read back from it. */
  lemma ToMapRoundTrip(e: Error)
    ensures ErrorOf(ToMap(e)) == Some(e)
  {
  }
}
