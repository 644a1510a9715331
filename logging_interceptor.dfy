/**
 * The request-body masking of the logging interceptor: a shallow copy of the
 * body in which each sensitive key that is present reads "******".
 */
module LoggingInterceptor {

  /** A parsed JSON request body value. */
  datatype Json =
    | JNull
    | JBool(b: bool)
    | JNumber(n: real)
    | JString(s: string)
    | JArray(items: seq<Json>)
    | JObject(fields: map<string, Json>)

  /** The keys whose values never reach the log. */
  const SensitiveFields: seq<string> := ["password", "token", "secret", "credit_card", "creditCard"]

  /** What a sensitive value is replaced with. */
  const Mask: Json := JString("******")

  /** The body as it is logged: sensitive keys masked, everything else as it was. */
  function Masked(body: map<string, Json>): map<string, Json> {
    map k | k in body :: if k in SensitiveFields then Mask else body[k]
  }

  /** `sanitizeBody`: copies the body, then overwrites each listed key that is present.
      The input map is a value, so the caller's body is untouched. */
  method SanitizeBody(body: map<string, Json>) returns (sanitized: map<string, Json>)
    ensures sanitized.Keys == body.Keys
    ensures forall k :: k in body && k in SensitiveFields ==> sanitized[k] == Mask
    ensures forall k :: k in body && k !in SensitiveFields ==> sanitized[k] == body[k]
    ensures sanitized == Masked(body)
  {
    sanitized := body;
    for i := 0 to |SensitiveFields|
      invariant sanitized.Keys == body.Keys
      invariant forall k :: k in body ==> sanitized[k] == if k in SensitiveFields[..i] then Mask else body[k]
    {
      var field := SensitiveFields[i];
      if field in sanitized {
        sanitized := sanitized[field := Mask];
      }
    }
    assert SensitiveFields[..|SensitiveFields|] == SensitiveFields;
  }

  /** Masking an already masked body changes nothing. */
  lemma MaskedIdempotent(body: map<string, Json>)
    ensures Masked(Masked(body)) == Masked(body)
  {
  }

  /** Masking only replaces values with the mask: a body holding no sensitive key is
      logged as it is. */
  lemma MaskedIdentityWithoutSensitiveKeys(body: map<string, Json>)
    requires forall k :: k in body ==> k !in SensitiveFields
    ensures Masked(body) == body
  {
  }
}
