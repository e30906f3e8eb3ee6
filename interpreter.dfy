/**
 * `get_gemini_response` (app.py lines 20-45): checks for the API credential,
 * asks the language model to interpret one command, cleans the reply and
 * decodes it as a JSON object. Every failure comes back as a one-entry map
 * whose key is "error"; the caller (app.py line 64) treats any map holding
 * that key as a failure.
 *
 * The model service and the JSON decoder are not part of this model; they
 * are parameters:
 *   - `generate(apiKey, command)` stands for `genai.configure`,
 *     `GenerativeModel('gemini-pro')`, the prompt that embeds the command,
 *     `generate_content` and reading `response.text`; it returns the text or
 *     the message of the exception any of these raised;
 *   - `decode(text)` stands for `json.loads`; it returns the decoded object or
 *     the message of the exception it raised.
 */
module Interpreter {
  import opened Cleaning

  /** A decoded JSON value. Only integral numbers are modelled. */
  datatype Json =
    | JNull
    | JBool(b: bool)
    | JInt(n: int)
    | JString(s: string)
    | JArray(items: seq<Json>)
    | JObject(members: map<string, Json>)

  /** A Python dict with string keys, as `json.loads` returns for an object. */
  type Dict = map<string, Json>

  datatype Generated = Text(text: string) | GenerateRaised(message: string)

  datatype Decoded = Decoded(value: Dict) | DecodeRaised(message: string)

  /** What `get_gemini_response` returns: an error map, or the decoded object. */
  datatype Reply = ErrorReply(message: string) | Parsed(value: Dict)

  const ApiKeyName: string := "GEMINI_API_KEY"
  const MissingKeyMessage: string := "Critical: API Key not found in Secrets!"
  const ErrorKey: string := "error"

  /** The Python dict the reply stands for. */
  function AsDict(reply: Reply): Dict {
    match reply
    case ErrorReply(message) => map[ErrorKey := JString(message)]
    case Parsed(value) => value
  }

  /**
   * The caller's test `"error" in result`: every error reply fails it, and so
   * does a decoded object that happens to carry an "error" key.
   */
  predicate IsFailure(reply: Reply)
    ensures IsFailure(reply) <==> reply.ErrorReply? || ErrorKey in reply.value
  {
    ErrorKey in AsDict(reply)
  }

  /**
   * `get_gemini_response(command)` with the secrets `secrets`. Without the
   * credential the missing-key error comes back; a decoded reply is only
   * possible once the credential is there, the model answered, and the
   * decoder accepted the cleaned answer.
   */
  function Interpret(secrets: map<string, string>, command: string,
                     generate: (string, string) -> Generated,
                     decode: string -> Decoded): (r: Reply)
    ensures ApiKeyName !in secrets ==> r == ErrorReply(MissingKeyMessage)
    ensures r.Parsed? ==>
              && ApiKeyName in secrets
              && generate(secrets[ApiKeyName], command).Text?
              && decode(Clean(generate(secrets[ApiKeyName], command).text)) == Decoded(r.value)
  {
    if ApiKeyName !in secrets then
      ErrorReply(MissingKeyMessage)
    else
      match generate(secrets[ApiKeyName], command)
      case GenerateRaised(message) => ErrorReply(message)
      case Text(text) =>
        match decode(Clean(text))
        case DecodeRaised(message) => ErrorReply(message)
        case Decoded(value) => Parsed(value)
  }

  /**
   * The Python value `get_gemini_response` returns, case by case: the
   * one-entry map `{"error": message}` with the missing-key message, the
   * model service's message or the decoder's message, or else exactly the
   * object the decoder made of the cleaned answer.
   */
  lemma ResultDict(secrets: map<string, string>, command: string,
                   generate: (string, string) -> Generated, decode: string -> Decoded)
    ensures var d := AsDict(Interpret(secrets, command, generate, decode));
            && (ApiKeyName !in secrets ==> d == map[ErrorKey := JString(MissingKeyMessage)])
            && (ApiKeyName in secrets && generate(secrets[ApiKeyName], command).GenerateRaised? ==>
                  d == map[ErrorKey := JString(generate(secrets[ApiKeyName], command).message)])
            && (ApiKeyName in secrets && generate(secrets[ApiKeyName], command).Text? ==>
                  var answer := decode(Clean(generate(secrets[ApiKeyName], command).text));
                  && (answer.DecodeRaised? ==> d == map[ErrorKey := JString(answer.message)])
                  && (answer.Decoded? ==> d == answer.value))
  {
  }

  /**
   * Without the credential nothing else is consulted: whatever the model
   * service and the decoder would do, the reply is the same missing-key
   * failure, so neither is ever called.
   */
  lemma MissingKeyCallsNothing(secrets: map<string, string>, command: string,
                               generate1: (string, string) -> Generated, decode1: string -> Decoded,
                               generate2: (string, string) -> Generated, decode2: string -> Decoded)
    requires ApiKeyName !in secrets
    ensures Interpret(secrets, command, generate1, decode1) == Interpret(secrets, command, generate2, decode2)
    ensures IsFailure(Interpret(secrets, command, generate1, decode1))
  {
  }

  /** An exception from the model service is reported as a failure carrying its message. */
  lemma ServiceErrorIsFailure(secrets: map<string, string>, command: string,
                              generate: (string, string) -> Generated, decode: string -> Decoded)
    requires ApiKeyName in secrets && generate(secrets[ApiKeyName], command).GenerateRaised?
    ensures Interpret(secrets, command, generate, decode) == ErrorReply(generate(secrets[ApiKeyName], command).message)
    ensures IsFailure(Interpret(secrets, command, generate, decode))
  {
  }

  /**
   * A reply the decoder rejects after cleaning (such as "I cannot process
   * this.") is reported as a failure carrying the decoder's message.
   */
  lemma MalformedReplyIsFailure(secrets: map<string, string>, command: string,
                                generate: (string, string) -> Generated, decode: string -> Decoded)
    requires ApiKeyName in secrets && generate(secrets[ApiKeyName], command).Text?
    requires decode(Clean(generate(secrets[ApiKeyName], command).text)).DecodeRaised?
    ensures Interpret(secrets, command, generate, decode)
            == ErrorReply(decode(Clean(generate(secrets[ApiKeyName], command).text)).message)
    ensures IsFailure(Interpret(secrets, command, generate, decode))
  {
  }

  /**
   * The decoder only ever sees cleaned text: two decoders that agree on
   * every text without "```" and without whitespace at its ends give the
   * same reply.
   */
  lemma DecoderSeesOnlyCleanText(secrets: map<string, string>, command: string,
                                 generate: (string, string) -> Generated,
                                 decode1: string -> Decoded, decode2: string -> Decoded)
    requires forall t :: !Occurs(t, Fence) && Unpadded(t) ==> decode1(t) == decode2(t)
    ensures Interpret(secrets, command, generate, decode1) == Interpret(secrets, command, generate, decode2)
  {
    if ApiKeyName in secrets && generate(secrets[ApiKeyName], command).Text? {
      var cleaned := Clean(generate(secrets[ApiKeyName], command).text);
      assert decode1(cleaned) == decode2(cleaned);
    }
  }

  /**
   * A reply fenced as "```json\n" + payload + "\n```" hands the decoder
   * exactly the payload, so the result is what decoding the bare payload
   * gives.
   */
  lemma FencedReplyDecodesPayload(secrets: map<string, string>, command: string,
                                  generate: (string, string) -> Generated, decode: string -> Decoded,
                                  payload: string)
    requires ApiKeyName in secrets
    requires generate(secrets[ApiKeyName], command) == Text(JsonFence + ("\n" + payload + "\n") + Fence)
    requires !Occurs(payload, Fence) && Unpadded(payload)
    ensures decode(payload).Decoded? ==> Interpret(secrets, command, generate, decode) == Parsed(decode(payload).value)
    ensures decode(payload).DecodeRaised? ==> Interpret(secrets, command, generate, decode) == ErrorReply(decode(payload).message)
  {
    CleanFencedPayload(payload);
  }

  /** A decoded object that itself has an "error" key is treated as a failure. */
  lemma DecodedErrorKeyIsFailure(secrets: map<string, string>, command: string,
                                 generate: (string, string) -> Generated, decode: string -> Decoded)
    requires Interpret(secrets, command, generate, decode).Parsed?
    requires ErrorKey in Interpret(secrets, command, generate, decode).value
    ensures IsFailure(Interpret(secrets, command, generate, decode))
  {
  }
}
