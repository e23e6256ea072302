/** The data-fetching hooks' option building and the error-message
    extraction shared by every page. */
module UseApi {
  import opened Wrappers
  import opened SharedApi
  import opened ClientApi

  /** A caller option value: `undefined`, a number, or any other value, named. */
  datatype Value = Undefined | Num(n: int) | Ref(name: string)

  /** An object literal: the keys it has, with their values. */
  type Options = map<string, Value>

  const DefaultRetry: int := 1
  const DefaultStaleTimeMs: int := 1000 * 30

  /** `obj.key` for a destructured field: `undefined` when absent. */
  function Field(caller: Options, key: string): Value {
    if key in caller then caller[key] else Undefined
  }

  /** `useApiQuery({ key, fn, ...options })` builds
      `{ queryKey: key, queryFn: fn, retry: 1, staleTime: 30000, ...options }`. */
  function QueryConfig(caller: Options): (config: Options)
    ensures config.Keys == {"queryKey", "queryFn", "retry", "staleTime"} + (caller.Keys - {"key", "fn"})
    ensures "retry" !in caller ==> config["retry"] == Num(1)
    ensures "staleTime" !in caller ==> config["staleTime"] == Num(30000)
    ensures "queryKey" !in caller ==> config["queryKey"] == Field(caller, "key")
    ensures "queryFn" !in caller ==> config["queryFn"] == Field(caller, "fn")
    ensures forall k :: k in caller && k != "key" && k != "fn" ==> config[k] == caller[k]
  {
    var options := caller - {"key", "fn"};
    map["queryKey" := Field(caller, "key"), "queryFn" := Field(caller, "fn"),
        "retry" := Num(DefaultRetry), "staleTime" := Num(DefaultStaleTimeMs)] + options
  }

  /** Caller options win over the defaults, even an explicit `undefined`. */
  lemma CallerOverridesQueryDefaults(caller: Options, retry: Value, staleTime: Value)
    ensures QueryConfig(caller["retry" := retry])["retry"] == retry
    ensures QueryConfig(caller["staleTime" := staleTime])["staleTime"] == staleTime
  {
  }

  /** `useApiMutation({ fn, ...options })` builds `{ mutationFn: fn, ...options }`. */
  function MutationConfig(caller: Options): (config: Options)
    ensures config.Keys == {"mutationFn"} + (caller.Keys - {"fn"})
    ensures "mutationFn" !in caller ==> config["mutationFn"] == Field(caller, "fn")
    ensures forall k :: k in caller && k != "fn" ==> config[k] == caller[k]
  {
    map["mutationFn" := Field(caller, "fn")] + (caller - {"fn"})
  }

  const NoErrorMessage: string := "Something went wrong. Please try again."
  const FallbackMessage: string := "Unable to complete the request."

  /** The `??` candidates in order: `response.data.error`,
      `response.data.message`, `error.message`. */
  function Candidates(e: AxiosError): seq<Option<string>> {
    var data := if e.response.Some? then e.response.value.data else None;
    [ if data.Some? then data.value.error else None,
      if data.Some? then data.value.message else None,
      e.message ]
  }

  /** `a ?? b ?? ... ?? fallback`: the first present value. */
  function FirstPresent(xs: seq<Option<string>>, fallback: string): (r: string)
    ensures (exists i :: 0 <= i < |xs| && xs[i].Some? && xs[i].value == r &&
               forall j :: 0 <= j < i ==> xs[j].None?) ||
            (r == fallback && forall i :: 0 <= i < |xs| ==> xs[i].None?)
  {
    if |xs| == 0 then fallback
    else if xs[0].Some? then xs[0].value
    else
      var r := FirstPresent(xs[1..], fallback);
      assert forall i :: 1 <= i < |xs| ==> xs[i] == xs[1..][i - 1];
      r
  }

  /** `extractApiError`: the generic message without an error; otherwise the
      server's `error`, else its `message`, else the client message, else the
      fallback, skipping only absent values. */
  function ExtractApiError(error: Option<AxiosError>): (msg: string)
    ensures error.None? ==> msg == NoErrorMessage
    ensures error.Some? ==> msg == FirstPresent(Candidates(error.value), FallbackMessage)
  {
    match error
    case None => NoErrorMessage
    case Some(e) =>
      var data := if e.response.Some? then e.response.value.data else None;
      var c := Candidates(e);
      assert c[1..][1..] == [e.message] && [e.message][1..] == [];
      assert FirstPresent(c[1..][1..], FallbackMessage) == e.message.GetOr(FallbackMessage);
      assert c[0].None? ==> FirstPresent(c, FallbackMessage) == FirstPresent(c[1..], FallbackMessage);
      assert c[1..][0].None? ==> FirstPresent(c[1..], FallbackMessage) == FirstPresent(c[1..][1..], FallbackMessage);
      if data.Some? && data.value.error.Some? then data.value.error.value
      else if data.Some? && data.value.message.Some? then data.value.message.value
      else if e.message.Some? then e.message.value
      else FallbackMessage
  }

  /** Empty strings are values, not gaps: an empty server `error` is what
      the page shows, even with a message behind it. */
  lemma EmptyErrorFieldIsReturned(status: int, message: Option<string>, clientMessage: Option<string>)
    ensures ExtractApiError(Some(AxiosError(clientMessage,
      Some(ErrorResponse(status, Some(ApiErrorResponse(Some(""), message, None))))))) == ""
  {
  }

  /** The server's `error` wins over everything else when present. */
  lemma ServerErrorWins(e: AxiosError)
    requires e.response.Some? && e.response.value.data.Some? && e.response.value.data.value.error.Some?
    ensures ExtractApiError(Some(e)) == e.response.value.data.value.error.value
  {
  }
}
