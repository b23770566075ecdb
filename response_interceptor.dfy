/**
  The decision of the response interceptor registered in `MyAxios.init`
  (lib/axios.js): hand the caller the whole response, or only its body.

  As written, the condition compares the upper-cased request method with
  'HEAD' and with 'options'. An upper-cased string holds no lower-case
  letter, so the second comparison is never true: only HEAD responses are
  handed over whole, and OPTIONS responses are unwrapped like every other.
 */
module ResponseInterceptor {
  import opened Text
  import opened JsValues

  /** The request configuration the client attaches to a response. */
  datatype RequestConfig = RequestConfig(httpMethod: string)

  /** A client response carrying a body of type `T`. */
  datatype Response<T> = Response(data: T, status: int, config: Option<RequestConfig>)

  /** What the interceptor resolves with. */
  datatype Delivered<T> = WholeResponse(response: Response<T>) | BodyOnly(data: T)

  /** The condition of the interceptor, both disjuncts as written. */
  predicate KeepsWholeResponse<T>(response: Response<T>) {
    response.config.Some? &&
      (ToUpper(response.config.value.httpMethod) == "HEAD" || ToUpper(response.config.value.httpMethod) == "options")
  }

  /** The comparison with 'options' can never hold. */
  lemma OptionsComparisonNeverHolds<T>(response: Response<T>)
    ensures response.config.Some? ==> ToUpper(response.config.value.httpMethod) != "options"
  {
    if response.config.Some? {
      UpperNeverEquals(response.config.value.httpMethod, "options", 0);
    }
  }

  /** The success handler of the response interceptor, less its logging. */
  function OnResponse<T>(response: Response<T>): (r: Delivered<T>)
    ensures r.WholeResponse? <==>
      response.config.Some? && ToUpper(response.config.value.httpMethod) == "HEAD"
    ensures r.WholeResponse? ==> r.response == response
    ensures r.BodyOnly? ==> r.data == response.data
  {
    OptionsComparisonNeverHolds(response);
    if KeepsWholeResponse(response) then WholeResponse(response) else BodyOnly(response.data)
  }

  /** An OPTIONS response, whatever the case of its method, is unwrapped to its body. */
  lemma OptionsResponseUnwrapped<T>(response: Response<T>)
    requires response.config.Some? && ToUpper(response.config.value.httpMethod) == "OPTIONS"
    ensures OnResponse(response) == BodyOnly(response.data)
  {
  }

  /** A response to `head` (as the client records the method) is handed over whole. */
  lemma HeadResponseWhole<T>(response: Response<T>)
    requires response.config == Some(RequestConfig("head"))
    ensures OnResponse(response) == WholeResponse(response)
  {
    assert ToUpper("head") == "HEAD" by {
      assert "head"[1..] == "ead" && "ead"[1..] == "ad" && "ad"[1..] == "d" && "d"[1..] == "";
    }
  }

  /** A response without a configuration is unwrapped to its body. */
  lemma NoConfigUnwrapped<T>(response: Response<T>)
    requires response.config.None?
    ensures OnResponse(response) == BodyOnly(response.data)
  {
  }
}
