# egg-axios request rewriting, modelled in Dafny

egg-axios wraps the axios HTTP client for egg applications. Before a request
goes to axios, every verb wrapper of `MyAxios` (lib/axios.js) runs the same
rewriting:

- `mappingUrl` substitutes `:key` placeholders of the URL template with
  parameter values. It walks the parameters in for-in order. Each key sees
  the URL as rewritten by the keys before it. A key whose placeholder occurs
  is consumed: every occurrence is replaced by the value's string form. Any
  other key is copied into a residual object.
- delete, get, head and options fold the residual object into the query
  string. They merge it over the URL's existing query with `Object.assign`.
  When the result is an object, they rebuild the URL from the `url.parse`
  components.
- post, put and patch send the residual object as the request body.
- The response interceptor hands a HEAD response over whole and unwraps
  every other response to its body.

The project has five modules:

- `Text` (text.dfy): literal search, left-to-right global replacement,
  ASCII upper-casing and decimal numerals.
- `JsValues` (js_values.dfy): JavaScript values, truthiness, `typeof`,
  `String(v)`, plain objects as ordered property lists, property writes and
  `Object.assign`.
- `UrlMapping` (url_mapping.dfy): `mappingUrl`. There is a recursive
  specification `Substitute` over the key sequence. The method
  `MappingUrl` keeps the source's loop and is proved against that
  specification with loop invariants.
- `Dispatch` (dispatch.dfy): the seven verb wrappers. `url.parse`,
  `querystring.parse` and `querystring.stringify` are uninterpreted
  functions, held in the record `NodeLib`. The wrappers return the call
  axios would receive.
- `ResponseInterceptor` (response_interceptor.dfy): the unwrap decision.

Three behaviours of the code are easy to misread. The model reproduces
each of them as written:

- A reader might expect the URL to be rebuilt only when there are
  parameters to add. The code rebuilds it for every object, the empty one
  included, and the URL then ends in a bare `?`
  (`Dispatch.EmptyResidualTrailingQuestionMark`).
- A reader might expect `host:port` in the rebuilt URL. `url.parse`
  reports a host that already holds the port, and the code appends the port
  again (`Dispatch.PortAppendedTwice`).
- A reader might expect OPTIONS responses to be kept whole, like HEAD
  responses. The code compares the upper-cased method with the lower-case
  `'options'`, which never holds, so they are unwrapped
  (`ResponseInterceptor.OptionsResponseUnwrapped`).

## Model

| member | source | states |
|---|---|---|
| UrlMapping.Substitute | lib/axios.js:18-27 | Defines the for-in loop over the properties in order. Each key is tested against the URL as rewritten so far. A hit replaces every occurrence of `:key` with the value's string form. A miss copies the key and its value into the residual. |
| UrlMapping.MapUrl | lib/axios.js:11-28 | Defines `mappingUrl`'s result: both inputs when the pass-through test at lines 12-17 holds, otherwise the URL and residual object of `Substitute`. |
| Text.Occurs | lib/axios.js:21 | Defines `reg.test(url)` for a literal pattern: the pattern starts at the head or occurs in the tail. |
| Text.ReplaceAll | lib/axios.js:22 | Defines `url.replace(reg, value)` with a `g` literal pattern: left to right, each match replaced, the scan resuming after it. |
| JsValues.ToStr | lib/axios.js:22 | Defines `String(params[key])`, the text the replacement inserts: `undefined`, `null`, `true`/`false`, decimal integers, the string itself, `[object Object]`. |
| JsValues.Truthy | lib/axios.js:12 | Defines JavaScript truthiness (`!params` at line 12, `data &&` at line 74). |
| JsValues.IsObjectType | lib/axios.js:15 | Defines `typeof v === 'object'`, true of `null` and of objects (lines 15 and 74). |
| JsValues.OwnProps | lib/axios.js:71 | Defines the own enumerable properties `Object.assign` copies from `data`: an object's properties, a string's indexed characters, nothing for other primitives. |
| JsValues.SetProp | lib/axios.js:71 | Defines the property write `Object.assign` performs: an existing key keeps its place and takes the new value, a new key is appended. |
| JsValues.Assign | lib/axios.js:71 | Defines `Object.assign(target, source)`: the source's properties written into the target in order. |
| Dispatch.Present | lib/axios.js:70 | Defines the truthiness of a parsed URL component (`urlParse.query`, `urlParse.port`): present and non-empty. |
| Dispatch.Render | lib/axios.js:75 | Defines `${x}` of a parsed component in the template literal, where `null` becomes the text `null`. |
| Dispatch.FoldQuery | lib/axios.js:70-72 | Defines `data` after line 71: the parsed query with the residual assigned over it when the URL has a query string, otherwise the residual. |
| Dispatch.RebuildUrl | lib/axios.js:73-75 | Defines the rebuilt URL `protocol//host[:port]pathname?query`. |
| Dispatch.QueryUrl | lib/axios.js:69-76 | Defines the URL handed to axios: rebuilt when the folded data is truthy and of type object, otherwise the URL as `mappingUrl` returned it. |
| Text.ToUpper | lib/axios.js:55 | Defines `toUpperCase` on ASCII letters. |
| ResponseInterceptor.KeepsWholeResponse | lib/axios.js:55 | Defines the interceptor's condition with both disjuncts as written. |
| UrlMapping.MappingUrl | lib/axios.js:11-28 | Returns both inputs unchanged when the URL is absent or empty, or the parameters are falsy or not of type object. Otherwise it returns exactly the URL and residual object of `Substitute`, the key-by-key rewrite in for-in order (loop invariant). The loop copies carried keys with a property write, as line 24 does. The parameters bind each key once, as a JavaScript object does. |
| UrlMapping.SubstituteStep | lib/axios.js:19-25 | The i-th key sees the URL as rewritten by the keys before it. On a hit every occurrence of `:key` is replaced by the value's string form and the residual is unchanged. On a miss the URL is unchanged and the key with its value is appended to the residual. |
| UrlMapping.SubstituteAppend | lib/axios.js:19-26 | Processing the keys of `a` then those of `b` equals processing `a + b`. The URL threads through and the residuals concatenate. |
| UrlMapping.ResidualIsSubsequence | lib/axios.js:18-27 | The residual object is a subsequence of the input properties. Each carried key keeps its original value, and its keys are a subset of the input keys. |
| UrlMapping.CarriedIff | lib/axios.js:19-25 | For an object with distinct keys, a key is in the residual exactly when `:key` does not occur in the URL as rewritten by the keys processed before it. Otherwise it is consumed. |
| UrlMapping.CarryIsPropertyWrite | lib/axios.js:24 | For an object with distinct keys, writing a carried key into the residual object appends it, since no earlier key bound it. |
| UrlMapping.NoPlaceholderNoChange | lib/axios.js:19-27 | When no key's placeholder occurs in the URL, the URL comes back unchanged and the residual equals the input. |
| UrlMapping.ReplaceAfterPlainPrefix | lib/axios.js:21-22 | When the text before a placeholder holds no `:`, the placeholder is found. The replacement keeps that text, substitutes the value and continues after the match. |
| UrlMapping.EarlierValueCreatesPlaceholder | lib/axios.js:19-22 | Order matters: `/:a` with `{a: ':b', b: 'x'}` gives `/x` and an empty residual, because `a`'s value creates `:b`. |
| UrlMapping.LaterValueLeavesPlaceholder | lib/axios.js:19-24 | With `{b: 'x', a: ':b'}` the result is `/:b` with `b` carried, because `b` is processed before `:b` appears. |
| UrlMapping.SubstringPlaceholderMatch | lib/axios.js:20-22 | Matching is by substring: key `id` consumes the `:id` inside `/:idx`, giving `/1x`. |
| UrlMapping.PlaceholderThenUnmatchedKey | lib/axios.js:19-25 | A URL ending in the first key's placeholder, with no `:` elsewhere, takes the first value, and the second key is carried. |
| UrlMapping.UsersExample | lib/axios.js:11-28 | `/users/:id` with `{id: 7, active: true}` gives `/users/7` and `{active: true}`. |
| Text.ReplaceAtFirstMatch | lib/axios.js:22 | Global replacement is leftmost-first and non-overlapping. Text before the first match is kept, the match becomes the replacement, and the scan resumes right after it. |
| Text.ReplaceAbsent | lib/axios.js:21-22 | Replacing a pattern that does not occur leaves the string unchanged. |
| Text.OccursIffSomeIndex | lib/axios.js:21 | The test for the placeholder holds exactly when it occurs at some index of the URL. |
| Text.UpperHasNoLower | lib/axios.js:55 | An upper-cased method has the same length and holds no lower-case ASCII letter. |
| Text.UpperNeverEquals | lib/axios.js:55 | An upper-cased string never equals a string holding a lower-case ASCII letter. |
| JsValues.Lookup | lib/axios.js:71 | A property lookup finds a value exactly when the key is bound. |
| JsValues.LookupSetProp | lib/axios.js:71 | A property write binds the key to the value and leaves every other key's lookup unchanged. |
| JsValues.SetPropKeepsOrder | lib/axios.js:71 | A property write keeps existing keys in their places, appends a new key, and adds exactly that key. |
| JsValues.AssignLookup | lib/axios.js:71 | After `Object.assign` the source's value wins on every key it binds, the target's other keys keep their values, and no other key is bound. |
| JsValues.AssignKeepsTargetOrder | lib/axios.js:71 | `Object.assign` keeps the target's keys first and in order, and binds exactly the union of the target's and source's keys. |
| JsValues.AssignKeepsDistinct | lib/axios.js:71 | `Object.assign` into an object with distinct keys yields distinct keys. |
| Dispatch.QueryRequest | lib/axios.js:66-79 | Delete, get, head and options fail when the URL is absent, because `url.parse` throws. With `url.parse` modelled as total on strings, that is the only failure. Otherwise they call axios with no body and with the URL that query folding builds from `mappingUrl`'s result. |
| Dispatch.BodyRequest | lib/axios.js:81-86 | Post, put and patch call axios with the URL and the residual object that `mappingUrl` returns, the latter as the body. |
| Dispatch.FoldQueryMerges | lib/axios.js:70-72 | With an existing query string, the data is the parsed query overridden by the residual. The residual wins on a shared key, other query keys survive with their values and keep their places first, and no other key appears. |
| Dispatch.RebuildCondition | lib/axios.js:73-76 | The URL is rebuilt exactly when the URL had a query string or the residual is an object. Otherwise it is passed on unchanged. |
| Dispatch.RebuildDropsSearchAndHash | lib/axios.js:75 | The rebuilt URL copies nothing from the raw search text or fragment of `url.parse`'s result. The parsed query keys come back only through the folded data serialized after `?`. |
| Dispatch.RelativeUrlRendersNull | lib/axios.js:75 | A URL without protocol and host is rebuilt as `null//null<path>?<query>`. |
| Dispatch.PortAppendedTwice | lib/axios.js:73-75 | When `url.parse` reports host `h:p` and port `p`, the rebuilt URL holds `h:p:p`. |
| Dispatch.EmptyResidualTrailingQuestionMark | lib/axios.js:74-75 | An empty residual object still triggers the rebuild. The URL ends in a bare `?` when the serializer renders no properties as the empty string. |
| Dispatch.NewKeyFollowsQuery | lib/axios.js:68-76 | A key that matches no placeholder and is new to the query string is carried, and it is serialized after the existing query keys. |
| Dispatch.PostExample | lib/axios.js:83-84 | `post('/users/:id', {id: 1, name: 'a'})` sends `{name: 'a'}` to `/users/1`. |
| Dispatch.SearchMapping | lib/axios.js:68 | In `get('/search?sort=asc', {q: 'cats'})`, `mappingUrl` leaves the URL unchanged and carries `q`. |
| Dispatch.SearchExample | lib/axios.js:68-75 | That request goes to `null//null/search?` followed by the serialization of `sort=asc` then `q=cats`. |
| ResponseInterceptor.OnResponse | lib/axios.js:55-59 | The whole response is returned exactly when the config is present and the upper-cased method is `HEAD`. Otherwise only the body is returned. |
| ResponseInterceptor.OptionsComparisonNeverHolds | lib/axios.js:55 | The comparison of an upper-cased method with `'options'` is never true. |
| ResponseInterceptor.OptionsResponseUnwrapped | lib/axios.js:55-58 | An OPTIONS response, in any letter case, is unwrapped to its body. |
| ResponseInterceptor.HeadResponseWhole | lib/axios.js:55-56 | A response whose config method is `head` is returned whole. |
| ResponseInterceptor.NoConfigUnwrapped | lib/axios.js:55-58 | A response without a config is unwrapped to its body. |

## Left out

- The HTTP calls `axios[method](...)` (lib/axios.js:77, 84) are network I/O. The wrappers return the call axios would receive (`ClientCall`) instead.
- The per-call `config` argument is passed to axios unchanged and is not modelled.
- `MyAxios.prototype.init` is not modelled. It merges `axios.defaults` with lodash's deep `merge` (lib/axios.js:41), a global mutation inside a foreign library.
- The logging calls and the interceptor registration are not modelled (lib/axios.js:43-51, 53-54, 60-63). They are side effects on the host's loggers.
- Promise rejection in the interceptor error handlers (lib/axios.js:50, 62) is not modelled. It passes the error through.
- The internals of `url.parse`, `querystring.parse` and `querystring.stringify` are uninterpreted. The lemmas that need a concrete result take it as a precondition.
- UrlMapping.MappingUrl: keys must hold no regular-expression metacharacter and string values no `$`. Other keys and values change the meaning of `new RegExp` and of the replacement string, which the model does not capture.
- JsValues.ToStr: a number is rendered with all of its decimal digits. That agrees with `String(n)` only for safe integers, |n| below 2^53. Larger JavaScript numbers are rounded doubles and print as the shortest round-tripping digits, or in exponent form from 1e21 (`1e+21`). The model treats every `Num(n)` as exact.
- Numbers are integers only, so NaN, fractions and infinities are left out. Arrays, functions and symbols are left out too. A function value would be called by `String.prototype.replace`.
- Object properties are listed in enumeration order as given. JavaScript enumerates integer-like keys first in ascending order, and that reordering is not modelled. Inherited enumerable properties that for-in would visit are not modelled either.
- JsValues.OwnProps: strings are modelled as sequences of Unicode scalar values, not of UTF-16 code units. `Object.assign` at line 71 copies one indexed property per code unit, so a string `data` argument with characters above U+FFFF is indexed differently. The model also loses the URIError that `querystring.stringify` raises on the resulting lone surrogates.
- UrlMapping.Substitute: an enumerable own key `__proto__`, as `JSON.parse` can produce, is carried into the residual in the model. At line 24 of the source, `newParams['__proto__'] = v` hits the prototype setter and creates no own property, so the key is not carried.
- Query strings: array values that `querystring.parse` produces are ordinary values in the model.
- Dispatch.QueryRequest: `parseUrl` is modelled as total on strings. Node's `url.parse` also throws `ERR_INVALID_URL` on some present strings, for example when punycode conversion leaves the hostname empty or puts a forbidden host character in it. That throw reaches the caller like the absent-URL error and is not modelled. A URL that is present but not a string (a number, an object) is not modelled either.
- ResponseInterceptor.OnResponse: a config whose `method` is undefined throws a TypeError in the source and is not modelled. The method is always a string.
- Text.ToUpper: only ASCII letters are upper-cased. Full Unicode case mapping is left out. That does not affect the comparison with `'options'`, whose letters are ASCII.
