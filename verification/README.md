# download-url plugin: a Dafny model

This project models the pure logic of the swagger-ui `download-url` plugin
(`src/core/plugins/download-url.js`). The plugin fetches an API description
document, decorates the outgoing request with the user's authorized security
credentials, and publishes the loading status, the document text and the URL
into the spec state.

The Dafny modules follow the parts of that file:

- `Security` (`security.dfy`) models `applySecurities`. It is a fold, in sequence
  order, over the authorized activations. An `apiKey` activation writes its value
  under the scheme's `name`: into `query` when `in` is `"query"`, into `headers`
  otherwise. A `basic` activation writes `headers.authorization`: a truthy
  `value.header` verbatim, or else `Basic ` followed by the Base64 form of
  `username:password` (section 2 of RFC 7617). An `oauth2` activation writes
  `<token_type or Bearer> <access_token>` (section 2.1 of RFC 6750), reading both
  parts from `token` only. Every other scheme type is ignored.
- `Base64` (`base64.dfy`) is the encoding `btoa` applies, as in section 4 of
  RFC 4648. It comes with a decoder and a proof that decoding inverts encoding.
- `Download` (`download.dfy`) models the `download` action and its `next`
  continuation. The function returns the sequence of intents the action emits:
  status changes, the fetch of the decorated request, the error report, and the
  spec and URL updates. The settled fetch outcome is an input.
- `LoadingStatus` (`loading_status.dfy`) models the `updateLoadingStatus` action
  creator, the `spec_update_loading_status` reducer and the `loadingStatus` selector.
- `Js` (`js.dfy`) and `Wrappers` (`wrappers.dfy`) hold the JavaScript notions the
  source relies on. A missing property is `None`. A string is truthy when it is
  present and non-empty. A template literal renders a missing property as
  `undefined`.

Three behaviours of the code are easy to miss:

- For `oauth2`, the code reads the access token and the token type only from
  `token.access_token` and `token.token_type`. It has no fallback to the
  activation's `value`. Without a `token`, the header is `Bearer undefined`.
- On failure, the reported message is `res.statusText + " " + url`. A rejected
  fetch delivers an `Error`, which normally has no `statusText`, so the message
  then starts with `undefined`. It does not start with the error's own message.
- A `basic` activation whose `value` object lacks `username` or `password`
  still gets a header: the missing field is interpolated as the text
  `undefined`, as in `Basic ` plus the Base64 of `undefined:undefined`. An
  activation with no `value` at all is a different case, listed under "Left out".

## Model

| member | source | states |
|---|---|---|
| Security.Step | src/core/plugins/download-url.js:54-67 | One activation writes exactly the entries `Writes` names, with the value `Written` gives. An `apiKey` writes into query exactly when `in` is `"query"` and into headers otherwise. `basic` and `oauth2` write `authorization`. Every other entry of both maps keeps its presence and value. An unknown type leaves the request unchanged. |
| Security.KeyText | src/core/plugins/download-url.js:57 | An apiKey string value is stored unchanged. |
| Security.BasicAuthorization | src/core/plugins/download-url.js:58-64 | A truthy `value.header` is used verbatim. Otherwise the header starts with `Basic `, and the rest Base64-decodes to the bytes of `${username}:${password}`. |
| Security.BasicCredentialRecovered | src/core/plugins/download-url.js:58-64 | For Latin-1 username and password and no truthy preset header, the credential decodes back to exactly `username:password`. |
| Security.OAuthAuthorization | src/core/plugins/download-url.js:51-66 | The header is `<type> <access token>`, both read from `token`. The type is `Bearer` when the token or its truthy `token_type` is missing. A missing access token renders as `undefined`. |
| Security.Fold | src/core/plugins/download-url.js:46-68 | Applying the activations never changes `url`, `loadSpec` or `credentials`. |
| Security.ApplySecurities | src/core/plugins/download-url.js:40-70 | The decorated request keeps the input's `url`, `loadSpec` and `credentials`. |
| Security.FoldAppend | src/core/plugins/download-url.js:46-68 | Applying `a + b` is applying `a`, then applying `b` to the result. |
| Security.FoldFirst | src/core/plugins/download-url.js:46 | The first activation is applied first, and the rest are applied to its result. |
| Security.LastWriteWins | src/core/plugins/download-url.js:46-68 | If activation `i` writes a key and no later activation writes it, the result holds what activation `i` wrote. |
| Security.UnwrittenKept | src/core/plugins/download-url.js:46-68 | A key no activation writes keeps its presence and value from the input. |
| Security.FoldKeys | src/core/plugins/download-url.js:41-68 | A key is in a decorated map exactly when it was in the input map or some activation writes it. |
| Security.DecoratedKeys | src/core/plugins/download-url.js:41-68 | A key is in the decorated `headers` or `query` exactly when it was in the input map or some activation writes it. An absent input map counts as empty. A key no activation writes keeps its value. |
| Security.UnknownIsNoOp | src/core/plugins/download-url.js:54-67 | Inserting an activation of an unknown scheme type anywhere in the sequence does not change the result. |
| Base64.Encode | src/core/plugins/download-url.js:62 | The encoding is four characters for every started group of three bytes. |
| Base64.Latin1 | src/core/plugins/download-url.js:62 | The credential text becomes one byte per character, and a Latin-1 character becomes its own code. |
| Base64.RoundTrip | src/core/plugins/download-url.js:62 | Decoding the Base64 encoding of any byte sequence gives back exactly that sequence. |
| Base64.Latin1RoundTrip | src/core/plugins/download-url.js:62 | Converting Latin-1 text to bytes loses nothing. |
| Base64.CredentialExample | src/core/plugins/download-url.js:62 | The credential `u:p` encodes to `dTpw`. |
| Base64.PaddedVectors | src/core/plugins/download-url.js:62 | The test vectors of section 10 of RFC 4648 with padding hold: `f` encodes to `Zg==` and `fo` to `Zm8=`. |
| Base64.WholeGroupsVector | src/core/plugins/download-url.js:62 | The test vector `foobar` encodes to `Zm9vYmFy`, as in section 10 of RFC 4648. |
| Download.EffectiveUrl | src/core/plugins/download-url.js:14 | The explicit URL is used when it is truthy. Otherwise the configured URL is used. |
| Download.SpecRequest | src/core/plugins/download-url.js:17-26 | The fetched request has the effective URL, `loadSpec` true and credentials `same-origin`. |
| Download.FetchedRequest | src/core/plugins/download-url.js:17-26 | The `Accept: application/json,*/*` header survives unless an activation writes `Accept`. Every query entry comes from an apiKey activation with `in: query`. |
| Download.Complete | src/core/plugins/download-url.js:30-38 | The continuation emits the terminal status first: `failed` when the outcome is an error or a status of 400 or more, `success` otherwise. After that it emits no status change. On failure the only other intent is the error `statusText + " " + url`. On success the others are the spec text update, then the URL update. |
| Download.Download | src/core/plugins/download-url.js:12-38 | `loading` comes first. The fetch follows, and its request is exactly the base request for the effective URL (`loadSpec` true, credentials `same-origin`, `Accept: application/json,*/*`) decorated with the authorized activations. On failure the trace ends with `failed` and the error `statusText + " " + url`. On success it ends with `success`, the spec text update and the URL update. Exactly one `loading` and exactly one terminal status are emitted, and the terminal is `failed` exactly when the fetch failed. No later status change follows. A failure publishes no spec or URL. |
| Download.DownloadSettles | src/core/plugins/download-url.js:15-37 | After a download's intents go through the action creator and the reducer, the selector reads `failed` or `success` according to the outcome, whatever the state held before. |
| Download.NotFoundExample | src/core/plugins/download-url.js:33 | A 404 `Not Found` response for `http://x/spec.json` reports `Not Found http://x/spec.json`. |
| LoadingStatus.UpdateLoadingStatus | src/core/plugins/download-url.js:74-84 | The action is always `spec_update_loading_status` with the status unchanged. A diagnostic is logged exactly when the status is not one of `null`, `loading`, `failed`, `success` or `failedConfig`. |
| LoadingStatus.Reduce | src/core/plugins/download-url.js:88-92 | A string payload is stored. Any other payload, `null` included, leaves the state unchanged. |
| LoadingStatus.Select | src/core/plugins/download-url.js:95-101 | The selector returns the stored status when it is non-empty. It returns `null` when the state or the slot is missing or the slot is empty. |
| LoadingStatus.UpdateThenSelect | src/core/plugins/download-url.js:74-101 | After an update, the selector reads back any non-empty string status, recognised or not. An empty string reads `null`. `null` and `undefined` leave the reading unchanged. |
| LoadingStatus.UnrecognisedStillApplied | src/core/plugins/download-url.js:74-92 | An unrecognised string status is logged and still stored. |

## Left out

- The network call and the Promise plumbing (`fetch(...).then(next, next)`): the settled outcome is the `FetchResult` input of `Download.Download`. The model has no timeout, cancellation or retry, and neither does the source.
- The store and selector wiring: `specSelectors.url()` and `authSelectors.authorized()` become parameters. `reselect` memoisation, the Immutable `Map` and the plugin registration object are left out. The spec state is reduced to its loading-status slot.
- `errActions.newThrownErr(new Error(...))`: only the message text is modelled, as the `ReportError` intent.
- `console.error`: modelled as the diagnostic text the action creator returns, not as output.
- Aliasing and mutation: `assign` makes a shallow copy, so the source writes into the caller's `headers` object, and it stores `value.base64` back onto the activation. The model is pure and claims nothing about the source's input being preserved.
- Overlapping `download` calls: the model describes one call. How the intents of concurrent calls interleave in the store is outside it.
- Base64.Latin1: for characters above U+00FF the model keeps the low eight bits of the character code. What the `btoa` package does with such characters is not part of this model.
- Security.Step: an apiKey scheme named `__proto__` is written in the model like any other name. In the source, `headers` and `query` are ordinary objects, so the assignment at download-url.js:57 goes to the inherited `__proto__` setter instead. That setter ignores a non-object value, and no entry is added. The model's maps have no inherited properties, so `Writes`, `FoldKeys` and `DecoratedKeys` count that key as written.
- Security.KeyText: an apiKey value that is an object is stored by the source as the object itself. The model's maps hold strings, so it stores the object's JavaScript string form `[object Object]`.
- Security.BasicAuthorization: an activation whose `value` is missing makes the source throw on `value.header`. A plain-string `value` makes the write-back of `value.base64` throw in strict mode. The model has no missing value and treats a plain string as an object without fields.
- Download.Download: an activation without a `value` cannot be expressed in the model. With such an activation, the source computes `value.header` (download-url.js:59) and throws for `basic`, or stores `undefined` under the key name for `apiKey` (:57). A `basic` activation whose `value` is a plain string can be expressed (as `Security.Raw`), but without a truthy preset header the source throws on it too: the module runs in strict mode, and the write of `value.base64` to a string primitive at :62 throws. A throw happens after `loading` has been dispatched (:15) and before the fetch (:28), so that download emits no fetch and no terminal status. The model emits both. The promise of a fetch and exactly one terminal status holds only for activations on which the source does not throw.
- JavaScript `null` in credential and token fields renders as `null` in the source. The model's missing fields are `undefined` only. Scheme `name` is always present in the model.
- LoadingStatus.Payload covers `null`, `undefined` and strings. Numbers and objects as statuses behave like `undefined` in the reducer, and their diagnostic text is not modelled.
