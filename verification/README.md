# Broker controller model

A Dafny model of the request-handling core of an XML-to-JSON broker web API. The broker
takes a target URL from the inbound `Url` header. It forwards the caller's headers to that
URL and returns the downstream JSON answer converted to XML.

- `GET /Broker` fetches the target.
- `POST /Broker` wraps the XML body in a synthetic `<root>` element, converts it to JSON, cuts
  the synthetic `"root"` key off by slicing the text, and posts the result.
- Both verbs answer NotFound when the converted answer is null, and Ok with the XML otherwise.
  Every exception is logged and re-raised unchanged.

Modules:

- `Wrappers` (`Wrappers.dfy`): `Option` stands for a C# null and `Result` for an exception.
- `Headers` (`Headers.dfy`): the header-forwarding filter. `Host`, `Content-Type` and
  `Content-Length` are dropped by ordinal name comparison. Every other header is added in
  order, and then one `Accept: application/json` entry is added. The model lists these `Add`
  calls in order; the client merges values added under one name into a single entry. The outbound client starts
  out holding a single `Accept: application/json` entry, added when the client is created.
- `Body` (`Body.dfy`): the POST body text. It covers wrapping in `<root>…</root>`, an ordinal
  `IndexOf`, `Substring` and `Remove` with their out-of-range exception, and the strip that
  removes the outer JSON key.
- `Broker` (`Broker.dfy`): the two endpoints, the `Url` lookup, the null-URL default on GET,
  and the NotFound/Ok decision.

The library and network steps are function parameters of the handlers:

- `toJson` stands for `XElement.Parse` followed by `JsonConvert.SerializeXNode`.
- `exchange` stands for building the `Uri`, the HTTP call, reading the response and
  `JsonConvert.DeserializeXmlNode`.

Each of these returns a `Result`, so the model covers their failures without interpreting them.

Facts about the forwarding rule that the lemmas make explicit:

- The caller's `Accept` header is copied like any other, and one more
  `Accept: application/json` is appended (`AcceptAppendedNotReplaced`).
- `Content-Type` and `Content-Length` are dropped on both verbs, as well as `Host`.
- Names are compared ordinally, so a header enumerated under the key `host` is forwarded
  (`OrdinalComparison`).
- The `Url` header is forwarded to the target too.

## Model

| member | source | states |
|---|---|---|
| Headers.PopulateHeaders | BrokerController.cs:108-131 | The foreach loop produces the defaults, then the kept inbound headers in order, then one `Accept: application/json`. The length is defaults + kept + 1, and nothing after the defaults is named `Host`, `Content-Type` or `Content-Length`. |
| Headers.KeptPositions | BrokerController.cs:112-122 | The kept positions are strictly ascending. They are exactly the positions whose header is not dropped. |
| Headers.KeptIsSelection | BrokerController.cs:112-122 | The k-th forwarded header is the inbound header at the k-th kept position. So every non-dropped header is forwarded once, unchanged, in its relative order, and nothing else is added. |
| Headers.KeptMultiplicity | BrokerController.cs:112-122 | A header occurs among the forwarded ones as often as it occurs inbound, or never if its name is dropped. |
| Headers.KeptPreservesOrder | BrokerController.cs:112-122 | Two kept inbound headers, i before j, are forwarded with hs[i] before hs[j]. |
| Headers.KeptAppend | BrokerController.cs:112-122 | Filtering a concatenation equals concatenating the filtered parts. |
| Headers.KeptNeverDropped | BrokerController.cs:114-120 | No forwarded header is named exactly `Host`, `Content-Type` or `Content-Length`. |
| Headers.KeptIdentity | BrokerController.cs:112-122 | A header list with no dropped name is forwarded unchanged. |
| Headers.KeptIdempotent | BrokerController.cs:112-122 | Filtering twice gives the same list as filtering once. |
| Headers.AcceptAppendedNotReplaced | BrokerController.cs:121-124 | Starting from the client's single `Accept` entry, the outbound list holds `Accept: application/json` two more times than the caller sent it. It also keeps every caller `Accept` value: the entry is appended, not forced. |
| Headers.ForwardedNeverDropped | BrokerController.cs:112-124 | On a fresh client the whole outbound list avoids the three dropped names. It starts with `Accept` and has kept + 2 entries. |
| Headers.OrdinalComparison | BrokerController.cs:114-117 | A header enumerated under the key `host` and the `Url` header both pass the filter unchanged. |
| Body.Wrap | BrokerController.cs:82 | The wrapped body starts with `<root>`, ends with `</root>`, and holds the body unchanged between them. |
| Body.UnwrapWrap | BrokerController.cs:82 | Unwrapping a wrapped body recovers it exactly. |
| Body.WrapUnwrap | BrokerController.cs:82 | Every text that unwraps is the wrapping of its content. |
| Body.WrapInjective | BrokerController.cs:82 | Distinct bodies give distinct wrapped texts. |
| Body.IndexOf | BrokerController.cs:138 | The result is -1 exactly when the character is absent. Otherwise it is a position holding the character with no earlier occurrence. |
| Body.Substring | BrokerController.cs:138 | Succeeds exactly for 0 <= start <= length and returns the suffix after the first `start` characters. Otherwise it fails with the out-of-range start index. |
| Body.Remove | BrokerController.cs:139 | Succeeds exactly for 0 <= start < length and returns the first `start` characters. Otherwise it fails with the out-of-range start index. |
| Body.Strip | BrokerController.cs:138-139 | Let i be the first colon index, or -1. The strip succeeds exactly when text follows i, and returns `s[i+1..|s|-1]` of length `|s| - i - 2`. Otherwise it fails with start index -1. |
| Body.StripWithoutColon | BrokerController.cs:138-139 | With no colon, the result is the text minus its last character. The empty text fails with `Remove(-1)`. |
| Body.StripFailsIff | BrokerController.cs:139 | The strip fails exactly on the empty text, or when the first colon is the last character. |
| Body.StripEnvelope | BrokerController.cs:137-139 | For any colon-free key, stripping `{"key":X}` gives exactly X, whatever X contains. |
| Body.StripRootEnvelope | BrokerController.cs:137-139 | Stripping `{"root":X}` gives exactly X. |
| Broker.FindUrl | BrokerController.cs:33 | Returns -1 exactly when no header is named `Url` in any letter case. Otherwise it returns the first such header. |
| Broker.LookupUrl | BrokerController.cs:33 | Null exactly when no `Url` header is present. Otherwise it is the value of a `Url` header. |
| Broker.GetCall | BrokerController.cs:54-59 | The outbound GET has no payload. Its target is `""` when `Url` is null and the header value otherwise. Its headers are exactly the forwarded list of `PopulateHeaders` on a fresh client, so they contain no dropped name and end with `Accept`. |
| Broker.PostCall | BrokerController.cs:76-91 | The outbound POST carries the cleansed payload and the possibly-null `Url`. Its headers are the forwarded list of `PopulateHeaders` on a fresh client, the same as on GET. |
| Broker.RespondBijective | BrokerController.cs:38-45 | The null test is lossless: NotFound carries null, Ok carries the converted body, and every answer arises from exactly one converted value. |
| Broker.Conclude | BrokerController.cs:91-99 | An exception is re-raised unchanged, a null result is NotFound, and any other result is Ok with that body. |
| Broker.HandleGet | BrokerController.cs:28-52 | The GET outcome relates to the exchange of `GetCall` as `Conclude` states. |
| Broker.HandlePost | BrokerController.cs:72-106 | A conversion exception is re-raised unchanged. A strip failure raises the `Remove(-1)` fault. Otherwise the outcome relates to the exchange of the cleansed POST as `Conclude` states. |
| Broker.PostSendsRootContent | BrokerController.cs:82-91 | When the serialiser returns `{"root":X}`, the payload posted is exactly X. |
| Broker.PostFailsBeforeSending | BrokerController.cs:83-91 | After a conversion or strip failure, the POST fails whatever the exchange would have done. |
| Broker.GetDependsOnlyOnExchange | BrokerController.cs:37-45 | Two exchanges that agree on the outbound GET give the same GET outcome. |
| Broker.ForwardExample | BrokerController.cs:108-124 | For inbound `Host`, `Content-Type` and `X-Trace: abc`, only `X-Trace: abc` is forwarded. The `Add` calls, in order, are the initial `Accept`, `X-Trace: abc`, and the appended `Accept`. |
| Broker.PostExample | BrokerController.cs:82-87 | Posting `<a>1</a>`, serialised as `{"root":{"a":"1"}}`, sends `{"a":"1"}`. |

## Left out

- The XML/JSON conversions are not modelled: `XElement.Parse`, `JsonConvert.SerializeXNode` and `JsonConvert.DeserializeXmlNode`. They are foreign library code and appear only as the `toJson` and `exchange` parameters.
- The HTTP calls, `Uri` construction and validation, and reading the request stream are network I/O. They are folded into `exchange`, or not modelled. A null `Url` on GET becomes `""`, and what `new Uri("")` then does is up to `exchange`.
- Async/await and logging are not modelled. The catch-log-rethrow blocks are modelled only as unchanged propagation of the error.
- `DefaultRequestHeaders.Add` can reject a header and throw. That framework validation is not modelled, so `PopulateHeaders` never fails.
- `StringValues.ToString()` joins multi-valued headers. A header value is an opaque string instead.
- Broker.LookupUrl: the header dictionary compares keys with `OrdinalIgnoreCase`. The model folds only ASCII letters. Its contract says some `Url` header supplies the value, not that it is the first one; `FindUrl` states that.
- Body.IndexOf: `string.IndexOf(":")` is a culture-sensitive search. The model searches for the first `:` character ordinally.
- Program.cs is not modelled beyond the single initial `Accept: application/json` entry of the client (Program.cs:46). This covers configuration, dependency injection, Swagger, the Kerberos/JWT authorisation handler and HTTPS redirection.
- Headers.PopulateHeaders: the outbound list is the sequence of `Add` calls in order. The client's default headers are keyed by case-insensitive name, and an `Add` under an existing name joins that name's values. The client therefore holds `Accept: application/json, application/json` as one entry. For values the client does not split, counts per name and value and the order among one name's values carry over. The order across different names does not. The client splits typed values such as `Accept: text/xml, application/json` into separate media types, which the model keeps as one value.
- Body.Strip: strings are sequences of Unicode scalar values, but C# string indices count UTF-16 code units. `Remove(Length - 1)` removes one code unit. On a text ending in a character outside the Basic Multilingual Plane, C# leaves a lone high surrogate where the model drops the whole character. The same holds for the lengths stated by `Body.IndexOf`, `Body.Substring` and `Body.Remove`. Serialised JSON always ends with `}`, so the handlers are not affected.
