# HTTP.sys Request, modelled in Dafny

This project models the `Request` class of ASP.NET Core's HTTP.sys server
(`src/Servers/HttpSys/src/RequestProcessing/Request.cs`). The constructor turns
the native `HTTP_REQUEST` into a managed request. After that the object is a
small state machine. Its getters fill memo fields in place: the content framing,
the body stream and the client certificate. `Dispose` releases the native
resources, once.

Each native call is replaced by the value it returns. For the constructor, those
values are collected in a `RawRequest`. The getters take them as parameters: the
outcome of reading the certificate, the state of the cancellation token, the
Windows version and the response-started flag. The model records the native side
effects in a ghost trace of events, in the order they happen:

- reading the TLS handshake;
- releasing the pins;
- creating the body stream;
- reading the client certificate;
- starting and disposing the certificate loader;
- releasing the request context, the identity and the stream.

Modules:

- `Wrappers`: `Option` and `Result`.
- `HttpApi`: the native verb, SSL status and version values, and the unchecked
  `uint` → `int` and `ulong` → `long` casts.
- `PathSplit`: how the constructor splits the decoded path into `PathBase` and
  `Path`.
- `ContentFraming`: three pieces.
  - `String.Trim` and ordinal ignore-case comparison.
  - The `NumberStyles.None` Int64 parser.
  - The classification of the `Transfer-Encoding` and `Content-Length` headers
    into `Chunked`, `ContentLength(n)` or `Invalid`. `Unclassified` stands for
    the class's `BoundaryType.None` sentinel, which means "not yet classified".
- `TlsProtocols`: `SslProtocols` flags are modelled as a set of bit positions.
  The six masks pair SChannel's client and server bits for each protocol. The
  normalisation ORs in every mask that the handshake touched.
- `ClientCertificates`: one call of the synchronous getter, and one call of the
  asynchronous getter, as pure step functions. Also sequences of such calls, and
  what they do to the cache.
- `HttpSysRequest`: the class `Request`. It holds its memo fields as `var`s, and
  it has methods that change them.
  - Each method's `ensures` ties the new state to the pure functions above.
  - The invariant `Valid()` is established by the constructor and kept by
    every other method except `GetTlsHandshakeResults`. That method runs only
    inside the constructor, before the invariant is established, and it
    requires a secure request. The invariant has four parts:
    - the framing fields are either unclassified or equal to the
      classification of the headers;
    - a non-opaque stream exists only for a request with a body;
    - an insecure request keeps its TLS defaults and has no certificate;
    - every native resource in the trace is acquired and released at most
      once.

## Model

All source paths are in `src/Servers/HttpSys/src/RequestProcessing/Request.cs`, abbreviated below as `Request.cs`.

| member | source | states |
|---|---|---|
| HttpApi.UncheckedInt32 | src/Servers/HttpSys/src/RequestProcessing/Request.cs:322-326 | The unchecked `(int)` cast of a `uint` strength is in the signed 32-bit range. It is the value itself below 2^31, and the value minus 2^32 otherwise. |
| HttpApi.UncheckedInt64 | src/Servers/HttpSys/src/RequestProcessing/Request.cs:117-118 | The unchecked `(long)` cast of a `ulong` is in the signed 64-bit range. It is the value itself below 2^63, and the value minus 2^64 otherwise. |
| HttpSysRequest.Request.ConnectionId | src/Servers/HttpSys/src/RequestProcessing/Request.cs:117-118 | `ConnectionId` is `RawConnectionId` reinterpreted as a signed 64-bit value. It is in range, equal for ids below 2^63, and shifted down by 2^64 above. |
| PathSplit.WithoutTrailingSlash | src/Servers/HttpSys/src/RequestProcessing/Request.cs:74-85 | The prefix path without its trailing slash: the path minus its last character if that is `/`, otherwise the path itself. |
| PathSplit.IsOptionsStar | src/Servers/HttpSys/src/RequestProcessing/Request.cs:62-63 | Definition: the native verb is `OPTIONS` and the raw URL is exactly `*`, compared ordinally. |
| PathSplit.SplitPath | src/Servers/HttpSys/src/RequestProcessing/Request.cs:59-93 | `OPTIONS *` gives `("", "")`. With a context prefix of trimmed length n: the split succeeds exactly when n does not exceed the path length. Then `PathBase + Path` is the original path, `|PathBase| == n`, and `Path` is empty exactly when the lengths are equal. Otherwise the split is `Substring`'s out-of-range error. With no prefix: the oracle's match when it gives one, else `("", originalPath)`. |
| PathSplit.SplitKeepsRequestCasing | src/Servers/HttpSys/src/RequestProcessing/Request.cs:84-85 | With a prefix, `PathBase` and `Path` are slices of the request's own path, not of the prefix, so the request's casing is kept. This holds for any verb and raw URL other than `OPTIONS *`. |
| PathSplit.SplitExamplesBase | src/Servers/HttpSys/src/RequestProcessing/Request.cs:74-85 | Prefix `/base/` splits `/base/path` into `/base` and `/path`, and `/base` into `/base` and `""`. |
| PathSplit.SplitExamplesRoot | src/Servers/HttpSys/src/RequestProcessing/Request.cs:62-85 | Prefix `/` splits `/` into `""` and `/`. `OPTIONS *` gives two empty strings even when a prefix is registered. |
| PathSplit.SplitExampleNoPrefix | src/Servers/HttpSys/src/RequestProcessing/Request.cs:88-92 | With no context prefix and no longest-prefix match, `PathBase` is empty and `Path` is the whole decoded path. |
| HttpSysRequest.Request.New | src/Servers/HttpSys/src/RequestProcessing/Request.cs:36-111 | Construction fails exactly when the path split does, with the same error; the longest-prefix match is a parameter. Otherwise the new request is fresh and valid, and holds the split. Its framing, stream and certificate are unset. Over TLS its protocol is the normalised handshake protocol, and its algorithm and strength properties are copied from the handshake. Its trace is the handshake read (over TLS only) followed by the release of the pins. |
| HttpSysRequest.Request.constructor | src/Servers/HttpSys/src/RequestProcessing/Request.cs:36-111 | A new request: its memo fields are empty; over TLS, the TLS properties hold the normalised handshake; the trace is the handshake read (over TLS only) followed by the release of the pins. |
| HttpSysRequest.Request.GetTlsHandshakeResults | src/Servers/HttpSys/src/RequestProcessing/Request.cs:283-327 | Called only over TLS. After the six in-place widenings, `Protocol` is `Normalize` of the handshake's protocol. The algorithm fields are copied. The strengths go through the unchecked `int` cast. One handshake read is recorded. |
| TlsProtocols.Widen | src/Servers/HttpSys/src/RequestProcessing/Request.cs:293-296 | Definition of one step: the whole mask is ORed in when the value shares a bit with it, and the value is unchanged otherwise. |
| TlsProtocols.WidenAll | src/Servers/HttpSys/src/RequestProcessing/Request.cs:293-319 | The steps applied one after another, each to the value the previous one left. No step clears a bit. |
| TlsProtocols.Normalize | src/Servers/HttpSys/src/RequestProcessing/Request.cs:287-319 | Definition: the six steps, in the source's order, Ssl2 first. `NormalizeSteps`, `NormalizeBits`, `NormalizeAllOrNone`, `NormalizeKeepsOtherBits` and `NormalizeIdempotent` state its properties. |
| TlsProtocols.ProtocolMasksDisjoint | src/Servers/HttpSys/src/RequestProcessing/Request.cs:293-319 | The six `SslProtocols` masks (0xC, 0x30, 0xC0, 0x300, 0xC00, 0x3000) share no bit. |
| TlsProtocols.NormalizeSteps | src/Servers/HttpSys/src/RequestProcessing/Request.cs:293-319 | The six successive conditional ORs, each applied to the value the previous one left, compute `Normalize`. |
| TlsProtocols.NormalizeBits | src/Servers/HttpSys/src/RequestProcessing/Request.cs:293-319 | A bit is in the output exactly when it is in the input, or it belongs to a mask that the input touches. |
| TlsProtocols.NormalizeAllOrNone | src/Servers/HttpSys/src/RequestProcessing/Request.cs:293-319 | For each mask, the output holds all of its bits exactly when the input held one of them, and none of them otherwise. |
| TlsProtocols.NormalizeKeepsOtherBits | src/Servers/HttpSys/src/RequestProcessing/Request.cs:293-319 | Bits outside the six masks pass through unchanged, and no input bit is lost. |
| TlsProtocols.NormalizeIdempotent | src/Servers/HttpSys/src/RequestProcessing/Request.cs:293-319 | Normalising twice is the same as normalising once. |
| TlsProtocols.NormalizeServerBits | src/Servers/HttpSys/src/RequestProcessing/Request.cs:303-315 | The server bit of TLS 1.0 (0x40) becomes the whole `Tls` mask. The server bit of TLS 1.2 (0x400) becomes the whole `Tls12` mask. |
| TlsProtocols.NormalizeMixedBits | src/Servers/HttpSys/src/RequestProcessing/Request.cs:293-310 | Bits of two protocols widen independently, and a bit outside every mask is left alone. |
| TlsProtocols.Idempotent | src/Servers/HttpSys/src/RequestProcessing/Request.cs:293-319 | Widening by any list of disjoint masks is idempotent. |
| TlsProtocols.AllOrNone | src/Servers/HttpSys/src/RequestProcessing/Request.cs:293-319 | Widening by any list of disjoint masks leaves each mask either fully set or fully clear, following the input. |
| TlsProtocols.OutsideUnchanged | src/Servers/HttpSys/src/RequestProcessing/Request.cs:293-319 | Widening by any list of disjoint masks keeps every input bit and changes no bit outside the masks. |
| TlsProtocols.WidenAllIsTouched | src/Servers/HttpSys/src/RequestProcessing/Request.cs:293-319 | Applying the widenings in sequence equals adding, in one step, every mask the original input touched. It holds because the masks are disjoint, so an earlier step never makes a later mask fire. |
| ContentFraming.Trim | src/Servers/HttpSys/src/RequestProcessing/Request.cs:137 | `String.Trim` returns no longer a string than it was given. Neither end of the result is white space, and an all-white-space string trims to empty. |
| ContentFraming.TrimPadded | src/Servers/HttpSys/src/RequestProcessing/Request.cs:137 | Trimming any white-space padding off a core whose ends are not white space gives back exactly that core. |
| ContentFraming.TrimUnpadded | src/Servers/HttpSys/src/RequestProcessing/Request.cs:145 | Trim leaves a string whose ends are not white space unchanged. |
| ContentFraming.EqualsIgnoreCase | src/Servers/HttpSys/src/RequestProcessing/Request.cs:137 | Definition: the same length, and equal characters after ASCII upper-casing. |
| ContentFraming.ParseInt64 | src/Servers/HttpSys/src/RequestProcessing/Request.cs:144-145 | `long.TryParse` with `NumberStyles.None` succeeds exactly on a non-empty run of ASCII digits whose value fits in a signed 64-bit integer. On success it gives that value. |
| ContentFraming.ParseDigitsFrom | src/Servers/HttpSys/src/RequestProcessing/Request.cs:145 | The digit loop, continued from any valid prefix, yields the decimal value when every character is a digit and the value does not overflow, and nothing otherwise. |
| ContentFraming.ParseExamples | src/Servers/HttpSys/src/RequestProcessing/Request.cs:145 | `"0"` and `"0042"` parse. The empty string, a sign, a group separator and an inner space are all rejected. |
| ContentFraming.Int64MaxAccepted | src/Servers/HttpSys/src/RequestProcessing/Request.cs:145 | 9223372036854775807 (`long.MaxValue`) is accepted. |
| ContentFraming.Int64OverflowRejected | src/Servers/HttpSys/src/RequestProcessing/Request.cs:145 | 9223372036854775808 overflows and is rejected. |
| ContentFraming.HeaderText | src/Servers/HttpSys/src/RequestProcessing/Request.cs:136 | Definition: an absent header reads as the empty string, as `StringValues.ToString` gives it. |
| ContentFraming.IsChunked | src/Servers/HttpSys/src/RequestProcessing/Request.cs:137 | Definition: the trimmed `Transfer-Encoding` equals `chunked`, ignoring case. |
| ContentFraming.HasValidLength | src/Servers/HttpSys/src/RequestProcessing/Request.cs:143-145 | Definition: `Content-Length` is present and its trimmed value parses as a 64-bit length. |
| ContentFraming.EntityBody | src/Servers/HttpSys/src/RequestProcessing/Request.cs:210-211 | Definition: the framing is `ContentLength` with a positive length, or `Chunked`. |
| ContentFraming.Classify | src/Servers/HttpSys/src/RequestProcessing/Request.cs:133-154 | A classification is never `Unclassified`. It carries a length exactly when it is `ContentLength`, and that length is within 0..2^63-1. |
| ContentFraming.ClassifyCases | src/Servers/HttpSys/src/RequestProcessing/Request.cs:136-153 | A trimmed `Transfer-Encoding` equal to `chunked`, ignoring case, gives `Chunked` with no length, whatever `Content-Length` says. Otherwise the result is `ContentLength` exactly when the trimmed `Content-Length` parses, with the parsed value; every other case gives `Invalid` with no length. |
| ContentFraming.HasEntityBodyIff | src/Servers/HttpSys/src/RequestProcessing/Request.cs:205-213 | A request has an entity body exactly when it is chunked, or when it is not chunked and its `Content-Length` parses to a positive value. |
| ContentFraming.NoHeadersNoBody | src/Servers/HttpSys/src/RequestProcessing/Request.cs:143-153 | Without either header the framing is `Invalid`, and there is no body. |
| ContentFraming.ChunkedExample | src/Servers/HttpSys/src/RequestProcessing/Request.cs:137-139 | `Chunked` with any white-space padding is chunked, whatever `Content-Length` says. |
| ContentFraming.LengthExample | src/Servers/HttpSys/src/RequestProcessing/Request.cs:143-149 | A padded `10` on a request that is not chunked gives a length of 10. |
| ContentFraming.ZeroLengthExample | src/Servers/HttpSys/src/RequestProcessing/Request.cs:143-149 | `Content-Length: 0` is a length of 0, and such a request has no entity body. |
| ContentFraming.SignedLengthExample | src/Servers/HttpSys/src/RequestProcessing/Request.cs:145-153 | A signed length such as `-5` is `Invalid`. |
| HttpSysRequest.Request.ContentLength | src/Servers/HttpSys/src/RequestProcessing/Request.cs:129-159 | After the call the framing is classified, and it equals the classification of the two headers; the result is its length. A framing classified earlier is never redone: the fields and the result stay as they were. |
| HttpSysRequest.Request.HasEntityBody | src/Servers/HttpSys/src/RequestProcessing/Request.cs:205-213 | The result holds exactly when the request's framing has an entity body. The framing is classified as `ContentLength` leaves it. |
| HttpSysRequest.Request.EnsureRequestStream | src/Servers/HttpSys/src/RequestProcessing/Request.cs:171-178 | An existing stream is returned untouched. Otherwise a stream is created exactly when the request has a body, with the server's default size limit, and its creation is recorded. |
| HttpSysRequest.Request.Body | src/Servers/HttpSys/src/RequestProcessing/Request.cs:169-178 | The result is the native stream when there is one, and `Stream.Null` otherwise. The state changes exactly as `EnsureRequestStream` changes it. An existing stream, the trace and the framing stay as they were. A first call classifies the framing, and creates the default stream (recording its creation) exactly when the request has a body. An earlier classification is never redone. |
| HttpSysRequest.Request.GetMaxRequestBodySize | src/Servers/HttpSys/src/RequestProcessing/Request.cs:182-184 | The state changes exactly as `EnsureRequestStream` changes it. The result is the limit of the stream, or null when there is none. So an existing stream's limit is returned with nothing changed. On a first call the result is the server's default limit when the request has a body, and null otherwise. |
| HttpSysRequest.Request.SetMaxRequestBodySize | src/Servers/HttpSys/src/RequestProcessing/Request.cs:185-192 | With an existing stream, only its limit changes: the trace and the framing stay. Otherwise the framing is classified, and a stream carrying the new limit is created exactly when the request has a body, with its creation recorded. Without a body, nothing but the classification changes. An earlier classification is never redone. |
| HttpSysRequest.Request.SetThenGetMaxRequestBodySize | src/Servers/HttpSys/src/RequestProcessing/Request.cs:182-192 | Writing `MaxRequestBodySize` and reading it back gives the value written whenever a stream exists afterwards. A stream exists afterwards exactly when one existed before or the request has a body. Otherwise the read gives null. |
| HttpSysRequest.Request.SwitchToOpaqueMode | src/Servers/HttpSys/src/RequestProcessing/Request.cs:447-454 | Afterwards there is an opaque stream. It is the existing stream switched, or a stream created whatever the framing. |
| HttpSysRequest.Request.IsHttps | src/Servers/HttpSys/src/RequestProcessing/Request.cs:199 | True for every TLS connection, with or without a client certificate, and false only for `Insecure`. |
| HttpSysRequest.Request.IsHeadMethod | src/Servers/HttpSys/src/RequestProcessing/Request.cs:165 | Definition: the native verb id is `HttpVerbHEAD`. The verb's name string is not consulted. |
| HttpSysRequest.Request.Scheme | src/Servers/HttpSys/src/RequestProcessing/Request.cs:250 | The scheme is `https` exactly when the SSL status is not `Insecure`, and `http` otherwise. |
| HttpApi.VersionLess | src/Servers/HttpSys/src/RequestProcessing/Request.cs:253 | Definition: `Version` ordering, by major version first and then by minor version. |
| HttpSysRequest.Request.IsUpgradable | src/Servers/HttpSys/src/RequestProcessing/Request.cs:252-253 | The result holds exactly when all three hold: the version is below HTTP/2, the request has no body, and the OS is Windows 8 or later. From HTTP/2 upward the framing is not touched. Below HTTP/2 the `HasEntityBody` read leaves the framing classified, equal to the classification of the headers. |
| HttpSysRequest.Request.CanDelegate | src/Servers/HttpSys/src/RequestProcessing/Request.cs:353 | A request can be delegated exactly when the response has not started and no body stream has started reading. Without a stream, only the response counts. |
| ClientCertificates.SyncCertificate | src/Servers/HttpSys/src/RequestProcessing/Request.cs:329-351 | The getter reads only when the cache is empty and the status is `ClientCert`. A certificate it reads becomes the cache and the result. Cryptographic and security faults are swallowed: the cache is unchanged and the result is null. Any other fault propagates and the cache is unchanged. A cached certificate is returned without a read. |
| HttpSysRequest.Request.ClientCertificate | src/Servers/HttpSys/src/RequestProcessing/Request.cs:329-351 | The new cache, the result and the recorded certificate read are those of `SyncCertificate` on the old cache. |
| ClientCertificates.AsyncCertificate | src/Servers/HttpSys/src/RequestProcessing/Request.cs:358-392 | Insecure: null, with no load. Cached: the cache, with no load, even when cancellation is requested. Empty cache with cancellation requested: `OperationCanceledException` before any load. Otherwise exactly one load. A cancelled load gives `OperationCanceledException`. Any other load failure gives an error. Both failures keep the cache and dispose the loader. A successful load stores the certificate it got and returns it. |
| HttpSysRequest.Request.GetClientCertificateAsync | src/Servers/HttpSys/src/RequestProcessing/Request.cs:358-392 | The new cache, the result, and the loader started and disposed are those of `AsyncCertificate` on the old cache. |
| HttpSysRequest.Request.LoadClientCertificate | src/Servers/HttpSys/src/RequestProcessing/Request.cs:372-390 | The loader part of the async getter. It records a loader start. A load that finds a certificate caches and returns it; a load that finds none returns null. A cancelled or faulted load keeps the cache empty, disposes the loader and fails with its own error. |
| ClientCertificates.CachedIsStable | src/Servers/HttpSys/src/RequestProcessing/Request.cs:358-369 | Once a certificate is cached, any sequence of getter calls keeps it, loads nothing and populates nothing. Over TLS, every call returns that certificate. |
| ClientCertificates.AtMostOnePopulation | src/Servers/HttpSys/src/RequestProcessing/Request.cs:333-379 | Over any sequence of getter calls, the cache is populated at most once, and never when it starts full. A full cache is never cleared. |
| ClientCertificates.InsecureNeverLoads | src/Servers/HttpSys/src/RequestProcessing/Request.cs:358-364 | Without TLS, no sequence of calls ever loads a certificate, and every call returns null. |
| HttpSysRequest.Request.Dispose | src/Servers/HttpSys/src/RequestProcessing/Request.cs:435-445 | The first call releases, in order, the context, then the identity (if there is one), then the stream (if there is one); later calls change nothing. Afterwards the request is disposed, and the context has been released exactly once. |
| HttpSysRequest.Disposed | src/Servers/HttpSys/src/RequestProcessing/Request.cs:443 | Disposing the stream keeps whether it exists, its limit and its mode, and marks it released. |
| HttpSysRequest.DisposalEvents | src/Servers/HttpSys/src/RequestProcessing/Request.cs:441-443 | The first `Dispose` releases the context first. It releases the identity exactly when there is one, and the stream exactly when there is one. |
| HttpSysRequest.LoaderEvents | src/Servers/HttpSys/src/RequestProcessing/Request.cs:372-387 | An async getter call starts a loader exactly when it loads, and disposes it exactly when the load failed. |
| HttpSysRequest.DisposalAccounted | src/Servers/HttpSys/src/RequestProcessing/Request.cs:437-444 | The first disposal keeps each resource acquired and released at most once, and releases the context exactly once. |
| HttpSysRequest.CreationAccounted | src/Servers/HttpSys/src/RequestProcessing/Request.cs:173-176 | Creating the stream, when there is none, keeps each resource accounted for. |
| HttpSysRequest.ConstructionAccounted | src/Servers/HttpSys/src/RequestProcessing/Request.cs:101-109 | The construction trace reads the handshake once over TLS, and never without TLS. It releases the pins once, and holds nothing else. |
| HttpSysRequest.UnaccountedKept | src/Servers/HttpSys/src/RequestProcessing/Request.cs:329-392 | Reading the certificate, and starting and disposing the loader, leave the resource account unchanged. |

## Left out

- Native interop is not modelled: the `HTTP_REQUEST` blob, `RequestContext` and
  `ReleasePins`. The values the constructor reads are the fields of
  `RawRequest`. `ReleasePins` is recorded only as the last event of the
  constructor.
- `RequestUriBuilder.DecodeAndUnescapePath` is not part of this model. The
  decoded path is the input `originalPath`.
- `UrlPrefixes.GetPrefix` and `TryMatchLongestPrefix` are not part of this
  model. The prefix registered for the URL context is the input
  `contextPrefix`. The longest-prefix match is a function parameter of both
  `SplitPath` and `Request.New`; what it matches is left open.
- `HttpSysRequest.Request.constructor` takes the path split as an argument
  instead of computing it. `Request.New` computes the split and then calls the
  constructor. `Substring` throwing `ArgumentOutOfRangeException`, when the
  prefix is longer than the decoded path, is the `Err` result of `New` and of
  `SplitPath`.
- `RequestStream` internals are not modelled: the validation of its `MaxSize`,
  its reads, `HasStarted`, and `GetChunks`. The stream is a value with a size
  limit, an opaque flag and a disposed flag. `HasStarted` is an input of
  `CanDelegate`.
- `ClientCertLoader` is not modelled. Its asynchronous I/O, its buffer growth
  and its parsing of X.509 data are not modelled. Its whole run is a single
  outcome: `Loaded`, `Cancelled` or `Faulted`. The cancellation token is its
  state on entry.
- `HttpSysRequest.Request.Dispose` assumes that none of the release calls
  throws. In the code the flag is set first (line 440). If
  `RequestContext.Dispose` throws (line 441), the identity and the stream
  (lines 442-443) are never released, and every later `Dispose` does nothing.
  The release order and the "released once each" account hold only when every
  release succeeds.
- `HttpSysRequest.Request.GetClientCertificateAsync` does not dispose the loader
  after a successful load, because `Request.cs` does not do so either.
- Logging is left out: `Log.ErrorInReadingCertificate` and the logger.
- `Headers` is not modelled. The two framing headers are optional strings in
  `RawRequest`. A multi-valued header is taken as the one string that
  `StringValues.ToString` gives.
- Other parts of the request with no behaviour of their own are not modelled:
  - the `User` principal. The identity is reduced to whether it exists, so that
    `Dispose` can release it;
  - the endpoints, addresses and ports;
  - `RequestInfo`.
- `ComNetOS.IsWin8orLater` is an input of `IsUpgradable`.
- `Response.HasStarted` is an input of `CanDelegate`.
- The class has no locking, and the model makes no claim about concurrent
  callers.
- `PathSplit.SplitPath` counts lengths in Unicode scalar values, because a
  Dafny string is a sequence of them. `Request.cs` (lines 74, 84-85) counts
  `Length` and cuts with `Substring` in UTF-16 code units. The two cuts differ
  when the prefix and the decoded path hold different numbers of characters
  outside the Basic Multilingual Plane within the first n characters. The
  model also cannot represent a `Substring` cut that splits a surrogate pair.
  They agree whenever the decoded path begins with the prefix path, which is
  how HTTP.sys routes a request to a prefix.
- `ContentFraming.Trim` uses the white-space set of `char.IsWhiteSpace` over
  single characters. It does not model UTF-16 surrogate pairs.
- `ContentFraming.EqualsIgnoreCase` folds only ASCII letters. `OrdinalIgnoreCase`
  also folds non-ASCII letters, but those cannot equal `chunked`. The difference
  matters only for strings outside ASCII.
- `ContentFraming.ParseInt64` does not model one quirk of the .NET parser: it
  accepts trailing NUL characters. That behaviour belongs to the runtime, not to
  `Request.cs`.
- `TlsProtocols.Normalize` follows the code, which ORs in the whole TLS 1.2
  and TLS 1.3 masks just as it does for the older protocols. This differs from
  reading TLS 1.2 and 1.3 as passed through unchanged. The two readings differ
  exactly when SChannel reports one of the two bits of a TLS 1.2 or 1.3 mask
  but not the other: the code then adds the missing bit. They agree when it
  reports both bits or neither.
- `SslProtocols`, `CipherAlgorithmType`, `HashAlgorithmType` and
  `ExchangeAlgorithmType` are not modelled as enumerations. The three
  algorithm types are plain integers, with 0 for `None`. `SslProtocols` is a set
  of bit positions.
