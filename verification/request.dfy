/**
 * The HTTP.sys server's Request: built once from the native request, then
 * queried by the application. Its getters fill memo fields in place (the
 * content framing, the body stream, the client certificate) and Dispose
 * releases the native resources once. Calls into the native request and the
 * operating system are replaced by the values they return, held in RawRequest;
 * the native side effects are recorded, in order, in the ghost `events` trace.
 */
module HttpSysRequest {
  import opened Wrappers
  import opened HttpApi
  import opened PathSplit
  import opened ContentFraming
  import opened TlsProtocols
  import opened ClientCertificates

  /** What SChannel reported about the TLS handshake. */
  datatype TlsHandshake = TlsHandshake(
    protocol: Flags,
    cipherType: int, cipherStrength: uint32,
    hashType: int, hashStrength: uint32,
    keyExchangeType: int, keyExchangeStrength: uint32)

  /** What the constructor reads from the native request, its URL context and the server options. */
  datatype RawRequest = RawRequest(
    requestId: uint64,
    connectionId: uint64,
    rawConnectionId: uint64,
    sslStatus: SslStatus,
    verb: HttpVerb,
    verbName: string,
    rawUrl: string,
    queryString: Option<string>,
    originalPath: string,           // the decoded and unescaped raw URL path
    contextPrefix: Option<string>,  // the path of the prefix registered for the URL context
    host: string,
    version: HttpVersion,
    transferEncoding: Option<string>,
    contentLength: Option<string>,
    hasWindowsIdentity: bool,
    handshake: TlsHandshake,
    maxRequestBodySize: Option<int>) // the server-wide default a new body stream starts with

  /** The native request body reader, as far as Request sees it. */
  datatype BodyStream = BodyStream(maxSize: Option<int>, isOpaque: bool, disposed: bool)

  /** What the Body property hands out: the native stream, or Stream.Null. */
  datatype Body = NullBody | NativeBody(stream: BodyStream)

  /** Native side effects, in the order they happen. */
  datatype NativeEvent =
    | TlsHandshakeRead
    | PinsReleased
    | StreamCreated
    | ClientCertRead
    | CertLoaderStarted
    | CertLoaderDisposed
    | ContextDisposed
    | IdentityDisposed
    | StreamDisposed

  /** Default values of the SslProtocols, algorithm-type and strength properties. */
  const NO_PROTOCOL: Flags := {}
  const NO_ALGORITHM: int := 0

  class Request {
    const raw: RawRequest
    const requestId: uint64 := raw.requestId
    const uConnectionId: uint64 := raw.connectionId
    const rawConnectionId: uint64 := raw.rawConnectionId
    const sslStatus: SslStatus := raw.sslStatus
    const knownMethod: HttpVerb := raw.verb
    const verbName: string := raw.verbName
    const rawUrl: string := raw.rawUrl
    const queryString: string := raw.queryString.GetOr("")
    const protocolVersion: HttpVersion := raw.version
    const pathBase: string
    /** The classification of this request's framing headers (fixed, though computed lazily). */
    ghost const framing: Framing := Classify(raw.transferEncoding, raw.contentLength)
    const path: string

    var clientCert: Option<Certificate>
    var contentBoundaryType: BoundaryType
    var contentLength: Option<int>
    var nativeStream: Option<BodyStream>
    var isDisposed: bool

    var protocol: Flags
    var cipherAlgorithm: int
    var cipherStrength: int
    var hashAlgorithm: int
    var hashStrength: int
    var keyExchangeAlgorithm: int
    var keyExchangeStrength: int

    ghost var events: seq<NativeEvent>

    /** The framing is either still unclassified, or the classification of the headers. */
    ghost predicate FramingValid()
      reads this`contentBoundaryType, this`contentLength
    {
      (contentBoundaryType == Unclassified ==> contentLength == None) &&
      (contentBoundaryType != Unclassified ==> Framing(contentBoundaryType, contentLength) == framing)
    }

    /** A stream that is not opaque exists only for a request with an entity body. */
    ghost predicate StreamValid()
      reads this`nativeStream, this`contentBoundaryType, this`contentLength
    {
      nativeStream.Some? && !nativeStream.value.isOpaque ==>
        contentBoundaryType != Unclassified && EntityBody(Framing(contentBoundaryType, contentLength))
    }

    /** Without TLS there is no certificate and the handshake properties keep their defaults. */
    ghost predicate TlsValid()
      reads this`clientCert, this`protocol, this`cipherAlgorithm, this`cipherStrength,
            this`hashAlgorithm, this`hashStrength, this`keyExchangeAlgorithm, this`keyExchangeStrength
    {
      (sslStatus == Insecure ==>
         clientCert == None &&
         protocol == NO_PROTOCOL && cipherAlgorithm == NO_ALGORITHM && cipherStrength == 0 &&
         hashAlgorithm == NO_ALGORITHM && hashStrength == 0 &&
         keyExchangeAlgorithm == NO_ALGORITHM && keyExchangeStrength == 0)
    }

    /** Each native resource is acquired and released at most once. */
    ghost predicate TraceValid()
      reads this`events, this`nativeStream, this`isDisposed
    {
      TraceAccounts(events, nativeStream, isDisposed, sslStatus != Insecure, raw.hasWindowsIdentity)
    }

    ghost predicate Valid()
      reads this
    {
      FramingValid() && StreamValid() && TlsValid() && TraceValid()
    }

    /**
     * What EnsureRequestStream leaves, given the stream, the trace and the
     * framing fields before the call. An existing stream is kept and nothing
     * is classified. Otherwise the framing is classified, and a stream with
     * the server's default limit is created exactly when the request has a
     * body. An earlier classification is never redone.
     */
    ghost predicate StreamEnsured(stream0: Option<BodyStream>, events0: seq<NativeEvent>,
                                  boundary0: BoundaryType, length0: Option<int>)
      reads this`nativeStream, this`events, this`contentBoundaryType, this`contentLength
    {
      (boundary0 != Unclassified ==> contentBoundaryType == boundary0 && contentLength == length0) &&
      (stream0.Some? ==>
         nativeStream == stream0 && events == events0 &&
         contentBoundaryType == boundary0 && contentLength == length0) &&
      (stream0.None? ==>
         Framing(contentBoundaryType, contentLength) == framing &&
         (nativeStream.Some? <==> EntityBody(framing)) &&
         (nativeStream.Some? ==>
            nativeStream == Some(BodyStream(raw.maxRequestBodySize, false, false)) &&
            events == events0 + [StreamCreated]) &&
         (nativeStream.None? ==> events == events0))
    }

    /**
     * The constructor proper, given the path split New has already made; New
     * is the entry point, and it also covers the split's failure.
     */
    constructor (r: RawRequest, split: PathPair)
      ensures Valid()
      ensures raw == r
      ensures pathBase == split.pathBase && path == split.path
      ensures contentBoundaryType == Unclassified && contentLength == None
      ensures nativeStream == None && clientCert == None && !isDisposed
      ensures IsHttps() ==> protocol == Normalize(r.handshake.protocol)
      ensures IsHttps() ==>
        cipherAlgorithm == r.handshake.cipherType &&
        cipherStrength == UncheckedInt32(r.handshake.cipherStrength) &&
        hashAlgorithm == r.handshake.hashType &&
        hashStrength == UncheckedInt32(r.handshake.hashStrength) &&
        keyExchangeAlgorithm == r.handshake.keyExchangeType &&
        keyExchangeStrength == UncheckedInt32(r.handshake.keyExchangeStrength)
      // The handshake is read only over TLS, and the pins are released last.
      ensures events == (if IsHttps() then [TlsHandshakeRead] else []) + [PinsReleased]
    {
      raw := r;
      pathBase := split.pathBase;
      path := split.path;
      clientCert := None;
      contentBoundaryType := Unclassified;
      contentLength := None;
      nativeStream := None;
      isDisposed := false;
      protocol := NO_PROTOCOL;
      cipherAlgorithm := NO_ALGORITHM;
      cipherStrength := 0;
      hashAlgorithm := NO_ALGORITHM;
      hashStrength := 0;
      keyExchangeAlgorithm := NO_ALGORITHM;
      keyExchangeStrength := 0;
      events := [];
      new;
      if sslStatus != Insecure {
        GetTlsHandshakeResults();
      }
      ConstructionAccounted(sslStatus != Insecure, raw.hasWindowsIdentity);
      events := events + [PinsReleased];
    }

    /**
     * Builds the request, or fails as String.Substring does when the prefix
     * outruns the path. longestPrefix is the server's TryMatchLongestPrefix,
     * tried when no prefix is registered for the request's URL context.
     */
    static method New(r: RawRequest, longestPrefix: LongestPrefixOracle)
      returns (result: Result<Request, SplitError>)
      ensures var split := SplitPath(r.verb, r.rawUrl, r.originalPath, r.contextPrefix,
                                     r.sslStatus != Insecure, r.host, longestPrefix);
        (result.Err? <==> split.Err?) &&
        (result.Err? ==> result.error == split.error) &&
        (result.Ok? ==>
           fresh(result.value) && result.value.Valid() && result.value.raw == r &&
           result.value.pathBase == split.value.pathBase && result.value.path == split.value.path)
      ensures result.Ok? ==>
        var q := result.value;
        q.contentBoundaryType == Unclassified && q.contentLength == None &&
        q.nativeStream == None && q.clientCert == None && !q.isDisposed
      ensures result.Ok? && r.sslStatus != Insecure ==>
        var q := result.value;
        q.protocol == Normalize(r.handshake.protocol) &&
        q.cipherAlgorithm == r.handshake.cipherType &&
        q.cipherStrength == UncheckedInt32(r.handshake.cipherStrength) &&
        q.hashAlgorithm == r.handshake.hashType &&
        q.hashStrength == UncheckedInt32(r.handshake.hashStrength) &&
        q.keyExchangeAlgorithm == r.handshake.keyExchangeType &&
        q.keyExchangeStrength == UncheckedInt32(r.handshake.keyExchangeStrength)
      ensures result.Ok? ==>
        result.value.events == (if r.sslStatus != Insecure then [TlsHandshakeRead] else []) + [PinsReleased]
    {
      var split := SplitPath(r.verb, r.rawUrl, r.originalPath, r.contextPrefix,
                             r.sslStatus != Insecure, r.host, longestPrefix);
      if split.Err? {
        result := Err(split.error);
      } else {
        var request := new Request(r, split.value);
        result := Ok(request);
      }
    }

    /**
     * Copies the handshake into the TLS properties, widening each protocol
     * bit SChannel reported to the whole client-and-server mask it belongs to.
     * The constructor calls it only over TLS.
     */
    method GetTlsHandshakeResults()
      requires sslStatus != Insecure
      modifies this`protocol, this`cipherAlgorithm, this`cipherStrength, this`hashAlgorithm,
               this`hashStrength, this`keyExchangeAlgorithm, this`keyExchangeStrength, this`events
      ensures protocol == Normalize(raw.handshake.protocol)
      ensures cipherAlgorithm == raw.handshake.cipherType
      ensures cipherStrength == UncheckedInt32(raw.handshake.cipherStrength)
      ensures hashAlgorithm == raw.handshake.hashType
      ensures hashStrength == UncheckedInt32(raw.handshake.hashStrength)
      ensures keyExchangeAlgorithm == raw.handshake.keyExchangeType
      ensures keyExchangeStrength == UncheckedInt32(raw.handshake.keyExchangeStrength)
      ensures events == old(events) + [TlsHandshakeRead]
    {
      var handshake := raw.handshake;
      // The six widenings, each on the value the previous one left.
      var p := handshake.protocol;
      if p * SSL2 != {} {
        p := p + SSL2;
      }
      if p * SSL3 != {} {
        p := p + SSL3;
      }
      if p * TLS10 != {} {
        p := p + TLS10;
      }
      if p * TLS11 != {} {
        p := p + TLS11;
      }
      if p * TLS12 != {} {
        p := p + TLS12;
      }
      if p * TLS13 != {} {
        p := p + TLS13;
      }
      NormalizeSteps(handshake.protocol);
      protocol, cipherAlgorithm, cipherStrength, hashAlgorithm, hashStrength,
        keyExchangeAlgorithm, keyExchangeStrength, events :=
        p, handshake.cipherType, UncheckedInt32(handshake.cipherStrength),
        handshake.hashType, UncheckedInt32(handshake.hashStrength),
        handshake.keyExchangeType, UncheckedInt32(handshake.keyExchangeStrength),
        events + [TlsHandshakeRead];
    }

    /** The public connection id: the raw connection id reinterpreted as a signed 64-bit value. */
    function ConnectionId(): (id: int)
      ensures -TWO_TO_63 <= id < TWO_TO_63
      ensures rawConnectionId < TWO_TO_63 ==> id == rawConnectionId
      ensures rawConnectionId >= TWO_TO_63 ==> id == rawConnectionId - TWO_TO_64
    {
      UncheckedInt64(rawConnectionId)
    }

    predicate IsHeadMethod()
    {
      knownMethod == Head
    }

    /** True for every TLS connection, with or without a client certificate. */
    function IsHttps(): (b: bool)
      ensures b <==> sslStatus == NoClientCert || sslStatus == ClientCert
    {
      sslStatus != Insecure
    }

    function Scheme(): (s: string)
      ensures s == "https" || s == "http"
      ensures s == "https" <==> sslStatus != Insecure
    {
      if IsHttps() then "https" else "http"
    }

    /**
     * The declared body length. The first call classifies the framing from the
     * Transfer-Encoding and Content-Length headers; later calls reuse it.
     */
    method ContentLength() returns (length: Option<int>)
      requires Valid()
      modifies this`contentBoundaryType, this`contentLength
      ensures Valid()
      ensures contentBoundaryType != Unclassified
      ensures Framing(contentBoundaryType, contentLength) == framing
      ensures length == contentLength
      // A classification is never redone.
      ensures old(contentBoundaryType) != Unclassified ==>
        contentBoundaryType == old(contentBoundaryType) && contentLength == old(contentLength)
    {
      if contentBoundaryType == Unclassified {
        var transferEncoding := HeaderText(raw.transferEncoding);
        if EqualsIgnoreCase("chunked", Trim(transferEncoding)) {
          contentBoundaryType := Chunked;
        } else {
          var header := raw.contentLength;
          if header.Some? && ParseInt64(Trim(header.value)).Some? {
            contentBoundaryType := BoundaryType.ContentLength;
            contentLength := ParseInt64(Trim(header.value));
          } else {
            contentBoundaryType := BoundaryType.Invalid;
          }
        }
      }
      length := contentLength;
    }

    /** Whether the request carries a body: a positive Content-Length, or chunked framing. */
    method HasEntityBody() returns (b: bool)
      requires Valid()
      modifies this`contentBoundaryType, this`contentLength
      ensures Valid()
      ensures Framing(contentBoundaryType, contentLength) == framing
      ensures old(contentBoundaryType) != Unclassified ==>
        contentBoundaryType == old(contentBoundaryType) && contentLength == old(contentLength)
      ensures b <==> EntityBody(framing)
    {
      var first := ContentLength();
      b := false;
      if first.Some? {
        var second := ContentLength();
        b := second.value > 0 && contentBoundaryType == BoundaryType.ContentLength;
      }
      b := b || contentBoundaryType == Chunked;
    }

    /** The body stream, created on first use and only for a request with a body. */
    method EnsureRequestStream() returns (stream: Option<BodyStream>)
      requires Valid()
      modifies this`contentBoundaryType, this`contentLength, this`nativeStream, this`events
      ensures Valid()
      ensures stream == nativeStream
      ensures StreamEnsured(old(nativeStream), old(events), old(contentBoundaryType), old(contentLength))
    {
      if nativeStream.None? {
        var hasBody := HasEntityBody();
        if hasBody {
          CreationAccounted(events, BodyStream(raw.maxRequestBodySize, false, false), isDisposed,
                            sslStatus != Insecure, raw.hasWindowsIdentity);
          nativeStream := Some(BodyStream(raw.maxRequestBodySize, false, false));
          events := events + [StreamCreated];
        }
      }
      stream := nativeStream;
    }

    /** The Body property: the native stream, or Stream.Null for a request without a body. */
    method Body() returns (body: Body)
      requires Valid()
      modifies this`contentBoundaryType, this`contentLength, this`nativeStream, this`events
      ensures Valid()
      ensures StreamEnsured(old(nativeStream), old(events), old(contentBoundaryType), old(contentLength))
      ensures nativeStream.Some? ==> body == NativeBody(nativeStream.value)
      ensures nativeStream.None? ==> body == NullBody
      ensures old(nativeStream).None? ==>
        (body.NativeBody? <==> EntityBody(framing))
    {
      var stream := EnsureRequestStream();
      body := if stream.Some? then NativeBody(stream.value) else NullBody;
    }

    /** Reads MaxRequestBodySize: null when the request has no body stream. */
    method GetMaxRequestBodySize() returns (size: Option<int>)
      requires Valid()
      modifies this`contentBoundaryType, this`contentLength, this`nativeStream, this`events
      ensures Valid()
      ensures StreamEnsured(old(nativeStream), old(events), old(contentBoundaryType), old(contentLength))
      ensures size == if nativeStream.Some? then nativeStream.value.maxSize else None
      ensures old(nativeStream).Some? ==> size == old(nativeStream).value.maxSize
      ensures old(nativeStream).None? ==>
        size == (if EntityBody(framing) then raw.maxRequestBodySize else None)
    {
      var stream := EnsureRequestStream();
      size := if stream.Some? then stream.value.maxSize else None;
    }

    /** Writes MaxRequestBodySize: a no-op when the request has no body stream. */
    method SetMaxRequestBodySize(value: Option<int>)
      requires Valid()
      modifies this`contentBoundaryType, this`contentLength, this`nativeStream, this`events
      ensures Valid()
      ensures old(contentBoundaryType) != Unclassified ==>
        contentBoundaryType == old(contentBoundaryType) && contentLength == old(contentLength)
      ensures old(nativeStream).Some? ==>
        nativeStream == Some(old(nativeStream).value.(maxSize := value)) && events == old(events) &&
        contentBoundaryType == old(contentBoundaryType) && contentLength == old(contentLength)
      ensures old(nativeStream).None? ==>
        Framing(contentBoundaryType, contentLength) == framing &&
        (nativeStream.Some? <==> EntityBody(framing)) &&
        (nativeStream.Some? ==>
           nativeStream == Some(BodyStream(value, false, false)) && events == old(events) + [StreamCreated]) &&
        (nativeStream.None? ==> events == old(events))
    {
      var _ := EnsureRequestStream();
      if nativeStream.Some? {
        nativeStream := Some(nativeStream.value.(maxSize := value));
      }
    }

    /**
     * Writing MaxRequestBodySize and reading it back gives the value written
     * whenever the request has a body stream; without one both are no-ops
     * and the read gives null.
     */
    method SetThenGetMaxRequestBodySize(value: Option<int>) returns (size: Option<int>)
      requires Valid()
      modifies this`contentBoundaryType, this`contentLength, this`nativeStream, this`events
      ensures Valid()
      ensures nativeStream.Some? <==> old(nativeStream).Some? || EntityBody(framing)
      ensures nativeStream.Some? ==> size == value
      ensures nativeStream.None? ==> size == None
    {
      SetMaxRequestBodySize(value);
      size := GetMaxRequestBodySize();
    }

    /** Makes the stream opaque (for upgrades), creating it first whatever the framing. */
    method SwitchToOpaqueMode()
      requires Valid()
      modifies this`nativeStream, this`events
      ensures Valid()
      ensures nativeStream.Some? && nativeStream.value.isOpaque
      ensures old(nativeStream).Some? ==>
        nativeStream == Some(old(nativeStream).value.(isOpaque := true)) && events == old(events)
      ensures old(nativeStream).None? ==>
        nativeStream == Some(BodyStream(raw.maxRequestBodySize, true, false)) &&
        events == old(events) + [StreamCreated]
    {
      if nativeStream.None? {
        CreationAccounted(events, BodyStream(raw.maxRequestBodySize, false, false), isDisposed,
                          sslStatus != Insecure, raw.hasWindowsIdentity);
        nativeStream := Some(BodyStream(raw.maxRequestBodySize, false, false));
        events := events + [StreamCreated];
      }
      nativeStream := Some(nativeStream.value.(isOpaque := true));
    }

    /**
     * Whether an upgrade to an opaque stream is allowed: below HTTP/2, with no
     * body, on Windows 8 or later. The body is only looked at below HTTP/2.
     */
    method IsUpgradable(isWin8OrLater: bool) returns (b: bool)
      requires Valid()
      modifies this`contentBoundaryType, this`contentLength
      ensures Valid()
      ensures b <==> VersionLess(protocolVersion, HTTP_2_0) &&
                     !EntityBody(framing) && isWin8OrLater
      ensures !VersionLess(protocolVersion, HTTP_2_0) ==>
        contentBoundaryType == old(contentBoundaryType) && contentLength == old(contentLength)
      ensures old(contentBoundaryType) != Unclassified ==>
        contentBoundaryType == old(contentBoundaryType) && contentLength == old(contentLength)
      ensures VersionLess(protocolVersion, HTTP_2_0) ==>
        Framing(contentBoundaryType, contentLength) == framing
    {
      b := false;
      if VersionLess(protocolVersion, HTTP_2_0) {
        var hasBody := HasEntityBody();
        b := !hasBody && isWin8OrLater;
      }
    }

    /**
     * Whether the request may still be handed to another queue: neither the
     * body (whose own started flag is an input) nor the response has started.
     */
    function CanDelegate(bodyHasStarted: bool, responseHasStarted: bool): (b: bool)
      reads this
      ensures b ==> !responseHasStarted
      ensures nativeStream.None? ==> (b <==> !responseHasStarted)
      ensures nativeStream.Some? ==> (b <==> !bodyHasStarted && !responseHasStarted)
    {
      !((nativeStream.Some? && bodyHasStarted) || responseHasStarted)
    }

    /** The synchronous ClientCertificate getter; read is what the native request gives. */
    method ClientCertificate(read: CertRead) returns (result: Result<Option<Certificate>, CertFault>)
      requires Valid()
      modifies this`clientCert, this`events
      ensures Valid()
      ensures clientCert == SyncCertificate(sslStatus, old(clientCert), read).cache
      ensures result == SyncCertificate(sslStatus, old(clientCert), read).result
      ensures events == old(events) + (if SyncCertificate(sslStatus, old(clientCert), read).loaded
                                       then [ClientCertRead] else [])
    {
      if clientCert.None? && sslStatus == ClientCert {
        UnaccountedKept(events, [ClientCertRead], nativeStream, isDisposed, true, raw.hasWindowsIdentity);
        events := events + [ClientCertRead];
        match read {
          case ReadOk(c) => clientCert := c;
          case CryptographicFault =>
          case SecurityFault =>
          case OtherReadFault =>
            return Err(UnhandledReadFault);
        }
      }
      result := Ok(clientCert);
    }

    /**
     * GetClientCertificateAsync; cancelled is the token's state on entry and
     * outcome how the loader's LoadClientCertificateAsync finishes.
     */
    method GetClientCertificateAsync(cancelled: bool, outcome: LoadOutcome)
      returns (result: Result<Option<Certificate>, CertFault>)
      requires Valid()
      modifies this`clientCert, this`events
      ensures Valid()
      ensures clientCert == AsyncCertificate(sslStatus, old(clientCert), cancelled, outcome).cache
      ensures result == AsyncCertificate(sslStatus, old(clientCert), cancelled, outcome).result
      ensures events == old(events) + LoaderEvents(AsyncCertificate(sslStatus, old(clientCert), cancelled, outcome))
    {
      if sslStatus == Insecure {
        return Ok(None);
      }
      if clientCert.Some? {
        return Ok(clientCert);
      }
      if cancelled {
        return Err(OperationCanceled);
      }
      result := LoadClientCertificate(outcome);
    }

    /**
     * The loader part of GetClientCertificateAsync: a loader is started; a
     * certificate it finds is cached; after a failure the loader is disposed
     * and the failure propagates.
     */
    method LoadClientCertificate(outcome: LoadOutcome) returns (result: Result<Option<Certificate>, CertFault>)
      requires Valid() && sslStatus != Insecure && clientCert.None?
      modifies this`clientCert, this`events
      ensures Valid()
      ensures outcome.Loaded? ==>
        clientCert == outcome.cert && result == Ok(outcome.cert) && events == old(events) + [CertLoaderStarted]
      ensures outcome.Cancelled? ==>
        clientCert == None && result == Err(OperationCanceled) &&
        events == old(events) + [CertLoaderStarted, CertLoaderDisposed]
      ensures outcome.Faulted? ==>
        clientCert == None && result == Err(LoadFault) &&
        events == old(events) + [CertLoaderStarted, CertLoaderDisposed]
    {
      var secure := sslStatus != Insecure;
      match outcome {
        case Loaded(c) =>
          UnaccountedKept(events, [CertLoaderStarted], nativeStream, isDisposed, secure, raw.hasWindowsIdentity);
          if c.Some? {
            clientCert := c;
          }
          events := events + [CertLoaderStarted];
          result := Ok(clientCert);
        case Cancelled =>
          UnaccountedKept(events, [CertLoaderStarted, CertLoaderDisposed], nativeStream, isDisposed, secure,
                          raw.hasWindowsIdentity);
          events := events + [CertLoaderStarted, CertLoaderDisposed];
          result := Err(OperationCanceled);
        case Faulted =>
          UnaccountedKept(events, [CertLoaderStarted, CertLoaderDisposed], nativeStream, isDisposed, secure,
                          raw.hasWindowsIdentity);
          events := events + [CertLoaderStarted, CertLoaderDisposed];
          result := Err(LoadFault);
      }
    }

    /**
     * Releases the native request, the Windows identity (when there is one)
     * and the body stream (when there is one), the first time only.
     */
    method Dispose()
      requires Valid()
      modifies this`isDisposed, this`nativeStream, this`events
      ensures Valid()
      ensures isDisposed
      ensures old(isDisposed) ==> nativeStream == old(nativeStream) && events == old(events)
      ensures !old(isDisposed) ==>
        events == old(events) + DisposalEvents(raw.hasWindowsIdentity, old(nativeStream).Some?) &&
        nativeStream == Disposed(old(nativeStream))
      ensures multiset(events)[ContextDisposed] == 1
    {
      if !isDisposed {
        DisposalAccounted(events, nativeStream, sslStatus != Insecure, raw.hasWindowsIdentity);
        isDisposed, nativeStream, events :=
          true,
          Disposed(nativeStream),
          events + DisposalEvents(raw.hasWindowsIdentity, nativeStream.Some?);
      }
    }
  }

  /** The events of an async getter call: the loader it started, and its disposal after a failure. */
  function LoaderEvents(s: CertStep): (r: seq<NativeEvent>)
    ensures CertLoaderStarted in r <==> s.loaded
    ensures CertLoaderDisposed in r <==> s.loaderDisposed
  {
    (if s.loaded then [CertLoaderStarted] else []) + (if s.loaderDisposed then [CertLoaderDisposed] else [])
  }

  /** The body stream after Dispose: released if there was one. */
  function Disposed(stream: Option<BodyStream>): (r: Option<BodyStream>)
    ensures r.Some? <==> stream.Some?
    ensures r.Some? ==> r.value.disposed && r.value.maxSize == stream.value.maxSize &&
                        r.value.isOpaque == stream.value.isOpaque
  {
    if stream.Some? then Some(stream.value.(disposed := true)) else None
  }

  /** What the first Dispose releases: the native request, then the identity, then the stream. */
  function DisposalEvents(hasIdentity: bool, hasStream: bool): (r: seq<NativeEvent>)
    ensures |r| > 0 && r[0] == ContextDisposed
    ensures IdentityDisposed in r <==> hasIdentity
    ensures StreamDisposed in r <==> hasStream
  {
    [ContextDisposed]
    + (if hasIdentity then [IdentityDisposed] else [])
    + (if hasStream then [StreamDisposed] else [])
  }

  /**
   * The trace accounts for the native resources: the handshake is read once
   * over TLS, the pins are released once, the stream is created once if it
   * exists and released once if it is disposed, and the request and the
   * identity are released once each after disposal.
   */
  ghost predicate TraceAccounts(trace: seq<NativeEvent>, stream: Option<BodyStream>, disposed: bool,
                                secure: bool, hasIdentity: bool)
  {
    var m := multiset(trace);
    m[TlsHandshakeRead] == (if secure then 1 else 0) &&
    m[PinsReleased] == 1 &&
    m[StreamCreated] == (if stream.Some? then 1 else 0) &&
    m[StreamDisposed] == (if stream.Some? && stream.value.disposed then 1 else 0) &&
    m[ContextDisposed] == (if disposed then 1 else 0) &&
    m[IdentityDisposed] == (if disposed && hasIdentity then 1 else 0) &&
    // Only Dispose releases the stream.
    (stream.Some? && stream.value.disposed ==> disposed)
  }

  /** The first Dispose keeps the trace accounted for. */
  lemma DisposalAccounted(trace: seq<NativeEvent>, stream: Option<BodyStream>, secure: bool, hasIdentity: bool)
    requires TraceAccounts(trace, stream, false, secure, hasIdentity)
    ensures TraceAccounts(trace + DisposalEvents(hasIdentity, stream.Some?),
                          Disposed(stream),
                          true, secure, hasIdentity)
    ensures multiset(trace + DisposalEvents(hasIdentity, stream.Some?))[ContextDisposed] == 1
  {
    assert multiset(trace + DisposalEvents(hasIdentity, stream.Some?))
        == multiset(trace) + multiset(DisposalEvents(hasIdentity, stream.Some?));
  }

  /** Creating the stream keeps the trace accounted for. */
  lemma CreationAccounted(trace: seq<NativeEvent>, stream: BodyStream, disposed: bool, secure: bool, hasIdentity: bool)
    requires TraceAccounts(trace, None, disposed, secure, hasIdentity)
    requires !stream.disposed
    ensures TraceAccounts(trace + [StreamCreated], Some(stream), disposed, secure, hasIdentity)
  {
    assert multiset(trace + [StreamCreated]) == multiset(trace) + multiset{StreamCreated};
  }

  /** A new request has read the handshake (over TLS) and released its pins, and holds nothing else. */
  lemma ConstructionAccounted(secure: bool, hasIdentity: bool)
    ensures TraceAccounts((if secure then [TlsHandshakeRead] else []) + [PinsReleased], None, false,
                          secure, hasIdentity)
  {
    var trace := (if secure then [TlsHandshakeRead] else []) + [PinsReleased];
    assert multiset(trace) == multiset(if secure then [TlsHandshakeRead] else []) + multiset{PinsReleased};
  }

  /** The certificate getters' events are not accounted resources: appending them keeps the account. */
  lemma UnaccountedKept(trace: seq<NativeEvent>, added: seq<NativeEvent>, stream: Option<BodyStream>,
                        disposed: bool, secure: bool, hasIdentity: bool)
    requires TraceAccounts(trace, stream, disposed, secure, hasIdentity)
    requires forall e :: e in added ==> e.ClientCertRead? || e.CertLoaderStarted? || e.CertLoaderDisposed?
    ensures TraceAccounts(trace + added, stream, disposed, secure, hasIdentity)
  {
    assert multiset(trace + added) == multiset(trace) + multiset(added);
    assert TlsHandshakeRead !in added && PinsReleased !in added && StreamCreated !in added;
    assert StreamDisposed !in added && ContextDisposed !in added && IdentityDisposed !in added;
  }

}
