/**
 * The client-certificate cache of a request: the synchronous getter, which
 * reads the certificate the TLS handshake already carried, and the async
 * getter, which may start a loader that renegotiates for one. Each call is a
 * step from the cached value (null or a certificate) to a new cached value and
 * a result; the cache is only ever filled, never cleared or replaced.
 */
module ClientCertificates {
  import opened Wrappers
  import opened HttpApi

  /** An X.509 certificate, kept as its DER bytes. */
  datatype Certificate = Certificate(der: seq<bv8>)

  /** The exceptions a getter lets escape to its caller. */
  datatype CertFault = OperationCanceled | LoadFault | UnhandledReadFault

  /** What reading the handshake's client certificate from the native request gave. */
  datatype CertRead =
    | ReadOk(cert: Option<Certificate>)
    | CryptographicFault
    | SecurityFault
    | OtherReadFault

  /** How the certificate loader's LoadClientCertificateAsync finished. */
  datatype LoadOutcome = Loaded(cert: Option<Certificate>) | Cancelled | Faulted

  /**
   * One getter call: the cache afterwards, what the caller gets (a certificate
   * or null, or an exception), whether the native request or a loader was
   * asked, and whether the call disposed the loader it made.
   */
  datatype CertStep = CertStep(
    cache: Option<Certificate>,
    result: Result<Option<Certificate>, CertFault>,
    loaded: bool,
    loaderDisposed: bool)

  /** The synchronous ClientCertificate getter. */
  function SyncCertificate(status: SslStatus, cache: Option<Certificate>, read: CertRead): (s: CertStep)
    // The native request is asked only when nothing is cached and the client sent a certificate.
    ensures s.loaded <==> cache.None? && status == ClientCert
    ensures !s.loaded ==> s.cache == cache && s.result == Ok(cache)
    ensures s.loaded && read.ReadOk? ==> s.cache == read.cert && s.result == Ok(read.cert)
    // Cryptographic and security faults are logged and swallowed: the caller sees null.
    ensures s.loaded && (read.CryptographicFault? || read.SecurityFault?) ==>
      s.cache == None && s.result == Ok(None)
    // Every other fault reaches the caller and leaves the cache as it was.
    ensures s.result.Err? <==> s.loaded && read.OtherReadFault?
    ensures s.result.Err? ==> s.cache == cache
    // A cached certificate is returned as is and never replaced.
    ensures cache.Some? ==> s.cache == cache && s.result == Ok(cache)
    ensures s.result.Ok? ==> s.result.value == s.cache
    ensures !s.loaderDisposed
  {
    if cache.None? && status == ClientCert then
      match read
      case ReadOk(c) => CertStep(c, Ok(c), true, false)
      case CryptographicFault => CertStep(cache, Ok(cache), true, false)
      case SecurityFault => CertStep(cache, Ok(cache), true, false)
      case OtherReadFault => CertStep(cache, Err(UnhandledReadFault), true, false)
    else
      CertStep(cache, Ok(cache), false, false)
  }

  /**
   * GetClientCertificateAsync, with the cancellation token's state on entry
   * and the loader's outcome as inputs (the outcome is only consulted when a
   * loader is started).
   */
  function AsyncCertificate(status: SslStatus, cache: Option<Certificate>, cancelled: bool,
                            outcome: LoadOutcome): (s: CertStep)
    // Not over TLS: null, without loading.
    ensures status == Insecure ==> s == CertStep(cache, Ok(None), false, false)
    // A cached certificate is returned without loading, even when cancellation was requested.
    ensures status != Insecure && cache.Some? ==> s == CertStep(cache, Ok(cache), false, false)
    // No cache and cancellation requested: fails before any loader is made.
    ensures status != Insecure && cache.None? && cancelled ==>
      s == CertStep(cache, Err(OperationCanceled), false, false)
    // A loader runs exactly when TLS is on, nothing is cached and cancellation was not requested.
    ensures s.loaded <==> status != Insecure && cache.None? && !cancelled
    // A failed or cancelled load keeps the cache, disposes the loader and rethrows.
    ensures s.loaded && !outcome.Loaded? ==>
      s.cache == cache && s.result.Err? && s.loaderDisposed
    ensures s.loaded && outcome.Cancelled? ==> s.result == Err(OperationCanceled)
    // A successful load caches what it found (a null certificate leaves the cache empty).
    ensures s.loaded && outcome.Loaded? ==>
      s.cache == outcome.cert && s.result == Ok(outcome.cert) && !s.loaderDisposed
    ensures s.loaderDisposed ==> s.loaded
    ensures cache.Some? ==> s.cache == cache
  {
    if status == Insecure then
      CertStep(cache, Ok(None), false, false)
    else if cache.Some? then
      CertStep(cache, Ok(cache), false, false)
    else if cancelled then
      CertStep(cache, Err(OperationCanceled), false, false)
    else
      match outcome
      case Loaded(c) =>
        var cached := if c.Some? then c else cache;
        CertStep(cached, Ok(cached), true, false)
      case Cancelled => CertStep(cache, Err(OperationCanceled), true, true)
      case Faulted => CertStep(cache, Err(LoadFault), true, true)
  }

  /** A call to one of the two getters, with its environment. */
  datatype CertCall =
    | SyncCall(read: CertRead)
    | AsyncCall(cancelled: bool, outcome: LoadOutcome)

  function Step(status: SslStatus, cache: Option<Certificate>, call: CertCall): CertStep {
    match call
    case SyncCall(read) => SyncCertificate(status, cache, read)
    case AsyncCall(cancelled, outcome) => AsyncCertificate(status, cache, cancelled, outcome)
  }

  /** The cache after a run of calls, in order. */
  function FinalCache(status: SslStatus, cache: Option<Certificate>, calls: seq<CertCall>): Option<Certificate>
    decreases |calls|
  {
    if calls == [] then cache
    else FinalCache(status, Step(status, cache, calls[0]).cache, calls[1..])
  }

  /** What each call of the run returned. */
  function Results(status: SslStatus, cache: Option<Certificate>, calls: seq<CertCall>)
    : seq<Result<Option<Certificate>, CertFault>>
    decreases |calls|
  {
    if calls == [] then []
    else
      var s := Step(status, cache, calls[0]);
      [s.result] + Results(status, s.cache, calls[1..])
  }

  /** How many calls of the run asked the native request or started a loader. */
  function Loads(status: SslStatus, cache: Option<Certificate>, calls: seq<CertCall>): nat
    decreases |calls|
  {
    if calls == [] then 0
    else
      var s := Step(status, cache, calls[0]);
      (if s.loaded then 1 else 0) + Loads(status, s.cache, calls[1..])
  }

  /** How many calls of the run turned an empty cache into a certificate. */
  function Populations(status: SslStatus, cache: Option<Certificate>, calls: seq<CertCall>): nat
    decreases |calls|
  {
    if calls == [] then 0
    else
      var s := Step(status, cache, calls[0]);
      (if cache.None? && s.cache.Some? then 1 else 0) + Populations(status, s.cache, calls[1..])
  }

  /**
   * Once a certificate is cached, no call loads again, the cache stays that
   * certificate, and over TLS every call returns it.
   */
  lemma {:induction false} CachedIsStable(status: SslStatus, c: Certificate, calls: seq<CertCall>)
    ensures FinalCache(status, Some(c), calls) == Some(c)
    ensures Loads(status, Some(c), calls) == 0
    ensures Populations(status, Some(c), calls) == 0
    ensures |Results(status, Some(c), calls)| == |calls|
    ensures status != Insecure ==>
      forall k :: 0 <= k < |calls| ==> Results(status, Some(c), calls)[k] == Ok(Some(c))
    decreases |calls|
  {
    if calls != [] {
      CachedIsStable(status, c, calls[1..]);
    }
  }

  /** The cache is filled at most once over any run of calls, and never once it is full. */
  lemma {:induction false} AtMostOnePopulation(status: SslStatus, cache: Option<Certificate>, calls: seq<CertCall>)
    ensures Populations(status, cache, calls) <= 1
    ensures cache.Some? ==> Populations(status, cache, calls) == 0
    ensures cache.Some? ==> FinalCache(status, cache, calls) == cache
    decreases |calls|
  {
    if calls != [] {
      var s := Step(status, cache, calls[0]);
      if s.cache.Some? {
        CachedIsStable(status, s.cache.value, calls[1..]);
      } else {
        AtMostOnePopulation(status, s.cache, calls[1..]);
      }
    }
  }

  /** Without TLS nothing is ever loaded, nothing cached, and every call returns null. */
  lemma {:induction false} InsecureNeverLoads(calls: seq<CertCall>)
    ensures FinalCache(Insecure, None, calls) == None
    ensures Loads(Insecure, None, calls) == 0
    ensures Results(Insecure, None, calls) == seq(|calls|, k => Ok(None))
    decreases |calls|
  {
    if calls != [] {
      InsecureNeverLoads(calls[1..]);
    }
  }
}
