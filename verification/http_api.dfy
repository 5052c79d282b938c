/**
 * The enumerations and integer widths that the HTTP.sys request carries,
 * and the unchecked C# casts the request applies to them.
 */
module HttpApi {

  const TWO_TO_31: int := 0x8000_0000
  const TWO_TO_32: int := 0x1_0000_0000
  const TWO_TO_63: int := 0x8000_0000_0000_0000
  const TWO_TO_64: int := 0x1_0000_0000_0000_0000

  type uint32 = x: int | 0 <= x < TWO_TO_32
  type uint64 = x: int | 0 <= x < TWO_TO_64

  /** The known verbs of HTTP_VERB; anything else arrives as Unknown. */
  datatype HttpVerb =
    | Unparsed | Unknown | Invalid | Options | Get | Head | Post | Put | Delete
    | Trace | Connect | Track | Move | Copy | Propfind | Proppatch | Mkcol
    | Lock | Unlock | Search

  /** Whether the connection is secure, and whether a client certificate came with the handshake. */
  datatype SslStatus = Insecure | NoClientCert | ClientCert

  /** A protocol version as HTTP.sys reports it: major and minor only. */
  datatype HttpVersion = HttpVersion(major: nat, minor: nat)

  const HTTP_2_0: HttpVersion := HttpVersion(2, 0)

  /** System.Version ordering restricted to major.minor versions. */
  predicate VersionLess(a: HttpVersion, b: HttpVersion) {
    a.major < b.major || (a.major == b.major && a.minor < b.minor)
  }

  /** C#'s unchecked `(int)` on a `uint`: keeps the low 32 bits as a signed value. */
  function UncheckedInt32(x: uint32): (r: int)
    ensures -TWO_TO_31 <= r < TWO_TO_31
    // Congruent to x modulo 2^32: the same 32 bits read as two's complement.
    ensures r == x || r == x - TWO_TO_32
    ensures x < TWO_TO_31 ==> r == x
  {
    if x < TWO_TO_31 then x else x - TWO_TO_32
  }

  /** C#'s unchecked `(long)` on a `ulong`: keeps the low 64 bits as a signed value. */
  function UncheckedInt64(x: uint64): (r: int)
    ensures -TWO_TO_63 <= r < TWO_TO_63
    // Congruent to x modulo 2^64: the same 64 bits read as two's complement.
    ensures r == x || r == x - TWO_TO_64
    ensures x < TWO_TO_63 ==> r == x
  {
    if x < TWO_TO_63 then x else x - TWO_TO_64
  }
}
