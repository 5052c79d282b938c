/**
 * SslProtocols normalization. SChannel reports the negotiated protocol with
 * separate client and server bits; .NET's SslProtocols gives each version a
 * two-bit mask covering both. Whenever either bit of a version's mask is set,
 * the request ORs in the whole mask, for all six versions in turn.
 *
 * A 32-bit flags value is modelled as the set of the positions of its set
 * bits: `&` is intersection, `|` is union and `!= 0` is non-emptiness.
 */
module TlsProtocols {

  type Bit = b: nat | b < 32
  type Flags = set<Bit>

  const SSL2: Flags := {2, 3}      // 0xC
  const SSL3: Flags := {4, 5}      // 0x30
  const TLS10: Flags := {6, 7}     // 0xC0
  const TLS11: Flags := {8, 9}     // 0x300
  const TLS12: Flags := {10, 11}   // 0xC00
  const TLS13: Flags := {12, 13}   // 0x3000

  /** The version masks in the order the request applies them, Ssl2 first. */
  const PROTOCOL_MASKS: seq<Flags> := [SSL2, SSL3, TLS10, TLS11, TLS12, TLS13]

  /** One `if ((p & mask) != 0) p |= mask;` step. */
  function Widen(p: Flags, mask: Flags): Flags {
    if p * mask != {} then p + mask else p
  }

  /** The steps applied one after another, first mask first; no step clears a bit. */
  function WidenAll(p: Flags, masks: seq<Flags>): (r: Flags)
    ensures p <= r
    decreases |masks|
  {
    if masks == [] then p else WidenAll(Widen(p, masks[0]), masks[1..])
  }

  /** The protocol value the request exposes for a negotiated protocol p. */
  function Normalize(p: Flags): Flags {
    WidenAll(p, PROTOCOL_MASKS)
  }

  ghost predicate Disjoint(masks: seq<Flags>) {
    forall i, j :: 0 <= i < j < |masks| ==> masks[i] * masks[j] == {}
  }

  /** Reference definition: the union of the masks p has at least one bit of. */
  function Touched(p: Flags, masks: seq<Flags>): (t: Flags)
    ensures forall b :: b in t <==> exists i :: 0 <= i < |masks| && b in masks[i] && p * masks[i] != {}
    decreases |masks|
  {
    if masks == [] then {}
    else
      var rest := Touched(p, masks[1..]);
      forall b | b in rest
        ensures exists i :: 0 <= i < |masks| && b in masks[i] && p * masks[i] != {}
      {
        var i :| 0 <= i < |masks[1..]| && b in masks[1..][i] && p * masks[1..][i] != {};
        assert masks[1..][i] == masks[i + 1];
      }
      (if p * masks[0] != {} then masks[0] else {}) + rest
  }

  /** The union of all the masks. */
  function Union(masks: seq<Flags>): (u: Flags)
    ensures forall b :: b in u <==> exists i :: 0 <= i < |masks| && b in masks[i]
    decreases |masks|
  {
    if masks == [] then {}
    else
      var rest := Union(masks[1..]);
      forall b | b in rest
        ensures exists i :: 0 <= i < |masks| && b in masks[i]
      {
        var i :| 0 <= i < |masks[1..]| && b in masks[1..][i];
        assert masks[1..][i] == masks[i + 1];
      }
      masks[0] + rest
  }

  /** Touched looks at p only through the masks: it sees what p has of each. */
  lemma {:induction false} TouchedSameOnMasks(p: Flags, q: Flags, masks: seq<Flags>)
    requires forall i :: 0 <= i < |masks| ==> (p * masks[i] != {} <==> q * masks[i] != {})
    ensures Touched(p, masks) == Touched(q, masks)
    decreases |masks|
  {
    if masks != [] {
      assert p * masks[0] != {} <==> q * masks[0] != {};
      forall i | 0 <= i < |masks[1..]|
        ensures p * masks[1..][i] != {} <==> q * masks[1..][i] != {}
      {
        assert masks[1..][i] == masks[i + 1];
      }
      TouchedSameOnMasks(p, q, masks[1..]);
    }
  }

  /**
   * The steps together set exactly the bits of the masks the input touched:
   * the output is the input plus those masks and nothing else.
   */
  lemma {:induction false} WidenAllIsTouched(p: Flags, masks: seq<Flags>)
    requires Disjoint(masks)
    ensures WidenAll(p, masks) == p + Touched(p, masks)
    decreases |masks|
  {
    if masks != [] {
      var m, rest := masks[0], masks[1..];
      assert Disjoint(rest) by {
        forall i, j | 0 <= i < j < |rest| ensures rest[i] * rest[j] == {} {
          assert rest[i] == masks[i + 1] && rest[j] == masks[j + 1];
        }
      }
      var q := Widen(p, m);
      WidenAllIsTouched(q, rest);
      forall i | 0 <= i < |rest|
        ensures p * rest[i] != {} <==> q * rest[i] != {}
      {
        assert rest[i] == masks[i + 1];
        assert m * rest[i] == {};
        if p * m != {} {
          assert q * rest[i] == p * rest[i] + m * rest[i];
        }
      }
      TouchedSameOnMasks(p, q, rest);
    }
  }

  lemma DisjointAt(masks: seq<Flags>, i: nat, j: nat, b: Bit)
    requires Disjoint(masks) && i < |masks| && j < |masks| && i != j && b in masks[i]
    ensures b !in masks[j]
  {
    if j < i {
      assert b !in masks[j] * masks[i];
    } else {
      assert b !in masks[i] * masks[j];
    }
  }

  /** Within a disjoint table, Touched holds all of a mask the input touched and none of one it did not. */
  lemma TouchedAt(p: Flags, masks: seq<Flags>, i: nat)
    requires Disjoint(masks) && i < |masks|
    ensures Touched(p, masks) * masks[i] == if p * masks[i] != {} then masks[i] else {}
  {
    var t := Touched(p, masks);
    if p * masks[i] == {} {
      forall b | b in masks[i] ensures b !in t {
        if b in t {
          var j :| 0 <= j < |masks| && b in masks[j] && p * masks[j] != {};
          DisjointAt(masks, i, j, b);
          assert false;
        }
      }
    }
  }

  /** After the steps, every mask of a disjoint table is fully set exactly when the input touched it, and fully clear otherwise. */
  lemma AllOrNone(p: Flags, masks: seq<Flags>, i: nat)
    requires Disjoint(masks) && i < |masks| && masks[i] != {}
    ensures masks[i] <= WidenAll(p, masks) <==> p * masks[i] != {}
    ensures WidenAll(p, masks) * masks[i] == {} <==> p * masks[i] == {}
  {
    WidenAllIsTouched(p, masks);
    TouchedAt(p, masks, i);
    if p * masks[i] == {} && masks[i] != {} {
      var b :| b in masks[i];
      assert b !in p by {
        assert b !in p * masks[i];
      }
      assert b !in Touched(p, masks) by {
        assert b !in Touched(p, masks) * masks[i];
      }
    }
  }

  /** Bits outside every mask pass through unchanged, and no input bit is lost. */
  lemma OutsideUnchanged(p: Flags, masks: seq<Flags>)
    requires Disjoint(masks)
    ensures WidenAll(p, masks) - Union(masks) == p - Union(masks)
    ensures p <= WidenAll(p, masks)
  {
    WidenAllIsTouched(p, masks);
  }

  /** Running the steps a second time changes nothing. */
  lemma Idempotent(p: Flags, masks: seq<Flags>)
    requires Disjoint(masks)
    ensures WidenAll(WidenAll(p, masks), masks) == WidenAll(p, masks)
  {
    var q := WidenAll(p, masks);
    WidenAllIsTouched(p, masks);
    WidenAllIsTouched(q, masks);
    forall i | 0 <= i < |masks|
      ensures p * masks[i] != {} <==> q * masks[i] != {}
    {
      assert p * masks[i] <= q * masks[i];
      TouchedAt(p, masks, i);
    }
    TouchedSameOnMasks(p, q, masks);
  }

  lemma ProtocolMasksDisjoint()
    ensures Disjoint(PROTOCOL_MASKS)
  {
    var m := PROTOCOL_MASKS;
    forall i | 0 <= i < |m| ensures m[i] == {2 * i + 2, 2 * i + 3} {
      if i == 0 {} else if i == 1 {} else if i == 2 {} else if i == 3 {} else if i == 4 {} else {}
    }
    forall i, j | 0 <= i < j < |m| ensures m[i] * m[j] == {} {
      forall b | b in m[i] ensures b !in m[j] {
        assert b == 2 * i + 2 || b == 2 * i + 3;
      }
    }
  }

  /** The table, applied in order, is the request's six `if`/`|=` steps. */
  lemma NormalizeSteps(p: Flags)
    ensures Normalize(p) ==
      Widen(Widen(Widen(Widen(Widen(Widen(p, SSL2), SSL3), TLS10), TLS11), TLS12), TLS13)
  {
    var m0 := PROTOCOL_MASKS;
    var m1 := m0[1..];
    var m2 := m1[1..];
    var m3 := m2[1..];
    var m4 := m3[1..];
    var m5 := m4[1..];
    var m6 := m5[1..];
    assert m0[0] == SSL2 && m1[0] == SSL3 && m2[0] == TLS10;
    assert m3[0] == TLS11 && m4[0] == TLS12 && m5[0] == TLS13 && m6 == [];
    var p1 := Widen(p, SSL2);
    var p2 := Widen(p1, SSL3);
    var p3 := Widen(p2, TLS10);
    var p4 := Widen(p3, TLS11);
    var p5 := Widen(p4, TLS12);
    var p6 := Widen(p5, TLS13);
    assert WidenAll(p, m0) == WidenAll(p1, m1);
    assert WidenAll(p1, m1) == WidenAll(p2, m2);
    assert WidenAll(p2, m2) == WidenAll(p3, m3);
    assert WidenAll(p3, m3) == WidenAll(p4, m4);
    assert WidenAll(p4, m4) == WidenAll(p5, m5);
    assert WidenAll(p5, m5) == WidenAll(p6, m6) == p6;
  }

  /** Every output bit is an input bit or lies in a version mask the input touched. */
  lemma NormalizeBits(p: Flags)
    ensures forall b :: b in Normalize(p) <==>
      b in p || exists i :: 0 <= i < |PROTOCOL_MASKS| && b in PROTOCOL_MASKS[i] && p * PROTOCOL_MASKS[i] != {}
  {
    ProtocolMasksDisjoint();
    WidenAllIsTouched(p, PROTOCOL_MASKS);
  }

  /** After normalization each version is all set when the input touched it, and all clear when not. */
  lemma NormalizeAllOrNone(p: Flags, i: nat)
    requires i < |PROTOCOL_MASKS|
    ensures PROTOCOL_MASKS[i] <= Normalize(p) <==> p * PROTOCOL_MASKS[i] != {}
    ensures Normalize(p) * PROTOCOL_MASKS[i] == {} <==> p * PROTOCOL_MASKS[i] == {}
  {
    ProtocolMasksDisjoint();
    AllOrNone(p, PROTOCOL_MASKS, i);
  }

  /** Bits outside the six masks are kept as they are, and no input bit is lost. */
  lemma NormalizeKeepsOtherBits(p: Flags)
    ensures Normalize(p) - Union(PROTOCOL_MASKS) == p - Union(PROTOCOL_MASKS)
    ensures p <= Normalize(p)
  {
    ProtocolMasksDisjoint();
    OutsideUnchanged(p, PROTOCOL_MASKS);
  }

  /** Normalizing a normalized value changes nothing. */
  lemma NormalizeIdempotent(p: Flags)
    ensures Normalize(Normalize(p)) == Normalize(p)
  {
    ProtocolMasksDisjoint();
    Idempotent(p, PROTOCOL_MASKS);
  }

  /**
   * A server-side bit alone gains its client-side partner, for the legacy
   * versions and equally for TLS 1.2 and 1.3: 0x40 (TLS 1.0 server) becomes
   * 0xC0, 0x400 (TLS 1.2 server) becomes 0xC00.
   */
  lemma NormalizeServerBits()
    ensures Normalize({6}) == TLS10
    ensures Normalize({10}) == TLS12
  {
    NormalizeSteps({6});
    assert Widen(Widen({6}, SSL2), SSL3) == {6};
    assert 6 in {6} * TLS10;
    assert Widen({6}, TLS10) == {6, 7};
    assert {6, 7} * TLS11 == {} && {6, 7} * TLS12 == {} && {6, 7} * TLS13 == {};
    NormalizeSteps({10});
    assert Widen(Widen(Widen(Widen({10}, SSL2), SSL3), TLS10), TLS11) == {10};
    assert 10 in {10} * TLS12;
    assert Widen({10}, TLS12) == {10, 11};
    assert {10, 11} * TLS13 == {};
  }

  /** Two versions touched at once (0x104) both become whole (0x30C); 0x10000 is no version bit. */
  lemma NormalizeMixedBits()
    ensures Normalize({2, 8}) == SSL2 + TLS11
    ensures Normalize({16}) == {16}
  {
    NormalizeSteps({2, 8});
    assert 2 in {2, 8} * SSL2;
    assert Widen({2, 8}, SSL2) == {2, 3, 8};
    assert Widen(Widen({2, 3, 8}, SSL3), TLS10) == {2, 3, 8};
    assert 8 in {2, 3, 8} * TLS11;
    assert Widen({2, 3, 8}, TLS11) == {2, 3, 8, 9};
    assert {2, 3, 8, 9} * TLS12 == {} && {2, 3, 8, 9} * TLS13 == {};
    NormalizeSteps({16});
    assert Widen(Widen(Widen({16}, SSL2), SSL3), TLS10) == {16};
    assert Widen(Widen(Widen({16}, TLS11), TLS12), TLS13) == {16};
  }
}
