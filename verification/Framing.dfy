/** The byte strings that are hashed into audit fingerprints: a domain, then parts behind their lengths. */
module Framing {
  import opened Lists
  import opened Hex

  // Lengths --------------------------------------------------------------

  /** `count` little-endian bytes of `n`. */
  function LittleEndian(n: nat, count: nat): (r: seq<Octet>)
    ensures |r| == count
    decreases count
  {
    if count == 0 then [] else [n % 256] + LittleEndian(n / 256, count - 1)
  }

  function Value(bytes: seq<Octet>): nat {
    if bytes == [] then 0 else bytes[0] + 256 * Value(bytes[1..])
  }

  function Power256(k: nat): nat {
    if k == 0 then 1 else 256 * Power256(k - 1)
  }

  lemma {:induction false} LengthRoundTrip(n: nat, count: nat)
    requires n < Power256(count)
    ensures Value(LittleEndian(n, count)) == n
    decreases count
  {
    if count > 0 {
      assert n / 256 < Power256(count - 1);
      LengthRoundTrip(n / 256, count - 1);
      assert LittleEndian(n, count)[1..] == LittleEndian(n / 256, count - 1);
    }
  }

  lemma EightBytes()
    ensures Power256(8) == U64_MAX + 1
  {
  }

  // Frames ---------------------------------------------------------------

  /** What `update_length_prefixed` feeds to the hasher: eight length bytes, then the value. A length is a
      machine word, so the clamp in the source never acts. */
  function Frame(value: seq<Octet>): seq<Octet> {
    LittleEndian(if |value| <= U64_MAX then |value| else U64_MAX, 8) + value
  }

  /** Reading one frame back. */
  function Unframe(bytes: seq<Octet>): Option<(seq<Octet>, seq<Octet>)> {
    if |bytes| < 8 then None
    else
      var n := Value(bytes[..8]);
      if |bytes| < 8 + n then None else Some((bytes[8..8 + n], bytes[8 + n..]))
  }

  /** A frame is read back whole, whatever follows it. */
  lemma FrameRoundTrip(value: seq<Octet>, rest: seq<Octet>)
    requires |value| <= U64_MAX
    ensures Unframe(Frame(value) + rest) == Some((value, rest))
  {
    hide LittleEndian, Value;
    EightBytes();
    LengthRoundTrip(|value|, 8);
    var bytes, prefix := Frame(value) + rest, LittleEndian(|value|, 8);
    assert bytes == prefix + value + rest;
    assert bytes[..8] == prefix && bytes[8..8 + |value|] == value && bytes[8 + |value|..] == rest;
  }

  // Preimages ------------------------------------------------------------

  function Ascii(s: string): (r: seq<Octet>)
    ensures |r| == |s|
    ensures forall i :: 0 <= i < |s| && s[i] as int < 256 ==> r[i] == s[i] as int
  {
    seq(|s|, i requires 0 <= i < |s| => s[i] as int % 256)
  }

  function AttestationDomain(): seq<Octet> {
    Ascii("forge-method:verified-attestation:v1\0")
  }

  function SignatureDomain(): seq<Octet> {
    Ascii("forge-method:attestation-signature:v1\0")
  }

  function NonceDomain(): seq<Octet> {
    Ascii("forge-method:execution-nonce-audit:v1\0")
  }

  datatype Material =
    | OfAttestation(canonical: seq<Octet>, signature: seq<Octet>)
    | OfSignature(signature: seq<Octet>)
    | OfNonce(nonce: seq<Octet>)

  function DomainOf(m: Material): seq<Octet> {
    match m
    case OfAttestation(_, _) => AttestationDomain()
    case OfSignature(_) => SignatureDomain()
    case OfNonce(_) => NonceDomain()
  }

  function PartsOf(m: Material): seq<Octet> {
    match m
    case OfAttestation(canonical, signature) => Frame(canonical) + Frame(signature)
    case OfSignature(signature) => Frame(signature)
    case OfNonce(nonce) => Frame(nonce)
  }

  /** Everything the hasher has absorbed when the fingerprint is taken. */
  function Preimage(m: Material): seq<Octet> {
    DomainOf(m) + PartsOf(m)
  }

  /** The incremental hasher, seen as the bytes it was fed. */
  class Hasher {
    var absorbed: seq<Octet>

    constructor ()
      ensures absorbed == []
    {
      absorbed := [];
    }

    method Update(bytes: seq<Octet>)
      modifies this
      ensures absorbed == old(absorbed) + bytes
    {
      absorbed := absorbed + bytes;
    }

    /** `update_length_prefixed` */
    method UpdateLengthPrefixed(value: seq<Octet>)
      modifies this
      ensures absorbed == old(absorbed) + Frame(value)
    {
      hide LittleEndian;
      var n := if |value| <= U64_MAX then |value| else U64_MAX;
      Update(LittleEndian(n, 8));
      Update(value);
      assert absorbed == old(absorbed) + (LittleEndian(n, 8) + value);
    }
  }

  /** `attestation_fingerprints`: what the two hashers absorb. */
  method AttestationFingerprints(canonical: seq<Octet>, signature: seq<Octet>)
    returns (r: Option<(seq<Octet>, seq<Octet>)>)
    ensures r.Some? <==> |signature| == 64
    ensures r.Some? ==> r.value == (Preimage(OfAttestation(canonical, signature)), Preimage(OfSignature(signature)))
  {
    hide AttestationDomain, SignatureDomain, Frame;
    if |signature| != 64 {
      return None;
    }
    var attestation := new Hasher();
    attestation.Update(AttestationDomain());
    attestation.UpdateLengthPrefixed(canonical);
    attestation.UpdateLengthPrefixed(signature);
    var single := new Hasher();
    single.Update(SignatureDomain());
    single.UpdateLengthPrefixed(signature);
    assert attestation.absorbed == AttestationDomain() + (Frame(canonical) + Frame(signature));
    assert single.absorbed == SignatureDomain() + Frame(signature);
    return Some((attestation.absorbed, single.absorbed));
  }

  /** `nonce_fingerprint`: what its hasher absorbs. */
  method NonceFingerprint(nonce: seq<Octet>) returns (r: seq<Octet>)
    ensures r == Preimage(OfNonce(nonce))
  {
    hide NonceDomain, Frame;
    var hasher := new Hasher();
    hasher.Update(NonceDomain());
    hasher.UpdateLengthPrefixed(nonce);
    assert hasher.absorbed == NonceDomain() + Frame(nonce);
    return hasher.absorbed;
  }

  /** The domains differ already in their fourteenth byte. */
  lemma DomainsDiffer()
    ensures |AttestationDomain()| > 13 && |SignatureDomain()| > 13 && |NonceDomain()| > 13
    ensures AttestationDomain()[13] == 'v' as int && SignatureDomain()[13] == 'a' as int
            && NonceDomain()[13] == 'e' as int
  {
  }

  ghost predicate Sized(m: Material) {
    match m
    case OfAttestation(canonical, signature) => |canonical| <= U64_MAX && |signature| <= U64_MAX
    case OfSignature(signature) => |signature| <= U64_MAX
    case OfNonce(nonce) => |nonce| <= U64_MAX
  }

  lemma DomainFixed(a: Material, b: Material)
    requires Preimage(a) == Preimage(b)
    ensures a.OfAttestation? == b.OfAttestation? && a.OfSignature? == b.OfSignature? && a.OfNonce? == b.OfNonce?
    ensures PartsOf(a) == PartsOf(b)
  {
    hide AttestationDomain, SignatureDomain, NonceDomain, PartsOf;
    DomainsDiffer();
    assert Preimage(a)[13] == DomainOf(a)[13] && Preimage(b)[13] == DomainOf(b)[13];
    assert Preimage(a)[|DomainOf(a)|..] == PartsOf(a) && Preimage(b)[|DomainOf(b)|..] == PartsOf(b);
  }

  /** Fingerprint framing is injective: equal preimages come from the same kind of material with the same
      parts, and preimages of different domains never coincide. */
  lemma PreimageInjective(a: Material, b: Material)
    requires Sized(a) && Sized(b) && Preimage(a) == Preimage(b)
    ensures a == b
  {
    hide Preimage, Frame, Unframe;
    DomainFixed(a, b);
    match a
    case OfAttestation(canonical, signature) =>
      FrameRoundTrip(canonical, Frame(signature));
      FrameRoundTrip(b.canonical, Frame(b.signature));
      FrameAlone(signature, b.signature);
    case OfSignature(signature) =>
      FrameAlone(signature, b.signature);
    case OfNonce(nonce) =>
      FrameAlone(nonce, b.nonce);
  }

  lemma FrameAlone(a: seq<Octet>, b: seq<Octet>)
    requires |a| <= U64_MAX && |b| <= U64_MAX
    ensures Frame(a) == Frame(b) ==> a == b
  {
    hide Frame, Unframe;
    FrameRoundTrip(a, []);
    FrameRoundTrip(b, []);
  }
}
