/** Handshake messages, the payload a challenge signature covers, and feature negotiation. */
module Protocol {
  import opened Base
  import opened Sorting
  import Postcard

  type Key = b: Bytes | |b| == 32 witness seq(32, _ => 0)
  type Nonce = b: Bytes | |b| == 32 witness seq(32, _ => 0)
  type SessionId = b: Bytes | |b| == 16 witness seq(16, _ => 0)

  datatype Version = Version(major: U16, minor: U16)

  /** Feature names are their UTF-8 bytes. */
  datatype Hello = Hello(version: Version, features: seq<Bytes>, key: Key, session: SessionId)

  const PROTOCOL_VERSION := Version(1, 0)

  /** The 48 bytes of key and session id at the end. */
  function EncodeTail(h: Hello): Bytes {
    h.key + h.session
  }

  function EncodeBody(h: Hello): Bytes {
    Postcard.BlockList(h.features) + EncodeTail(h)
  }

  function EncodeHello(h: Hello): Bytes {
    Postcard.Varint(h.version.major) + (Postcard.Varint(h.version.minor) + EncodeBody(h))
  }

  lemma {:induction false} EncodeHelloInjective(h: Hello, k: Hello)
    requires EncodeHello(h) == EncodeHello(k)
    ensures h == k
  {
    var x := Postcard.Varint(h.version.minor) + EncodeBody(h);
    var y := Postcard.Varint(k.version.minor) + EncodeBody(k);
    Postcard.VarintSplits(h.version.major, k.version.major, x, y);
    Postcard.VarintSplits(h.version.minor, k.version.minor, EncodeBody(h), EncodeBody(k));
    Postcard.BlockListSplits(h.features, k.features, EncodeTail(h), EncodeTail(k));
    assert h.key == EncodeTail(h)[..32] && k.key == EncodeTail(k)[..32];
    assert h.session == EncodeTail(h)[32..] && k.session == EncodeTail(k)[32..];
  }

  /** `challenge_payload`: the serialized hello followed by the nonce. */
  function Payload(h: Hello, nonce: Nonce): Bytes {
    EncodeHello(h) + nonce
  }

  /** A signed payload names one hello and one nonce. */
  lemma {:induction false} PayloadSplits(h: Hello, m: Nonce, k: Hello, n: Nonce)
    requires Payload(h, m) == Payload(k, n)
    ensures h == k && m == n
  {
    var cut := |Payload(h, m)| - 32;
    assert EncodeHello(h) == Payload(h, m)[..cut] && EncodeHello(k) == Payload(k, n)[..cut];
    assert m == Payload(h, m)[cut..] && n == Payload(k, n)[cut..];
    EncodeHelloInjective(h, k);
  }

  /** Byte-wise lexicographic order, the order of strings. */
  predicate AtMost(a: Bytes, b: Bytes) {
    a == [] || (b != [] && (a[0] < b[0] || (a[0] == b[0] && AtMost(a[1..], b[1..]))))
  }

  lemma {:induction false} AtMostTotal(a: Bytes, b: Bytes)
    ensures AtMost(a, b) || AtMost(b, a)
    ensures AtMost(a, b) && AtMost(b, a) ==> a == b
  {
    if a == [] || b == [] {
    } else {
      AtMostTotal(a[1..], b[1..]);
      assert a == [a[0]] + a[1..] && b == [b[0]] + b[1..];
    }
  }

  lemma {:induction false} AtMostTransitive(a: Bytes, b: Bytes, c: Bytes)
    requires AtMost(a, b) && AtMost(b, c)
    ensures AtMost(a, c)
  {
    if a == [] {
    } else if a[0] == b[0] && b[0] == c[0] {
      AtMostTransitive(a[1..], b[1..], c[1..]);
    }
  }

  /** Byte order is a total order. */
  lemma {:induction false} AtMostIsOrder()
    ensures TotalPreorder(AtMost)
    ensures forall a, b :: AtMost(a, b) && AtMost(b, a) ==> a == b
  {
    forall a, b ensures AtMost(a, b) || AtMost(b, a)
               ensures AtMost(a, b) && AtMost(b, a) ==> a == b {
      AtMostTotal(a, b);
    }
    forall a, b, c | AtMost(a, b) && AtMost(b, c) ensures AtMost(a, c) {
      AtMostTransitive(a, b, c);
    }
  }

  ghost predicate Ordered(s: seq<Bytes>) {
    forall i, j :: 0 <= i < j < |s| ==> AtMost(s[i], s[j])
  }

  /** `features.sort()`. */
  function SortFeatures(s: seq<Bytes>): (r: seq<Bytes>)
    ensures Ordered(r) && multiset(r) == multiset(s)
  {
    AtMostIsOrder();
    SortSorts(AtMost, s);
    Sort(AtMost, s)
  }

  /** A multiset has one ordered listing. */
  lemma {:induction false} OrderedUnique(a: seq<Bytes>, b: seq<Bytes>)
    requires Ordered(a) && Ordered(b) && multiset(a) == multiset(b)
    ensures a == b
  {
    AtMostIsOrder();
    SortedUnique(AtMost, a, b);
  }

  function Shared(local: seq<Bytes>, remote: seq<Bytes>): seq<Bytes> {
    if local == [] then []
    else if local[0] in remote then [local[0]] + Shared(local[1..], remote)
    else Shared(local[1..], remote)
  }

  lemma {:induction false} SharedCounts(local: seq<Bytes>, remote: seq<Bytes>, f: Bytes)
    ensures multiset(Shared(local, remote))[f] == if f in remote then multiset(local)[f] else 0
  {
    if local != [] {
      SharedCounts(local[1..], remote, f);
      assert local == [local[0]] + local[1..];
    }
  }

  datatype Negotiated = Negotiated(version: Version, features: seq<Bytes>)

  datatype MajorMismatch = MajorMismatch(local: U16, remote: U16)

  function Min(a: U16, b: U16): U16 {
    if a <= b then a else b
  }

  function Negotiate(local: Version, localFeatures: seq<Bytes>, remote: Version,
      remoteFeatures: seq<Bytes>): Result<Negotiated, MajorMismatch> {
    if local.major != remote.major then Err(MajorMismatch(local.major, remote.major))
    else
      var version := Version(local.major, Min(local.minor, remote.minor));
      Ok(Negotiated(version, SortFeatures(Shared(localFeatures, remoteFeatures))))
  }

  /** `negotiate`: the filter loop, then a sort of the kept features. */
  method NegotiateProtocol(local: Version, localFeatures: seq<Bytes>, remote: Version, remoteFeatures: seq<Bytes>)
    returns (r: Result<Negotiated, MajorMismatch>)
    ensures r == Negotiate(local, localFeatures, remote, remoteFeatures)
    ensures r.Ok? <==> local.major == remote.major
    ensures r.Err? ==> r.error == MajorMismatch(local.major, remote.major)
    ensures r.Ok? ==> r.value.version.major == local.major == remote.major
    ensures r.Ok? ==> r.value.version.minor <= local.minor && r.value.version.minor <= remote.minor
    ensures r.Ok? ==> r.value.version.minor == local.minor || r.value.version.minor == remote.minor
    ensures r.Ok? ==> Ordered(r.value.features)
    ensures r.Ok? ==> forall f :: f in r.value.features <==> f in localFeatures && f in remoteFeatures
    ensures r.Ok? ==> forall f :: f in remoteFeatures ==> multiset(r.value.features)[f] == multiset(localFeatures)[f]
  {
    if local.major != remote.major {
      return Err(MajorMismatch(local.major, remote.major));
    }
    var features: seq<Bytes> := [];
    for i := 0 to |localFeatures|
      invariant features + Shared(localFeatures[i..], remoteFeatures) == Shared(localFeatures, remoteFeatures)
    {
      SuffixStep(localFeatures, i);
      if localFeatures[i] in remoteFeatures {
        features := features + [localFeatures[i]];
      }
    }
    assert localFeatures[|localFeatures|..] == [] && features + [] == features;
    var sorted := SortFeatures(features);
    forall f ensures f in sorted <==> f in localFeatures && f in remoteFeatures
             ensures f in remoteFeatures ==> multiset(sorted)[f] == multiset(localFeatures)[f] {
      SharedCounts(localFeatures, remoteFeatures, f);
      assert f in sorted <==> f in multiset(sorted);
      assert f in localFeatures <==> f in multiset(localFeatures);
    }
    return Ok(Negotiated(Version(local.major, Min(local.minor, remote.minor)), sorted));
  }

  /** The negotiated version is the older of two that share a major, and a version negotiated with itself is itself,
      whatever the features. */
  lemma {:induction false} NegotiatedVersion(a: Version, af: seq<Bytes>, b: Version, bf: seq<Bytes>, v: Negotiated)
    requires Negotiate(a, af, b, bf) == Ok(v)
    ensures v.version.major == a.major == b.major
    ensures v.version.minor <= a.minor && v.version.minor <= b.minor
    ensures v.version.minor == a.minor || v.version.minor == b.minor
    ensures a == b ==> v.version == a
  {
  }

  /** k is the first place at which the two differ, and a has the smaller byte there. */
  ghost predicate SmallerAt(a: Bytes, b: Bytes, k: nat) {
    k < |a| && k < |b| && a[..k] == b[..k] && a[k] < b[k]
  }

  lemma {:induction false} SmallerBehind(x: Byte, s: Bytes, t: Bytes, k: nat)
    ensures SmallerAt([x] + s, [x] + t, k + 1) <==> SmallerAt(s, t, k)
    ensures !SmallerAt([x] + s, [x] + t, 0)
  {
    var a, b := [x] + s, [x] + t;
    if k < |s| && k < |t| {
      assert a[..k + 1] == [x] + s[..k] && b[..k + 1] == [x] + t[..k];
      assert s[..k] == a[..k + 1][1..] && t[..k] == b[..k + 1][1..];
    }
  }

  lemma {:induction false} PrefixKeepsHead(a: Bytes, b: Bytes, k: nat)
    requires SmallerAt(a, b, k)
    ensures a[0] <= b[0] && (a[0] < b[0] ==> k == 0)
  {
    if k > 0 { assert a[..k][0] == a[0] && b[..k][0] == b[0]; }
  }

  /** Byte order decided at the first difference; a prefix comes first. */
  lemma {:induction false} AtMostIff(a: Bytes, b: Bytes)
    ensures AtMost(a, b) <==> a <= b || exists k :: SmallerAt(a, b, k)
  {
    if a == [] || b == [] {
    } else {
      var s, t := a[1..], b[1..];
      AtMostIff(s, t);
      assert a == [a[0]] + s && b == [b[0]] + t;
      forall k: nat ensures SmallerAt(a, b, k) ==> a[0] <= b[0] && (a[0] < b[0] ==> k == 0) {
        if SmallerAt(a, b, k) { PrefixKeepsHead(a, b, k); }
      }
      if a[0] == b[0] {
        SameHead(a[0], s, t);
      } else if a[0] < b[0] {
        assert SmallerAt(a, b, 0);
      }
    }
  }

  lemma {:induction false} SameHead(x: Byte, s: Bytes, t: Bytes)
    ensures (exists k :: SmallerAt([x] + s, [x] + t, k)) <==> exists k :: SmallerAt(s, t, k)
    ensures [x] + s <= [x] + t <==> s <= t
  {
    forall k: nat ensures SmallerAt([x] + s, [x] + t, k + 1) <==> SmallerAt(s, t, k)
                  ensures !SmallerAt([x] + s, [x] + t, 0) {
      SmallerBehind(x, s, t, k);
    }
    if k: nat :| SmallerAt([x] + s, [x] + t, k) {
      assert SmallerAt(s, t, k - 1);
    }
    if k: nat :| SmallerAt(s, t, k) {
      assert SmallerAt([x] + s, [x] + t, k + 1);
    }
    assert ([x] + s)[1..] == s && ([x] + t)[1..] == t;
  }

  /** Both ends negotiate the same protocol exactly when every shared feature is listed equally often by both; in
      particular whenever neither lists a feature twice. */
  lemma {:induction false} NegotiationAgrees(a: Version, af: seq<Bytes>, b: Version, bf: seq<Bytes>)
    requires a.major == b.major
    ensures Negotiate(a, af, b, bf) == Negotiate(b, bf, a, af) <==>
      forall f :: f in af && f in bf ==> multiset(af)[f] == multiset(bf)[f]
  {
    var l, r := Shared(af, bf), Shared(bf, af);
    SameCounts(af, bf);
    if multiset(l) == multiset(r) {
      OrderedUnique(SortFeatures(l), SortFeatures(r));
    }
  }

  lemma {:induction false} SameCounts(af: seq<Bytes>, bf: seq<Bytes>)
    ensures multiset(Shared(af, bf)) == multiset(Shared(bf, af)) <==>
      forall f :: f in af && f in bf ==> multiset(af)[f] == multiset(bf)[f]
  {
    var l, r := multiset(Shared(af, bf)), multiset(Shared(bf, af));
    forall f ensures l[f] == (if f in bf then multiset(af)[f] else 0)
             ensures r[f] == (if f in af then multiset(bf)[f] else 0)
             ensures f in af <==> f in multiset(af)
             ensures f in bf <==> f in multiset(bf) {
      SharedCounts(af, bf, f);
      SharedCounts(bf, af, f);
    }
  }
}
