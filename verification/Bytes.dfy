/** The byte encodings the audit chain hashes (audit/audit.go): big-endian
    integers and length-prefixed values, with decoders and the round trips. */
module Bytes {
  import opened Common

  type byte = x: int | 0 <= x < 256

  type bytes = seq<byte>

  /** A Go string literal, as bytes. */
  function Ascii(s: string): bytes
  {
    seq(|s|, i requires 0 <= i < |s| => (s[i] as int) % 256)
  }

  // ----- big-endian integers -----

  function Pow256(n: nat): (r: nat)
    ensures r > 0
  {
    if n == 0 then 1 else 256 * Pow256(n - 1)
  }

  /** The n low-order base-256 digits of v, most significant first. Dafny's
      division rounds down here, so a negative v gives its two's complement:
      this is both uint32(len) truncated and the bit pattern of an int64. */
  function BigEndian(n: nat, v: int): (r: bytes)
    ensures |r| == n
  {
    if n == 0 then [] else BigEndian(n - 1, v / 256) + [v % 256]
  }

  function FromBigEndian(s: bytes): nat
  {
    if s == [] then 0 else 256 * FromBigEndian(s[..|s| - 1]) + s[|s| - 1]
  }

  lemma {:induction false} BigEndianRoundTrip(n: nat, v: nat)
    requires v < Pow256(n)
    ensures FromBigEndian(BigEndian(n, v)) == v
  {
    if n > 0 {
      assert BigEndian(n, v)[..n - 1] == BigEndian(n - 1, v / 256);
      BigEndianRoundTrip(n - 1, v / 256);
    }
  }

  /** Only the low n bytes matter, so adding a multiple of 256^n changes nothing. */
  lemma {:induction false} BigEndianShift(n: nat, v: int, k: int)
    ensures BigEndian(n, v + k * Pow256(n)) == BigEndian(n, v)
  {
    if n > 0 {
      var p := Pow256(n - 1);
      assert k * Pow256(n) == 256 * (k * p);
      assert (v + 256 * (k * p)) / 256 == v / 256 + k * p;
      assert (v + 256 * (k * p)) % 256 == v % 256;
      BigEndianShift(n - 1, v / 256, k);
    }
  }

  predicate IsInt64(v: int)
  {
    -TWO_TO_THE_63 <= v < TWO_TO_THE_63
  }

  /** Reads eight bytes as a signed 64-bit integer. */
  function Int64FromBytes(s: bytes): int
  {
    var u := FromBigEndian(s);
    if u < TWO_TO_THE_63 then u else u - TWO_TO_THE_64
  }

  lemma Pow256Values()
    ensures Pow256(4) == TWO_TO_THE_32 && Pow256(8) == TWO_TO_THE_64
  {
  }

  lemma Int64RoundTrip(v: int)
    requires IsInt64(v)
    ensures Int64FromBytes(BigEndian(8, v)) == v
  {
    Pow256Values();
    if v >= 0 {
      BigEndianRoundTrip(8, v);
    } else {
      BigEndianShift(8, v, 1);
      BigEndianRoundTrip(8, v + TWO_TO_THE_64);
    }
  }

  // ----- length-prefixed values -----

  /** appendLP: the length in four bytes (truncated like Go's uint32), then the value. */
  function LengthPrefixed(v: bytes): bytes
  {
    BigEndian(4, |v|) + v
  }

  /** One field of a payload: a short literal name and a value. */
  datatype Field = Field(name: bytes, value: bytes)

  function Encode(fields: seq<Field>): bytes
  {
    if fields == [] then []
    else LengthPrefixed(fields[0].name) + LengthPrefixed(fields[0].value) + Encode(fields[1..])
  }

  predicate Fits(v: bytes)
  {
    |v| < TWO_TO_THE_32
  }

  predicate AllFit(fields: seq<Field>)
  {
    forall i :: 0 <= i < |fields| ==> Fits(fields[i].name) && Fits(fields[i].value)
  }

  /** Splits the first length-prefixed value off. */
  function TakePrefixed(s: bytes): (r: Option<(bytes, bytes)>)
    ensures r.Some? ==> |r.value.1| < |s|
  {
    if |s| < 4 then None
    else
      var n := FromBigEndian(s[..4]);
      if |s| - 4 < n then None else Some((s[4..4 + n], s[4 + n..]))
  }

  function Decode(s: bytes): Option<seq<Field>>
    decreases |s|
  {
    if s == [] then Some([])
    else
      match TakePrefixed(s)
      case None => None
      case Some((name, rest)) =>
        match TakePrefixed(rest)
        case None => None
        case Some((value, rest')) =>
          match Decode(rest')
          case None => None
          case Some(fields) => Some([Field(name, value)] + fields)
  }

  lemma TakePrefixedRoundTrip(v: bytes, rest: bytes)
    requires Fits(v)
    ensures TakePrefixed(LengthPrefixed(v) + rest) == Some((v, rest))
  {
    var s := LengthPrefixed(v) + rest;
    assert s[..4] == BigEndian(4, |v|);
    Pow256Values();
    BigEndianRoundTrip(4, |v|);
    assert s[4..4 + |v|] == v;
    assert s[4 + |v|..] == rest;
  }

  lemma {:induction false} EncodeRoundTrip(fields: seq<Field>)
    requires AllFit(fields)
    ensures Decode(Encode(fields)) == Some(fields)
  {
    if fields != [] {
      var f, rest := fields[0], Encode(fields[1..]);
      TakePrefixedRoundTrip(f.value, rest);
      TakePrefixedRoundTrip(f.name, LengthPrefixed(f.value) + rest);
      assert Encode(fields) == LengthPrefixed(f.name) + (LengthPrefixed(f.value) + rest);
      EncodeRoundTrip(fields[1..]);
      assert fields == [f] + fields[1..];
    }
  }

  lemma {:induction false} EncodeAppend(fields: seq<Field>, f: Field)
    ensures Encode(fields + [f]) == Encode(fields) + LengthPrefixed(f.name) + LengthPrefixed(f.value)
  {
    if fields == [] {
      assert fields + [f] == [f];
    } else {
      assert (fields + [f])[1..] == fields[1..] + [f];
      EncodeAppend(fields[1..], f);
    }
  }
}
