/** crypto/keyset.go: key encryption keys by id, and envelopes that name the key
    they were sealed under. AES-GCM is any cipher that opens what it sealed. */
module KeySet {
  import opened Common
  import opened Bytes

  type Key = bytes

  datatype Cipher = Cipher(seal: (Key, bytes, bytes) -> bytes, open: (Key, bytes, bytes) -> Option<bytes>)

  /** open undoes seal under the same key and nonce. */
  ghost predicate Correct(c: Cipher)
  {
    forall k, n, p :: c.open(k, n, c.seal(k, n, p)) == Some(p)
  }

  const NONCE_SIZE := 12
  const KEK_HEX_LEN := 64

  datatype Error = ZeroKeyID | DuplicateKeyID | BadKey | UnknownWriteKey | UnknownKeyID | OpenFailed | NonceFailed

  // ----- hex -----

  function HexDigit(ch: char): (r: Option<byte>)
    ensures r.Some? ==> r.value < 16
  {
    if '0' <= ch <= '9' then Some(ch as int - '0' as int)
    else if 'a' <= ch <= 'f' then Some(ch as int - 'a' as int + 10)
    else if 'A' <= ch <= 'F' then Some(ch as int - 'A' as int + 10)
    else None
  }

  /** Two digits to a byte. */
  function HexDecode(s: string): (r: Option<bytes>)
    ensures r.Some? ==> |s| == 2 * |r.value|
  {
    if s == [] then Some([])
    else if |s| == 1 then None
    else
      var hi, lo, rest := HexDigit(s[0]), HexDigit(s[1]), HexDecode(s[2..]);
      if hi.None? || lo.None? || rest.None? then None
      else Some([hi.value * 16 + lo.value] + rest.value)
  }

  /** How keys are written down: two lower-case digits to a byte. */
  function HexEncode(b: bytes): string
  {
    if b == [] then "" else [HexDigitOf(b[0] / 16), HexDigitOf(b[0] % 16)] + HexEncode(b[1..])
  }

  function HexDigitOf(n: nat): char
    requires n < 16
  {
    "0123456789abcdef"[n]
  }

  /** The six letters may also be upper case. */
  function LowerHex(s: string): string
  {
    seq(|s|, i requires 0 <= i < |s| => if 'A' <= s[i] <= 'F' then (s[i] as int + 32) as char else s[i])
  }

  /** Decoding reads exactly what is written that way, and nothing else. */
  lemma {:induction false} HexDecodeIff(s: string, b: bytes)
    ensures HexDecode(s) == Some(b) <==> LowerHex(s) == HexEncode(b)
  {
    HexLength(b);
    if |s| >= 2 {
      var rest := LowerHex(s[2..]);
      assert LowerHex(s) == [LowerHex(s)[0], LowerHex(s)[1]] + rest;
      if b != [] {
        HexDecodeIff(s[2..], b[1..]);
        HexDigitIff(s[0], b[0] / 16);
        HexDigitIff(s[1], b[0] % 16);
        HexPair(s, b);
      }
    }
  }

  lemma HexPair(s: string, b: bytes)
    requires |s| >= 2 && b != []
    requires HexDecode(s[2..]) == Some(b[1..]) <==> LowerHex(s[2..]) == HexEncode(b[1..])
    requires HexDigit(s[0]) == Some(b[0] / 16) <==> LowerHex(s)[0] == HexDigitOf(b[0] / 16)
    requires HexDigit(s[1]) == Some(b[0] % 16) <==> LowerHex(s)[1] == HexDigitOf(b[0] % 16)
    ensures HexDecode(s) == Some(b) <==> LowerHex(s) == HexEncode(b)
  {
    assert b == [b[0]] + b[1..];
    assert LowerHex(s)[2..] == LowerHex(s[2..]);
    if LowerHex(s) == HexEncode(b) {
      assert HexEncode(b)[2..] == HexEncode(b[1..]);
      assert LowerHex(s)[0] == HexEncode(b)[0] && LowerHex(s)[1] == HexEncode(b)[1];
    }
    if HexDecode(s) == Some(b) {
      var hi, lo := HexDigit(s[0]).value, HexDigit(s[1]).value;
      assert b[0] == hi * 16 + lo && b[0] / 16 == hi && b[0] % 16 == lo;
      assert b[1..] == HexDecode(s[2..]).value;
      assert LowerHex(s) == [LowerHex(s)[0], LowerHex(s)[1]] + LowerHex(s)[2..];
    }
  }

  lemma HexDigitIff(ch: char, n: nat)
    requires n < 16
    ensures HexDigit(ch) == Some(n) <==> LowerHex([ch])[0] == HexDigitOf(n)
  {
  }

  lemma {:induction false} HexLength(b: bytes)
    ensures |HexEncode(b)| == 2 * |b|
  {
    if b != [] { HexLength(b[1..]); }
  }

  // ----- building -----

  datatype KEKEntry = KEKEntry(id: byte, key: string)

  datatype KeySet = KeySet(keys: map<byte, Key>, writeKeyID: byte) {
    predicate Valid()
    {
      writeKeyID in keys && 0 !in keys
    }
  }

  predicate GoodEntry(e: KEKEntry)
  {
    e.id != 0 && |e.key| == KEK_HEX_LEN && HexDecode(e.key).Some?
  }

  ghost predicate GoodEntries(entries: seq<KEKEntry>)
  {
    && (forall i :: 0 <= i < |entries| ==> GoodEntry(entries[i]))
    && (forall i, j :: 0 <= i < j < |entries| ==> entries[i].id != entries[j].id)
  }

  predicate HasID(entries: seq<KEKEntry>, id: byte)
  {
    exists i :: 0 <= i < |entries| && entries[i].id == id
  }

  /** The key listed under this id. */
  ghost predicate KeyOf(keys: map<byte, Key>, e: KEKEntry)
  {
    e.id in keys && HexDecode(e.key) == Some(keys[e.id])
  }

  /** Exactly the listed keys, each under its own id. */
  ghost predicate Holds(keys: map<byte, Key>, entries: seq<KEKEntry>)
  {
    && (forall i :: 0 <= i < |entries| ==> KeyOf(keys, entries[i]))
    && (forall id :: id in keys ==> HasID(entries, id))
  }

  predicate Highest(entries: seq<KEKEntry>, id: byte)
  {
    HasID(entries, id) && forall i :: 0 <= i < |entries| ==> entries[i].id <= id
  }

  /** No entries is no keyset and no error. Otherwise a keyset comes back exactly
      when every entry is good, ids are distinct and the write key is one of them. */
  method NewKeySet(entries: seq<KEKEntry>, writeKeyID: byte) returns (r: Result<Option<KeySet>, Error>)
    ensures entries == [] ==> r == Ok(None)
    ensures entries != [] ==> (r.Ok? <==> GoodEntries(entries) && (writeKeyID == 0 || HasID(entries, writeKeyID)))
    ensures entries != [] && r.Ok? ==>
      && r.value.Some? && r.value.value.Valid() && Holds(r.value.value.keys, entries)
      && (writeKeyID != 0 ==> r.value.value.writeKeyID == writeKeyID)
      && (writeKeyID == 0 ==> Highest(entries, r.value.value.writeKeyID))
  {
    if |entries| == 0 {
      return Ok(None);
    }
    var built := BuildKeys(entries);
    if built.Err? {
      return Err(built.error);
    }
    var (keys, maxID) := built.value;
    var w := if writeKeyID == 0 then maxID else writeKeyID;
    if w !in keys {
      return Err(UnknownWriteKey);
    }
    r := Ok(Some(KeySet(keys, w)));
  }

  /** What the loop has made of the entries so far. */
  ghost predicate Built(entries: seq<KEKEntry>, keys: map<byte, Key>, maxID: byte)
  {
    && GoodEntries(entries) && Holds(keys, entries) && 0 !in keys
    && if entries == [] then maxID == 0 else Highest(entries, maxID)
  }

  lemma HighestSoFar(entries: seq<KEKEntry>, i: nat, maxID: byte)
    requires i < |entries| && if i == 0 then maxID == 0 else Highest(entries[..i], maxID)
    ensures Highest(entries[..i + 1], if entries[i].id > maxID then entries[i].id else maxID)
  {
    var a, b := entries[..i], entries[..i + 1];
    assert b[i] == entries[i];
    forall j | 0 <= j < i ensures b[j] == a[j] {
    }
    if i > 0 && maxID >= entries[i].id {
      var j :| 0 <= j < |a| && a[j].id == maxID;
      assert b[j].id == maxID;
    }
  }

  lemma EntryBuilt(keys: map<byte, Key>, maxID: byte, entries: seq<KEKEntry>, i: nat, raw: Key)
    requires i < |entries| && Built(entries[..i], keys, maxID) && GoodEntry(entries[i])
    requires entries[i].id !in keys && HexDecode(entries[i].key) == Some(raw)
    ensures Built(entries[..i + 1], keys[entries[i].id := raw], if entries[i].id > maxID then entries[i].id else maxID)
  {
    assert entries[..i + 1] == entries[..i] + [entries[i]];
    GoodAppend(keys, entries[..i], entries[i]);
    HoldsAppend(keys, entries[..i], entries[i], raw);
    HighestSoFar(entries, i, maxID);
  }

  /** The loop of NewKeySet: the keys by id, and the highest id. */
  method BuildKeys(entries: seq<KEKEntry>) returns (r: Result<(map<byte, Key>, byte), Error>)
    requires entries != []
    ensures r.Ok? <==> GoodEntries(entries)
    ensures r.Ok? ==> Holds(r.value.0, entries) && 0 !in r.value.0 && Highest(entries, r.value.1)
    ensures r.Ok? ==> forall id :: id in r.value.0 <==> HasID(entries, id)
  {
    var keys: map<byte, Key> := map[];
    var maxID: byte := 0;
    for i := 0 to |entries|
      invariant Built(entries[..i], keys, maxID)
    {
      var e := entries[i];
      if !GoodEntry(e) || e.id in keys {
        EntryRefused(keys, entries, i);
      }
      if e.id == 0 {
        return Err(ZeroKeyID);
      }
      if e.id in keys {
        return Err(DuplicateKeyID);
      }
      if |e.key| != KEK_HEX_LEN {
        return Err(BadKey);
      }
      var raw := HexDecode(e.key);
      if raw.None? {
        return Err(BadKey);
      }
      EntryBuilt(keys, maxID, entries, i, raw.value);
      keys := keys[e.id := raw.value];
      if e.id > maxID {
        maxID := e.id;
      }
    }
    assert entries[..|entries|] == entries;
    ListedIDs(keys, entries);
    r := Ok((keys, maxID));
  }

  lemma ListedIDs(keys: map<byte, Key>, entries: seq<KEKEntry>)
    requires Holds(keys, entries)
    ensures forall id :: id in keys <==> HasID(entries, id)
  {
  }

  lemma EntryRefused(keys: map<byte, Key>, entries: seq<KEKEntry>, i: nat)
    requires i < |entries| && Holds(keys, entries[..i]) && (!GoodEntry(entries[i]) || entries[i].id in keys)
    ensures !GoodEntries(entries)
  {
  }

  lemma HasIDAppend(entries: seq<KEKEntry>, e: KEKEntry, id: byte)
    ensures HasID(entries + [e], id) <==> id == e.id || HasID(entries, id)
  {
    var more := entries + [e];
    assert more[|entries|] == e;
    if HasID(entries, id) {
      var j :| 0 <= j < |entries| && entries[j].id == id;
      assert more[j].id == id;
    }
  }

  lemma HoldsAppend(keys: map<byte, Key>, entries: seq<KEKEntry>, e: KEKEntry, raw: Key)
    requires Holds(keys, entries) && e.id !in keys && HexDecode(e.key) == Some(raw)
    ensures Holds(keys[e.id := raw], entries + [e])
  {
    var more := entries + [e];
    forall j | 0 <= j < |more| ensures KeyOf(keys[e.id := raw], more[j]) {
      if j < |entries| { assert KeyOf(keys, entries[j]); }
    }
    forall id | id in keys[e.id := raw] ensures HasID(more, id) { HasIDAppend(entries, e, id); }
  }

  lemma GoodAppend(keys: map<byte, Key>, entries: seq<KEKEntry>, e: KEKEntry)
    requires GoodEntries(entries) && GoodEntry(e) && Holds(keys, entries) && e.id !in keys
    ensures GoodEntries(entries + [e])
  {
    forall i | 0 <= i < |entries| ensures entries[i].id != e.id { assert KeyOf(keys, entries[i]); }
  }

  /** Every key of a keyset is a 256-bit key. */
  lemma KeysAreFullLength(keys: map<byte, Key>, entries: seq<KEKEntry>, id: byte)
    requires GoodEntries(entries) && Holds(keys, entries) && id in keys
    ensures |keys[id]| == 32
  {
  }

  // ----- sealing and opening -----

  method Seal(c: Cipher, s: KeySet, nonce: Option<bytes>, plaintext: bytes) returns (r: Result<bytes, Error>)
    requires s.Valid()
    ensures r == Sealed(c, s, nonce, plaintext)
  {
    if nonce.None? {
      return Err(NonceFailed);
    }
    var envelope: bytes := [s.writeKeyID];
    envelope := envelope + nonce.value;
    envelope := envelope + c.seal(s.keys[s.writeKeyID], nonce.value, plaintext);
    r := Ok(envelope);
  }

  function Sealed(c: Cipher, s: KeySet, nonce: Option<bytes>, plaintext: bytes): Result<bytes, Error>
    requires s.Valid()
  {
    if nonce.None? then Err(NonceFailed)
    else Ok([s.writeKeyID] + nonce.value + c.seal(s.keys[s.writeKeyID], nonce.value, plaintext))
  }

  function Open(c: Cipher, s: KeySet, envelope: bytes): Result<bytes, Error>
  {
    if |envelope| < 1 then Err(OpenFailed)
    else if envelope[0] !in s.keys then Err(UnknownKeyID)
    else if |envelope| < 1 + NONCE_SIZE then Err(OpenFailed)
    else
      match c.open(s.keys[envelope[0]], envelope[1..1 + NONCE_SIZE], envelope[1 + NONCE_SIZE..])
      case None => Err(OpenFailed)
      case Some(p) => Ok(p)
  }

  /** An envelope is the id of its key, twelve bytes of nonce and what the cipher made; opening reads
      it so, with the key of that id and no other. */
  lemma EnvelopeIff(c: Cipher, s: KeySet, nonce: bytes, plaintext: bytes, envelope: bytes)
    requires s.Valid() && |nonce| == NONCE_SIZE
    ensures Sealed(c, s, Some(nonce), plaintext) == Ok([s.writeKeyID] + nonce + c.seal(s.keys[s.writeKeyID], nonce, plaintext))
    ensures Open(c, s, envelope) == Ok(plaintext)
       <==> |envelope| >= 13 && envelope[0] in s.keys && c.open(s.keys[envelope[0]], envelope[1..13], envelope[13..]) == Some(plaintext)
    ensures Open(c, s, envelope) == Err(UnknownKeyID) <==> |envelope| > 0 && envelope[0] !in s.keys
  {
  }

  /** What Seal wrote, any later keyset that still holds that key opens, whatever
      it writes under by then. */
  lemma SealedOpens(c: Cipher, s: KeySet, later: KeySet, nonce: bytes, plaintext: bytes)
    requires Correct(c) && s.Valid() && |nonce| == NONCE_SIZE
    requires s.writeKeyID in later.keys && later.keys[s.writeKeyID] == s.keys[s.writeKeyID]
    ensures Open(c, later, Sealed(c, s, Some(nonce), plaintext).value) == Ok(plaintext)
  {
  }
}
