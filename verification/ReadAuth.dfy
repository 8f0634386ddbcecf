/** Signed request bytes, and a decoder that gets back what was signed. */
module ReadAuth {
  import opened Wrappers

  type Byte = b: nat | b < 256
  type Bytes = seq<Byte>

  // ----- Text as bytes

  function Utf8Char(c: char): (bytes: Bytes)
    ensures 1 <= |bytes| <= 4
  {
    var n := c as nat;
    if n < 0x80 then [n]
    else if n < 0x800 then [0xC0 + n / 64, 0x80 + n % 64]
    else if n < 0x1_0000 then [0xE0 + n / 4096, 0x80 + n / 64 % 64, 0x80 + n % 64]
    else [0xF0 + n / 262144, 0x80 + n / 4096 % 64, 0x80 + n / 64 % 64, 0x80 + n % 64]
  }

  function Utf8(text: string): Bytes {
    if text == [] then [] else Utf8Char(text[0]) + Utf8(text[1..])
  }

  /** The six bits of a continuation byte. */
  function Bits(b: Byte): nat
    requires 0x80 <= b
  {
    b - 0x80
  }

  /** The code point at the front of encoded text, and the bytes it takes. */
  function FirstCode(bytes: Bytes): Option<(nat, nat)> {
    if bytes == [] then None
    else
      var lead: int := bytes[0];
      if lead < 0x80 then Some((lead, 1))
      else if 0xC0 <= lead < 0xE0 && |bytes| >= 2 && 0x80 <= bytes[1] then
        Some(((lead - 0xC0) * 64 + Bits(bytes[1]), 2))
      else if 0xE0 <= lead < 0xF0 && |bytes| >= 3 && 0x80 <= bytes[1] && 0x80 <= bytes[2] then
        Some(((lead - 0xE0) * 4096 + Bits(bytes[1]) * 64 + Bits(bytes[2]), 3))
      else if 0xF0 <= lead && |bytes| >= 4 && 0x80 <= bytes[1] && 0x80 <= bytes[2] && 0x80 <= bytes[3] then
        Some(((lead - 0xF0) * 262144 + Bits(bytes[1]) * 4096 + Bits(bytes[2]) * 64 + Bits(bytes[3]), 4))
      else None
  }

  predicate IsScalar(n: nat) {
    n < 0xD800 || 0xE000 <= n < 0x11_0000
  }

  function FromUtf8(bytes: Bytes): Option<string> {
    if bytes == [] then Some([])
    else
      match FirstCode(bytes)
      case None => None
      case Some((code, size)) =>
        if !IsScalar(code) || size == 0 || size > |bytes| then None
        else
          match FromUtf8(bytes[size..])
          case None => None
          case Some(rest) => Some([code as char] + rest)
  }

  lemma FirstCodeOfChar(c: char, rest: Bytes)
    ensures FirstCode(Utf8Char(c) + rest) == Some((c as nat, |Utf8Char(c)|))
  {
    if c as nat >= 0x1_0000 {
      FourBytes(c, rest);
    } else if c as nat >= 0x800 {
      ThreeBytes(c, rest);
    }
  }

  lemma ThreeBytes(c: char, rest: Bytes)
    requires 0x800 <= c as nat < 0x1_0000
    ensures FirstCode(Utf8Char(c) + rest) == Some((c as nat, |Utf8Char(c)|))
  {
    Sixes(c as nat);
  }

  lemma Sixes(n: nat)
    ensures n == n / 64 * 64 + n % 64
    ensures n / 64 == n / 4096 * 64 + n / 64 % 64
    ensures n / 4096 == n / 262144 * 64 + n / 4096 % 64
  {
    assert n / 64 / 64 == n / 4096 && n / 4096 / 64 == n / 262144;
  }

  lemma FourBytes(c: char, rest: Bytes)
    requires 0x1_0000 <= c as nat
    ensures FirstCode(Utf8Char(c) + rest) == Some((c as nat, |Utf8Char(c)|))
  {
    Sixes(c as nat);
  }

  lemma {:induction false} Utf8ReadsBack(text: string)
    ensures FromUtf8(Utf8(text)) == Some(text)
  {
    if text != [] {
      var first, rest := Utf8Char(text[0]), Utf8(text[1..]);
      Utf8ReadsBack(text[1..]);
      FirstCodeOfChar(text[0], rest);
      assert (first + rest)[|first|..] == rest;
      assert [text[0]] + text[1..] == text;
    }
  }

  // ----- Numbers as bytes

  /** `n` in `size` bytes, the most significant first. */
  function BigEndian(n: nat, size: nat): (bytes: Bytes)
    ensures |bytes| == size
  {
    if size == 0 then [] else BigEndian(n / 256, size - 1) + [n % 256]
  }

  function FromBigEndian(bytes: Bytes): nat {
    if bytes == [] then 0 else FromBigEndian(bytes[..|bytes| - 1]) * 256 + bytes[|bytes| - 1]
  }

  function Pow256(size: nat): nat {
    if size == 0 then 1 else 256 * Pow256(size - 1)
  }

  lemma {:induction false} BigEndianReadsBack(n: nat, size: nat)
    requires n < Pow256(size)
    ensures FromBigEndian(BigEndian(n, size)) == n
  {
    if size > 0 {
      BigEndianReadsBack(n / 256, size - 1);
      assert BigEndian(n, size)[..size - 1] == BigEndian(n / 256, size - 1);
    }
  }

  const TWO_63: int := 0x8000_0000_0000_0000
  const TWO_64: int := 0x1_0000_0000_0000_0000

  /** A signed 64-bit number, in two's complement. */
  function Signed64(n: int): Bytes {
    BigEndian(n % TWO_64, 8)
  }

  function FromSigned64(bytes: Bytes): int {
    var n := FromBigEndian(bytes);
    if n < TWO_63 then n else n - TWO_64
  }

  lemma Signed64ReadsBack(n: int)
    requires -TWO_63 <= n < TWO_63
    ensures FromSigned64(Signed64(n)) == n
  {
    assert Pow256(8) == TWO_64 by {
      assert Pow256(4) == 0x1_0000_0000;
    }
    BigEndianReadsBack(n % TWO_64, 8);
    assert n % TWO_64 == if n < 0 then n + TWO_64 else n;
  }

  // ----- The payload

  /** The text `mentisdb/read-auth/v1` and a zero byte. */
  const READ_AUTH_DOMAIN: Bytes := [0x6D, 0x65, 0x6E, 0x74, 0x69, 0x73, 0x64, 0x62, 0x2F, 0x72, 0x65,
                                    0x61, 0x64, 0x2D, 0x61, 0x75, 0x74, 0x68, 0x2F, 0x76, 0x31, 0x00]
  const U32_LIMIT: nat := 0x1_0000_0000

  /** A string as its length in four bytes and its text; lengths that need more are refused. */
  function Text(text: string): (packed: Option<Bytes>) {
    var raw := Utf8(text);
    if |raw| >= U32_LIMIT then None else Some(BigEndian(|raw|, 4) + raw)
  }

  /** The functions applied before packing: upper case, and a 32-byte digest. */
  datatype Library = Library(upper: string -> string, sha256: Bytes -> Bytes) {
    ghost predicate Valid() {
      forall body :: |sha256(body)| == 32
    }
  }

  datatype Request = Request(method_: string, target: string, body: Bytes, agentId: string, keyId: string,
                             publicKey: Bytes, timestamp: int, nonce: string)

  /** What the signed bytes say. */
  datatype Signed = Signed(method_: string, target: string, bodyDigest: Bytes, agentId: string, keyId: string,
                           publicKey: Bytes, timestamp: int, nonce: string)

  function SaidBy(lib: Library, r: Request): Signed {
    Signed(lib.upper(r.method_), r.target, lib.sha256(r.body), r.agentId, r.keyId, r.publicKey, r.timestamp, r.nonce)
  }

  /** Packed, unless a string or the timestamp is too large for its field. */
  function Payload(lib: Library, r: Request): Option<Bytes> {
    if !(-TWO_63 <= r.timestamp < TWO_63) then None
    else
      var method_ :- Text(lib.upper(r.method_));
      var target :- Text(r.target);
      var agentId :- Text(r.agentId);
      var keyId :- Text(r.keyId);
      var nonce :- Text(r.nonce);
      Some(READ_AUTH_DOMAIN + (method_ + (target + (lib.sha256(r.body) +
           (agentId + (keyId + (r.publicKey + (Signed64(r.timestamp) + nonce))))))))
  }

  // ----- Reading it back

  function Take(bytes: Bytes, n: nat): Option<(Bytes, Bytes)> {
    if |bytes| < n then None else Some((bytes[..n], bytes[n..]))
  }

  function TakeText(bytes: Bytes): Option<(string, Bytes)> {
    var (length, rest) :- Take(bytes, 4);
    var (raw, after) :- Take(rest, FromBigEndian(length));
    var text :- FromUtf8(raw);
    Some((text, after))
  }

  /** What a payload says, for public keys of `keySize` bytes. */
  function Read(bytes: Bytes, keySize: nat): Option<Signed> {
    var (domain, b0) :- Take(bytes, |READ_AUTH_DOMAIN|);
    if domain != READ_AUTH_DOMAIN then None
    else
      var (method_, b1) :- TakeText(b0);
      var (target, b2) :- TakeText(b1);
      var (bodyDigest, b3) :- Take(b2, 32);
      var (agentId, b4) :- TakeText(b3);
      var (keyId, b5) :- TakeText(b4);
      var (publicKey, b6) :- Take(b5, keySize);
      var (time, b7) :- Take(b6, 8);
      var (nonce, end) :- TakeText(b7);
      if end != [] then None
      else Some(Signed(method_, target, bodyDigest, agentId, keyId, publicKey, FromSigned64(time), nonce))
  }

  lemma TakeReadsBack(a: Bytes, rest: Bytes)
    ensures Take(a + rest, |a|) == Some((a, rest))
  {
    assert (a + rest)[..|a|] == a && (a + rest)[|a|..] == rest;
  }

  lemma TextReadsBack(text: string, rest: Bytes)
    requires Text(text).Some?
    ensures TakeText(Text(text).value + rest) == Some((text, rest))
  {
    var raw := Utf8(text);
    var length := BigEndian(|raw|, 4);
    assert Pow256(4) == U32_LIMIT;
    BigEndianReadsBack(|raw|, 4);
    Utf8ReadsBack(text);
    assert Text(text).value + rest == length + (raw + rest);
    TakeReadsBack(length, raw + rest);
    TakeReadsBack(raw, rest);
  }

  /** Every payload reads back as what was signed. */
  lemma PayloadReadsBack(lib: Library, r: Request)
    requires lib.Valid() && Payload(lib, r).Some?
    ensures Read(Payload(lib, r).value, |r.publicKey|) == Some(SaidBy(lib, r))
  {
    hide Text, TakeText, Take, Utf8, Signed64, FromSigned64, FirstCode;
    var method_, target := Text(lib.upper(r.method_)).value, Text(r.target).value;
    var agentId, keyId, nonce := Text(r.agentId).value, Text(r.keyId).value, Text(r.nonce).value;
    var digest, time := lib.sha256(r.body), Signed64(r.timestamp);
    var b6 := time + nonce;
    var b5 := r.publicKey + b6;
    var b4 := keyId + b5;
    var b3 := agentId + b4;
    var b2 := digest + b3;
    var b1 := target + b2;
    var b0 := method_ + b1;
    TakeReadsBack(READ_AUTH_DOMAIN, b0);
    TextReadsBack(lib.upper(r.method_), b1);
    TextReadsBack(r.target, b2);
    TakeReadsBack(digest, b3);
    TextReadsBack(r.agentId, b4);
    TextReadsBack(r.keyId, b5);
    TakeReadsBack(r.publicKey, b6);
    TimeSize(r.timestamp);
    TakeReadsBack(time, nonce);
    Signed64ReadsBack(r.timestamp);
    assert nonce + [] == nonce;
    TextReadsBack(r.nonce, []);
  }

  /** What is signed starts with the name of the protocol and a zero byte. */
  lemma PayloadIsTagged(lib: Library, r: Request)
    requires Payload(lib, r).Some?
    ensures |Payload(lib, r).value| >= 22 && Payload(lib, r).value[..22] == Utf8("mentisdb/read-auth/v1\0")
  {
    hide Text, Signed64;
    assert Payload(lib, r).value[..22] == READ_AUTH_DOMAIN;
    TagBytes("mentisdb/read-auth/v1\0", READ_AUTH_DOMAIN);
  }

  lemma {:induction false} TagBytes(text: string, bytes: Bytes)
    requires |text| == |bytes| && forall k :: 0 <= k < |text| ==> text[k] as nat < 128 && bytes[k] == text[k] as nat
    ensures Utf8(text) == bytes
  {
    if text != [] {
      TagBytes(text[1..], bytes[1..]);
    }
  }

  lemma TimeSize(n: int)
    ensures |Signed64(n)| == 8
  {
  }

  /** With public keys of one length, the same bytes are signed exactly for requests that say the same. */
  lemma PayloadsDistinct(lib: Library, a: Request, b: Request)
    requires lib.Valid() && Payload(lib, a).Some? && Payload(lib, b).Some? && |a.publicKey| == |b.publicKey|
    ensures Payload(lib, a) == Payload(lib, b) <==> SaidBy(lib, a) == SaidBy(lib, b)
  {
    hide Read;
    PayloadReadsBack(lib, a);
    PayloadReadsBack(lib, b);
  }

  /** Keys of different lengths do not: a request without a key can sign the bytes of one with a key of
      eight zero bytes. */
  lemma KeyLengthMatters(lib: Library, r: Request)
    requires Payload(lib, r).Some?
    ensures var a := r.(publicKey := [], timestamp := 0, nonce := "\0\0\0\0\0\0\0\0");
            var b := r.(publicKey := [0, 0, 0, 0, 0, 0, 0, 0], timestamp := 0x8_0000_0000, nonce := "");
            Payload(lib, a).Some? && Payload(lib, a) == Payload(lib, b) && SaidBy(lib, a) != SaidBy(lib, b)
  {
    hide Text;
    var a := r.(publicKey := [], timestamp := 0, nonce := "\0\0\0\0\0\0\0\0");
    var b := r.(publicKey := [0, 0, 0, 0, 0, 0, 0, 0], timestamp := 0x8_0000_0000, nonce := "");
    ShortTexts();
    Times();
    assert a.publicKey + (Signed64(a.timestamp) + Text(a.nonce).value) ==
           b.publicKey + (Signed64(b.timestamp) + Text(b.nonce).value);
  }

  lemma ShortTexts()
    ensures Text("\0\0\0\0\0\0\0\0") == Some([0, 0, 0, 8, 0, 0, 0, 0, 0, 0, 0, 0])
    ensures Text("") == Some([0, 0, 0, 0])
  {
    var nonce := "\0\0\0\0\0\0\0\0";
    var eight: Bytes := [0, 0, 0, 0, 0, 0, 0, 0];
    var empty: Bytes := [];
    Zeros(nonce);
    assert Utf8(nonce) == eight && Utf8("") == empty;
    assert BigEndian(|eight|, 4) + eight == [0, 0, 0, 8, 0, 0, 0, 0, 0, 0, 0, 0];
    assert BigEndian(|empty|, 4) + empty == [0, 0, 0, 0];
  }

  lemma {:induction false} Zeros(text: string)
    requires forall k :: 0 <= k < |text| ==> text[k] == '\0'
    ensures |Utf8(text)| == |text| && forall k :: 0 <= k < |text| ==> Utf8(text)[k] == 0
  {
    if text != [] {
      Zeros(text[1..]);
    }
  }

  lemma Times()
    ensures Signed64(0) == [0, 0, 0, 0, 0, 0, 0, 0]
    ensures Signed64(0x8_0000_0000) == [0, 0, 0, 8, 0, 0, 0, 0]
  {
    assert BigEndian(0, 4) == [0, 0, 0, 0];
    assert BigEndian(0, 8) == [0, 0, 0, 0, 0, 0, 0, 0];
    assert BigEndian(8, 4) == [0, 0, 0, 8];
    assert BigEndian(0x800, 5) == [0, 0, 0, 8, 0];
    assert BigEndian(0x8_0000, 6) == [0, 0, 0, 8, 0, 0];
    assert BigEndian(0x800_0000, 7) == [0, 0, 0, 8, 0, 0, 0];
  }
}
