/** base64Encode and base64Decode of StringUtil. Bytes are numbers below 256; the source's masks
    and shifts are written as divisions, remainders and products by powers of two. */
module Base64 {

  import opened Bytes

  /** isalnum, '+' or '/'. */
  predicate IsBase64(c: char) {
    'A' <= c <= 'Z' || 'a' <= c <= 'z' || '0' <= c <= '9' || c == '+' || c == '/'
  }

  /** base64_chars[i]: the letters, the digits, '+' and '/'. */
  function CharOf(i: Byte): (c: char)
    requires i < 64
    ensures IsBase64(c)
  {
    if i < 26 then (i + 'A' as int) as char
    else if i < 52 then (i - 26 + 'a' as int) as char
    else if i < 62 then (i - 52 + '0' as int) as char
    else if i == 62 then '+' else '/'
  }

  /** base64_chars.find(c), cut to a byte; a character that is not there gives 255. */
  function Sextet(c: char): (b: Byte)
    ensures IsBase64(c) ==> b < 64 && CharOf(b) == c
    ensures !IsBase64(c) ==> b == 255
  {
    if 'A' <= c <= 'Z' then c as int - 'A' as int
    else if 'a' <= c <= 'z' then c as int - 'a' as int + 26
    else if '0' <= c <= '9' then c as int - '0' as int + 52
    else if c == '+' then 62
    else if c == '/' then 63
    else 255
  }

  lemma SextetOfChar(i: Byte)
    requires i < 64
    ensures Sextet(CharOf(i)) == i
  {
  }

  // ----- Groups -----

  /** The four sextets of three bytes. */
  function Split3(a: Byte, b: Byte, c: Byte): (Byte, Byte, Byte, Byte) {
    (a / 4, a % 4 * 16 + b / 16, b % 16 * 4 + c / 64, c % 64)
  }

  function Quad(a: Byte, b: Byte, c: Byte): (s: string)
    ensures |s| == 4 && forall i :: 0 <= i < 4 ==> IsBase64(s[i])
  {
    var (p, q, r, t) := Split3(a, b, c);
    [CharOf(p), CharOf(q), CharOf(r), CharOf(t)]
  }

  /** The three bytes of four sextets; each is computed in an int and stored in a byte. */
  function Join4(p: Byte, q: Byte, r: Byte, t: Byte): (s: seq<Byte>)
    ensures |s| == 3
  {
    [(p * 4 + q / 16 % 4) % 256, (q % 16 * 16 + r / 4 % 16) % 256, (r % 4 * 64 + t) % 256]
  }

  function Encode(s: seq<Byte>): (e: string)
    ensures |e| == (|s| + 2) / 3 * 4
  {
    if s == [] then ""
    else if |s| == 1 then Quad(s[0], 0, 0)[..2] + "=="
    else if |s| == 2 then Quad(s[0], s[1], 0)[..3] + "="
    else
      assert (|s| + 2) / 3 == (|s[3..]| + 2) / 3 + 1;
      Quad(s[0], s[1], s[2]) + Encode(s[3..])
  }

  /** The characters the decoder reads: it stops at the first that is not in the alphabet. */
  function Readable(s: string): string {
    if s == "" || !IsBase64(s[0]) then "" else [s[0]] + Readable(s[1..])
  }

  function DecodeChars(s: string): seq<Byte> {
    if |s| <= 1 then []
    else if |s| == 2 then Join4(Sextet(s[0]), Sextet(s[1]), 255, 255)[..1]
    else if |s| == 3 then Join4(Sextet(s[0]), Sextet(s[1]), Sextet(s[2]), 255)[..2]
    else Join4(Sextet(s[0]), Sextet(s[1]), Sextet(s[2]), Sextet(s[3])) + DecodeChars(s[4..])
  }

  function Decode(s: string): seq<Byte> {
    DecodeChars(Readable(s))
  }

  // ----- Round trips -----

  /** Two numbers packed into one come apart again. */
  lemma Packed(x: nat, y: nat, n: nat)
    requires n in {4, 16, 64} && y < n
    ensures (x * n + y) / n == x && (x * n + y) % n == y
  {
    if n == 4 {} else if n == 16 {} else {}
  }

  lemma FirstJoins(a: Byte, b: Byte)
    ensures var q := a % 4 * 16 + b / 16; (a / 4 * 4 + q / 16 % 4) % 256 == a && q % 16 == b / 16
  {
    Packed(a % 4, b / 16, 16);
  }

  lemma SecondJoins(b: Byte, c: Byte)
    ensures var r := b % 16 * 4 + c / 64; (b / 16 * 16 + r / 4 % 16) % 256 == b && r % 4 == c / 64
  {
    Packed(b % 16, c / 64, 4);
  }

  lemma JoinSplit(a: Byte, b: Byte, c: Byte)
    ensures var (p, q, r, t) := Split3(a, b, c);
            && (p * 4 + q / 16 % 4) % 256 == a
            && (q % 16 * 16 + r / 4 % 16) % 256 == b
            && (r % 4 * 64 + t) % 256 == c
  {
    FirstJoins(a, b);
    SecondJoins(b, c);
  }

  lemma ReadableGroup(q: string, rest: string)
    requires |q| == 4 && forall i :: 0 <= i < 4 ==> IsBase64(q[i])
    ensures Readable(q + rest) == q + Readable(rest)
  {
    assert q + rest == [q[0]] + ([q[1]] + ([q[2]] + ([q[3]] + rest)));
    ReadableOne(q[3], rest);
    ReadableOne(q[2], [q[3]] + rest);
    ReadableOne(q[1], [q[2]] + ([q[3]] + rest));
    ReadableOne(q[0], [q[1]] + ([q[2]] + ([q[3]] + rest)));
    assert q + Readable(rest) == [q[0]] + ([q[1]] + ([q[2]] + ([q[3]] + Readable(rest))));
  }

  lemma {:induction false} ReadableOne(c: char, rest: string)
    requires IsBase64(c)
    ensures Readable([c] + rest) == [c] + Readable(rest)
  {
  }

  lemma DecodeGroup(q: string, rest: string)
    requires |q| == 4 && forall i :: 0 <= i < 4 ==> IsBase64(q[i])
    ensures Decode(q + rest) == Join4(Sextet(q[0]), Sextet(q[1]), Sextet(q[2]), Sextet(q[3])) + Decode(rest)
  {
    ReadableGroup(q, rest);
    assert (q + Readable(rest))[4..] == Readable(rest);
    assert (q + Readable(rest))[..4] == q;
  }

  lemma QuadJoins(a: Byte, b: Byte, c: Byte)
    ensures var q := Quad(a, b, c);
            && Join4(Sextet(q[0]), Sextet(q[1]), Sextet(q[2]), Sextet(q[3])) == [a, b, c]
            && Join4(Sextet(q[0]), Sextet(q[1]), Sextet(q[2]), 255)[..2] == [a, b]
            && Join4(Sextet(q[0]), Sextet(q[1]), 255, 255)[..1] == [a]
  {
    var (p, q, r, t) := Split3(a, b, c);
    SextetOfChar(p);
    SextetOfChar(q);
    SextetOfChar(r);
    SextetOfChar(t);
    JoinSplit(a, b, c);
  }

  lemma {:induction false} Padding(q: string, pad: string)
    requires pad != "" && pad[0] == '=' && |q| < 4 && forall i :: 0 <= i < |q| ==> IsBase64(q[i])
    ensures Readable(q + pad) == q
  {
    if q == "" {
      assert q + pad == pad;
    } else {
      Padding(q[1..], pad);
      assert q + pad == [q[0]] + (q[1..] + pad);
      ReadableOne(q[0], q[1..] + pad);
    }
  }

  lemma OneByteDecodes(a: Byte)
    ensures Decode(Quad(a, 0, 0)[..2] + "==") == [a]
  {
    QuadJoins(a, 0, 0);
    Padding(Quad(a, 0, 0)[..2], "==");
    hide Quad, Readable, Join4;
  }

  lemma TwoBytesDecode(a: Byte, b: Byte)
    ensures Decode(Quad(a, b, 0)[..3] + "=") == [a, b]
  {
    QuadJoins(a, b, 0);
    Padding(Quad(a, b, 0)[..3], "=");
    hide Quad, Readable, Join4;
  }

  /** Decoding gives back every byte string. */
  lemma {:induction false} DecodeEncode(s: seq<Byte>)
    ensures Decode(Encode(s)) == s
  {
    hide Decode, Quad;
    if s == [] {
      DecodeNothing();
    } else if |s| == 1 {
      OneByteDecodes(s[0]);
    } else if |s| == 2 {
      TwoBytesDecode(s[0], s[1]);
    } else {
      DecodeEncode(s[3..]);
      QuadJoins(s[0], s[1], s[2]);
      DecodeGroup(Quad(s[0], s[1], s[2]), Encode(s[3..]));
      assert s == [s[0], s[1], s[2]] + s[3..];
    }
  }

  lemma DecodeNothing()
    ensures Decode("") == []
  {
  }

  /** How many padding characters n bytes need. */
  function PadLength(n: nat): nat {
    if n % 3 == 1 then 2 else if n % 3 == 2 then 1 else 0
  }

  /** All from the alphabet but for `pad` padding characters at the end. */
  ghost predicate Padded(e: string, pad: nat) {
    && pad <= |e|
    && (forall i :: 0 <= i < |e| - pad ==> IsBase64(e[i]))
    && (forall i :: |e| - pad <= i < |e| ==> e[i] == '=')
  }

  lemma PaddedLater(q: string, e: string, pad: nat)
    requires Padded(q, 0) && Padded(e, pad)
    ensures Padded(q + e, pad)
  {
  }

  /** The shape section 4 of RFC 4648 gives the encoding: whole groups of four, all from the
      alphabet but for the padding. */
  lemma {:induction false} EncodeShape(s: seq<Byte>)
    ensures |Encode(s)| == (|s| + 2) / 3 * 4 && Padded(Encode(s), PadLength(|s|))
  {
    hide Quad, Padded, Split3;
    if s == [] {
      NothingPadded();
    } else if |s| == 1 {
      ShortPadded(s[0], 0);
    } else if |s| == 2 {
      ShortPadded(s[0], s[1]);
    } else {
      EncodeShape(s[3..]);
      SamePadding(|s|);
      QuadPadded(s[0], s[1], s[2]);
      PaddedLater(Quad(s[0], s[1], s[2]), Encode(s[3..]), PadLength(|s|));
    }
  }

  lemma SamePadding(n: nat)
    requires n >= 3
    ensures PadLength(n) == PadLength(n - 3)
  {
  }

  lemma NothingPadded()
    ensures Padded("", 0)
  {
  }

  lemma ShortPadded(a: Byte, b: Byte)
    ensures Padded(Quad(a, b, 0)[..2] + "==", 2) && Padded(Quad(a, b, 0)[..3] + "=", 1)
  {
    hide Quad, IsBase64;
  }

  lemma QuadPadded(a: Byte, b: Byte, c: Byte)
    ensures Padded(Quad(a, b, c), 0)
  {
    hide Quad, IsBase64;
  }

  /** The texts of section 3.5 of RFC 4648: whole groups, and no stray bits before the padding. */
  predicate Canonical(e: string) {
    e == "" || (|e| >= 4 && IsBase64(e[0]) && IsBase64(e[1]) &&
                if e[2..] == "==" then Sextet(e[1]) % 16 == 0
                else if e[3..] == "=" then IsBase64(e[2]) && Sextet(e[2]) % 4 == 0
                else IsBase64(e[2]) && IsBase64(e[3]) && Canonical(e[4..]))
  }

  lemma {:induction false} EncodeIsCanonical(s: seq<Byte>)
    ensures Canonical(Encode(s))
  {
    if s == [] {
    } else if |s| == 1 {
      var q, e := Quad(s[0], 0, 0), Encode(s);
      SextetOfChar(s[0] % 4 * 16);
      assert e[2..] == "==" && e[1] == q[1];
    } else if |s| == 2 {
      var q, e := Quad(s[0], s[1], 0), Encode(s);
      SextetOfChar(s[1] % 16 * 4);
      assert e[3..] == "=" && e[0] == q[0] && e[1] == q[1] && e[2] == q[2];
    } else {
      EncodeIsCanonical(s[3..]);
      var q, e := Quad(s[0], s[1], s[2]), Encode(s);
      assert e[4..] == Encode(s[3..]) && e[..4] == q;
      assert e[0] == q[0] && e[1] == q[1] && e[2] == q[2] && e[3] == q[3];
      assert e[2..][0] == q[2] && e[3..][0] == q[3];
    }
  }

  /** None of the sums runs over the byte it is stored in. */
  lemma Stored(p: nat, q1: nat, q0: nat, r1: nat, r0: nat, t: nat)
    requires p < 64 && q1 < 4 && q0 < 16 && r1 < 16 && r0 < 4 && t < 64
    ensures (p * 4 + q1 % 4) % 256 == p * 4 + q1 && (q0 * 16 + r1 % 16) % 256 == q0 * 16 + r1
    ensures (r0 * 64 + t) % 256 == r0 * 64 + t
  {
  }

  lemma JoinsPacked(p: Byte, q: Byte, r: Byte, t: Byte)
    requires p < 64 && q < 64 && r < 64 && t < 64
    ensures Join4(p, q, r, t) == [p * 4 + q / 16, q % 16 * 16 + r / 4, r % 4 * 64 + t]
  {
    Stored(p, q / 16, q % 16, r / 4, r % 4, t);
  }

  lemma SplitPacked(p: nat, q1: nat, q0: nat, r1: nat, r0: nat, t: nat)
    requires p < 64 && q1 < 4 && q0 < 16 && r1 < 16 && r0 < 4 && t < 64
    ensures Split3(p * 4 + q1, q0 * 16 + r1, r0 * 64 + t) == (p, q1 * 16 + q0, r1 * 4 + r0, t)
    ensures Split3(p * 4 + q1, q0 * 16 + r1, 0).2 == r1 * 4 && Split3(p * 4 + q1, 0, 0).1 == q1 * 16
  {
    Packed(p, q1, 4);
    Packed(q0, r1, 16);
    Packed(r0, t, 64);
  }

  lemma SplitJoin(p: Byte, q: Byte, r: Byte, t: Byte)
    requires p < 64 && q < 64 && r < 64 && t < 64
    ensures var s := Join4(p, q, r, t);
            && Split3(s[0], s[1], s[2]) == (p, q, r, t)
            && (r % 4 == 0 ==> Split3(s[0], s[1], 0).2 == r)
            && (q % 16 == 0 ==> Split3(s[0], 0, 0).1 == q)
  {
    hide Join4, Split3;
    JoinsPacked(p, q, r, t);
    SplitPacked(p, q / 16, q % 16, r / 4, r % 4, t);
  }

  lemma GroupEncodes(e: string)
    requires |e| == 4 && forall i :: 0 <= i < 4 ==> IsBase64(e[i])
    ensures var s := Join4(Sextet(e[0]), Sextet(e[1]), Sextet(e[2]), Sextet(e[3])); Quad(s[0], s[1], s[2]) == e
  {
    SplitJoin(Sextet(e[0]), Sextet(e[1]), Sextet(e[2]), Sextet(e[3]));
  }

  lemma OneByteEncodes(e: string)
    requires |e| == 2 && IsBase64(e[0]) && IsBase64(e[1]) && Sextet(e[1]) % 16 == 0
    ensures Encode(Decode(e + "==")) == e + "=="
  {
    Padding(e, "==");
    SplitJoin(Sextet(e[0]), Sextet(e[1]), 0, 0);
    hide Readable, IsBase64;
  }

  lemma TwoBytesEncode(e: string)
    requires |e| == 3 && IsBase64(e[0]) && IsBase64(e[1]) && IsBase64(e[2]) && Sextet(e[2]) % 4 == 0
    ensures Encode(Decode(e + "=")) == e + "="
  {
    Padding(e, "=");
    SplitJoin(Sextet(e[0]), Sextet(e[1]), Sextet(e[2]), 0);
    hide Readable, IsBase64;
  }

  lemma {:induction false} CanonicalEncodes(e: string)
    requires Canonical(e)
    ensures Encode(Decode(e)) == e
  {
    if e == "" {
    } else if e[2..] == "==" {
      OneByteEncodes(e[..2]);
      assert e == e[..2] + "==";
    } else if e[3..] == "=" {
      TwoBytesEncode(e[..3]);
      assert e == e[..3] + "=";
    } else {
      var s := Join4(Sextet(e[0]), Sextet(e[1]), Sextet(e[2]), Sextet(e[3]));
      GroupEncodes(e[..4]);
      DecodeGroup(e[..4], e[4..]);
      hide Quad, Join4, Sextet, Decode, IsBase64;
      CanonicalEncodes(e[4..]);
      assert e == e[..4] + e[4..];
      assert (s + Decode(e[4..]))[3..] == Decode(e[4..]);
    }
  }

  /** Encoding what was decoded gives a text back exactly when it is canonical. */
  lemma EncodeDecode(e: string)
    ensures Encode(Decode(e)) == e <==> Canonical(e)
  {
    EncodeIsCanonical(Decode(e));
    if Canonical(e) { CanonicalEncodes(e); }
  }

  // ----- The text read as numbers -----

  const BASE64_CHARS: string := "ABCDEFGHIJKLMNOPQRSTUVWXYZ" + "abcdefghijklmnopqrstuvwxyz" + "0123456789+/"

  /** The i-th byte, or a zero byte behind the end. */
  function ByteAt(s: seq<Byte>, i: nat): Byte {
    if i < |s| then s[i] else 0
  }

  /** The g-th group: its three bytes, read in base 256, are the number that the places of its
      four characters in the alphabet give in base 64. A short group is filled up with zero bytes,
      and '=' stands where only those are left. */
  ghost predicate GroupText(s: seq<Byte>, g: nat, e: string) {
    var n := ByteAt(s, 3 * g) * 65536 + ByteAt(s, 3 * g + 1) * 256 + ByteAt(s, 3 * g + 2);
    && n < 16777216 && 4 * g + 4 <= |e|
    && e[4 * g] == BASE64_CHARS[n / 262144] && e[4 * g + 1] == BASE64_CHARS[n / 4096 % 64]
    && e[4 * g + 2] == (if 3 * g + 1 < |s| then BASE64_CHARS[n / 64 % 64] else '=')
    && e[4 * g + 3] == (if 3 * g + 2 < |s| then BASE64_CHARS[n % 64] else '=')
  }

  ghost predicate Base64Text(s: seq<Byte>, e: string) {
    |e| == (|s| + 2) / 3 * 4 && forall g: nat :: 3 * g < |s| ==> GroupText(s, g, e)
  }

  lemma CharIsPlace(i: Byte)
    requires i < 64
    ensures CharOf(i) == BASE64_CHARS[i]
  {
  }

  lemma PlacesOfNumber(p: nat, q: nat, r: nat, t: nat)
    requires p < 64 && q < 64 && r < 64 && t < 64
    ensures var n := p * 262144 + q * 4096 + r * 64 + t;
            n / 262144 == p && n / 4096 % 64 == q && n / 64 % 64 == r && n % 64 == t
  {
    var n := p * 262144 + q * 4096 + r * 64 + t;
    assert n / 64 == p * 4096 + q * 64 + r;
    assert n / 4096 == p * 64 + q;
    assert n / 262144 == p;
  }

  lemma SplitIsNumber(a: Byte, b: Byte, c: Byte)
    ensures var n := a * 65536 + b * 256 + c;
            n < 16777216 && Split3(a, b, c) == (n / 262144, n / 4096 % 64, n / 64 % 64, n % 64)
  {
    var (p, q, r, t) := Split3(a, b, c);
    PlacesOfNumber(p, q, r, t);
  }

  lemma QuadIsNumber(a: Byte, b: Byte, c: Byte)
    ensures var n, e := a * 65536 + b * 256 + c, Quad(a, b, c);
            && n < 16777216
            && e[0] == BASE64_CHARS[n / 262144] && e[1] == BASE64_CHARS[n / 4096 % 64]
            && e[2] == BASE64_CHARS[n / 64 % 64] && e[3] == BASE64_CHARS[n % 64]
  {
    hide Split3, CharOf;
    var (p, q, r, t) := Split3(a, b, c);
    SplitIsNumber(a, b, c);
    CharIsPlace(p);
    CharIsPlace(q);
    CharIsPlace(r);
    CharIsPlace(t);
  }

  lemma GroupLater(s: seq<Byte>, g: nat, q: string, e: string)
    requires |s| >= 3 && |q| == 4 && g > 0 && GroupText(s[3..], g - 1, e)
    ensures GroupText(s, g, q + e)
  {
    hide BASE64_CHARS;
    var k := 3 * (g - 1);
    assert ByteAt(s[3..], k) == ByteAt(s, k + 3) && ByteAt(s[3..], k + 1) == ByteAt(s, k + 4);
    assert ByteAt(s[3..], k + 2) == ByteAt(s, k + 5);
  }

  /** The text of section 4 of RFC 4648, group by group. */
  lemma {:induction false} EncodeIsText(s: seq<Byte>)
    ensures Base64Text(s, Encode(s))
  {
    hide Quad, BASE64_CHARS;
    if s != [] {
      QuadIsNumber(s[0], ByteAt(s, 1), ByteAt(s, 2));
      assert GroupText(s, 0, Encode(s));
      if |s| >= 3 {
        EncodeIsText(s[3..]);
        hide Encode, GroupText;
        forall g: nat | 3 * g < |s| ensures GroupText(s, g, Encode(s)) {
          if g > 0 { GroupLater(s, g, Quad(s[0], s[1], s[2]), Encode(s[3..])); }
        }
      }
    }
  }

  lemma AlphabetIsBase64(c: char)
    ensures IsBase64(c) <==> c in BASE64_CHARS
  {
    if IsBase64(c) { CharIsPlace(Sextet(c)); }
    if i :| 0 <= i < |BASE64_CHARS| && BASE64_CHARS[i] == c { CharIsPlace(i); }
  }

  /** d are the places in the alphabet of the characters of e, up to the first that is not in it. */
  ghost predicate Places(e: string, d: seq<nat>) {
    && |d| <= |e| && (|d| < |e| ==> e[|d|] !in BASE64_CHARS)
    && forall i :: 0 <= i < |d| ==> d[i] < 64 && e[i] == BASE64_CHARS[d[i]]
  }

  function PlaceAt(d: seq<nat>, i: nat): nat {
    if i < |d| then d[i] else 0
  }

  /** Three bytes for four places, the number in base 64 written in base 256; of a short group
      only the bytes that it has all bits of. */
  ghost predicate BytesOf(d: seq<nat>, s: seq<Byte>) {
    && |s| == |d| * 3 / 4
    && forall j: nat :: j < |s| ==> s[j] == ByteOf(d, j)
  }

  function ByteOf(d: seq<nat>, j: nat): nat {
    var g := j / 3 * 4;
    var n := PlaceAt(d, g) * 262144 + PlaceAt(d, g + 1) * 4096 + PlaceAt(d, g + 2) * 64 + PlaceAt(d, g + 3);
    if j % 3 == 0 then n / 65536 else if j % 3 == 1 then n / 256 % 256 else n % 256
  }

  lemma NumberOfPlaces(p: nat, q: nat, r: nat, t: nat)
    requires p < 64 && q < 64 && r < 64 && t < 64
    ensures var n := p * 262144 + q * 4096 + r * 64 + t;
            && n / 65536 == (p * 4 + q / 16 % 4) % 256 && n / 256 % 256 == (q % 16 * 16 + r / 4 % 16) % 256
            && n % 256 == (r % 4 * 64 + t) % 256
  {
    Stored(p, q / 16, q % 16, r / 4, r % 4, t);
    var n := p * 262144 + q * 4096 + r * 64 + t;
    var a, b, c := p * 4 + q / 16, q % 16 * 16 + r / 4, r % 4 * 64 + t;
    assert n == a * 65536 + b * 256 + c;
    assert n / 256 == a * 256 + b;
    assert n / 65536 == a;
  }

  /** A character decodes to its place in the alphabet, and to 255 if it is not in it. */
  lemma SextetMeans(c: char)
    ensures if c in BASE64_CHARS then Sextet(c) < 64 && BASE64_CHARS[Sextet(c)] == c else Sextet(c) == 255
  {
    AlphabetIsBase64(c);
    if IsBase64(c) { CharIsPlace(Sextet(c)); }
  }

  lemma SextetIsPlace(c: char, i: nat)
    requires i < 64 && c == BASE64_CHARS[i]
    ensures Sextet(c) == i && IsBase64(c)
  {
    hide Sextet;
    CharIsPlace(i);
    SextetOfChar(i);
  }

  lemma {:induction false} ReadsPlaces(e: string, d: seq<nat>)
    requires Places(e, d)
    ensures Readable(e) == e[..|d|]
    decreases |d|
  {
    hide BASE64_CHARS, Sextet, CharOf;
    if d == [] {
      if e != "" { AlphabetIsBase64(e[0]); }
    } else {
      SextetIsPlace(e[0], d[0]);
      assert Places(e[1..], d[1..]);
      ReadsPlaces(e[1..], d[1..]);
      assert e[..|d|] == [e[0]] + e[1..][..|d| - 1];
    }
  }

  lemma JoinIsNumber(d: seq<nat>, p: Byte, q: Byte, r: Byte, t: Byte)
    requires 2 <= |d| && forall i :: 0 <= i < |d| ==> d[i] < 64
    requires p == d[0] && q == d[1] && (3 <= |d| ==> r == d[2]) && (4 <= |d| ==> t == d[3])
    ensures Join4(p, q, r, t)[0] == ByteOf(d, 0)
    ensures 3 <= |d| ==> Join4(p, q, r, t)[1] == ByteOf(d, 1)
    ensures 4 <= |d| ==> Join4(p, q, r, t)[2] == ByteOf(d, 2)
  {
    hide ByteOf;
    FirstBytes(d);
    NumberOfPlaces(p, q, PlaceAt(d, 2), PlaceAt(d, 3));
  }

  lemma FirstBytes(d: seq<nat>)
    ensures var n := PlaceAt(d, 0) * 262144 + PlaceAt(d, 1) * 4096 + PlaceAt(d, 2) * 64 + PlaceAt(d, 3);
            ByteOf(d, 0) == n / 65536 && ByteOf(d, 1) == n / 256 % 256 && ByteOf(d, 2) == n % 256
  {
  }

  lemma ByteLater(d: seq<nat>, j: nat)
    requires |d| >= 4 && j >= 3
    ensures ByteOf(d[4..], j - 3) == ByteOf(d, j)
  {
    assert j / 3 == (j - 3) / 3 + 1;
    var g := (j - 3) / 3 * 4;
    assert PlaceAt(d[4..], g) == PlaceAt(d, g + 4) && PlaceAt(d[4..], g + 1) == PlaceAt(d, g + 5);
    assert PlaceAt(d[4..], g + 2) == PlaceAt(d, g + 6) && PlaceAt(d[4..], g + 3) == PlaceAt(d, g + 7);
  }

  lemma {:induction false} CharsAreBytes(e: string, d: seq<nat>)
    requires Places(e, d) && |e| == |d|
    ensures BytesOf(d, DecodeChars(e))
    decreases |d|
  {
    hide BASE64_CHARS, Join4, ByteOf, Sextet;
    if |d| >= 2 {
      SextetIsPlace(e[0], d[0]);
      SextetIsPlace(e[1], d[1]);
      if |d| >= 3 { SextetIsPlace(e[2], d[2]); }
      if |d| >= 4 { SextetIsPlace(e[3], d[3]); }
      var r, t := if |d| >= 3 then Sextet(e[2]) else 255, if |d| >= 4 then Sextet(e[3]) else 255;
      JoinIsNumber(d, Sextet(e[0]), Sextet(e[1]), r, t);
      if |d| >= 4 {
        assert Places(e[4..], d[4..]);
        CharsAreBytes(e[4..], d[4..]);
        var s := DecodeChars(e);
        assert s[3..] == DecodeChars(e[4..]);
        forall j: nat | 3 <= j < |s| ensures s[j] == ByteOf(d, j) {
          ByteLater(d, j);
          assert s[j] == s[3..][j - 3];
        }
      }
    }
  }

  /** Decoding reads the places of the characters, up to the first that is not in the alphabet. */
  lemma DecodeIsBytes(e: string, d: seq<nat>)
    requires Places(e, d)
    ensures BytesOf(d, Decode(e))
  {
    hide BASE64_CHARS, BytesOf;
    ReadsPlaces(e, d);
    assert Places(e[..|d|], d);
    CharsAreBytes(e[..|d|], d);
  }

  /** There are such places for every text. */
  lemma {:induction false} PlacesExist(e: string) returns (d: seq<nat>)
    ensures Places(e, d)
  {
    hide BASE64_CHARS, Sextet, CharOf;
    d := [];
    if e != "" {
      AlphabetIsBase64(e[0]);
      if IsBase64(e[0]) {
        CharIsPlace(Sextet(e[0]));
        var rest := PlacesExist(e[1..]);
        d := [Sextet(e[0])] + rest;
      }
    }
  }

  // ----- The loops -----

  /** char_array_4 from char_array_3. */
  method SplitGroup(three: array<Byte>, four: array<Byte>)
    requires three.Length == 3 && four.Length == 4 && three != four
    modifies four
    ensures (four[0], four[1], four[2], four[3]) == Split3(three[0], three[1], three[2])
  {
    four[0] := three[0] / 4;
    four[1] := three[0] % 4 * 16 + three[1] / 16;
    four[2] := three[1] % 16 * 4 + three[2] / 64;
    four[3] := three[2] % 64;
  }

  /** Appends the characters of the first n sextets. */
  method Emit(ret: string, three: array<Byte>, four: array<Byte>, n: nat) returns (out: string)
    requires three.Length == 3 && four.Length == 4 && n <= 4
    requires (four[0], four[1], four[2], four[3]) == Split3(three[0], three[1], three[2])
    ensures out == ret + Quad(three[0], three[1], three[2])[..n]
  {
    out := ret;
    ghost var q := Quad(three[0], three[1], three[2]);
    for j := 0 to n
      invariant out == ret + q[..j]
    {
      assert four[j] < 64 && q[j] == CharOf(four[j]);
      out := out + [CharOf(four[j])];
    }
  }

  /** The end of base64Encode: i bytes are left over. */
  method EncodeLeftOver(ret: string, three: array<Byte>, four: array<Byte>, left: nat) returns (out: string)
    requires three.Length == 3 && four.Length == 4 && three != four && 0 < left < 3
    modifies three, four
    ensures out == ret + Encode(old(three[..left]))
  {
    hide Quad, Split3;
    ghost var tail := three[..left];
    for j := left to 3
      invariant forall k :: 0 <= k < left ==> three[k] == tail[k]
      invariant forall k :: left <= k < j ==> three[k] == 0
    {
      three[j] := 0;
    }
    SplitGroup(three, four);
    out := Emit(ret, three, four, left + 1);
    ghost var q := Quad(three[0], three[1], three[2])[..left + 1];
    var i := left;
    ghost var pad := "";
    while i < 3
      invariant left <= i <= 3 && out == ret + q + pad
      invariant pad == if i == left then "" else if i == left + 1 then "=" else "=="
    {
      out := out + "=";
      pad := pad + "=";
      i := i + 1;
    }
    assert out == ret + (q + pad);
  }

  method Base64Encode(input: seq<Byte>) returns (ret: string)
    ensures ret == Encode(input) && Base64Text(input, ret)
  {
    hide Encode, Quad, Split3, Base64Text;
    EncodeIsText(input);
    var three, four := new Byte[3], new Byte[4];
    ret := "";
    var i, pos := 0, 0;
    ghost var from := 0;
    assert input[0..] == input;
    while pos < |input|
      invariant 0 <= i < 3 && from + i == pos <= |input|
      invariant forall k :: 0 <= k < i ==> three[k] == input[from + k]
      invariant ret + Encode(input[from..]) == Encode(input)
    {
      three[i] := input[pos];
      pos := pos + 1;
      i := i + 1;
      if i == 3 {
        NextGroup(ret, input, from);
        SplitGroup(three, four);
        ret := Emit(ret, three, four, 4);
        i := 0;
        from := pos;
      }
    }
    if i > 0 {
      assert three[..i] == input[from..];
      ret := EncodeLeftOver(ret, three, four, i);
    } else {
      EncodeNone(input[from..]);
    }
  }

  lemma EncodeNone(s: seq<Byte>)
    ensures s == [] ==> Encode(s) == ""
  {
  }

  lemma NextGroup(done: string, s: seq<Byte>, from: nat)
    requires from + 3 <= |s|
    ensures done + Encode(s[from..]) ==
            done + Quad(s[from], s[from + 1], s[from + 2])[..4] + Encode(s[from + 3..])
  {
    hide Quad;
    assert s[from..][3..] == s[from + 3..];
  }

  /** Turns characters to sextets in place and joins them: char_array_3 from char_array_4. */
  method JoinGroup(four: array<Byte>, three: array<Byte>)
    requires four.Length == 4 && three.Length == 3 && four != three
    modifies four, three
    ensures three[..] == old(Join4(Sextet(four[0] as char), Sextet(four[1] as char),
                                   Sextet(four[2] as char), Sextet(four[3] as char)))
  {
    ghost var text := four[..];
    for i := 0 to 4
      invariant forall k :: i <= k < 4 ==> four[k] == text[k]
      invariant forall k :: 0 <= k < i ==> four[k] == Sextet(text[k] as char)
    {
      four[i] := Sextet(four[i] as char);
    }
    var p: int, q: int, r: int, t: int := four[0], four[1], four[2], four[3];
    three[0] := (p * 4 + q / 16 % 4) % 256;
    three[1] := (q % 16 * 16 + r / 4 % 16) % 256;
    three[2] := (r % 4 * 64 + t) % 256;
  }

  /** The end of base64Decode: i characters are left over. */
  method DecodeLeftOver(ret: seq<Byte>, four: array<Byte>, three: array<Byte>, left: nat, ghost text: string)
    returns (out: seq<Byte>)
    requires four.Length == 4 && three.Length == 3 && four != three && 0 < left < 4 && |text| == left
    requires forall k :: 0 <= k < left ==> four[k] == text[k] as int
    modifies four, three
    ensures out == ret + DecodeChars(text)
  {
    for j := left to 4
      invariant forall k :: 0 <= k < left ==> four[k] == text[k] as int
      invariant forall k :: left <= k < j ==> four[k] == 0
    {
      four[j] := 0;
    }
    JoinGroup(four, three);
    out := ret;
    for j := 0 to left - 1
      invariant out == ret + three[..j]
    {
      out := out + [three[j]];
    }
  }

  method Base64Decode(input: string) returns (ret: seq<Byte>)
    ensures ret == Decode(input)
    ensures forall d: seq<nat> :: Places(input, d) ==> BytesOf(d, ret)
  {
    hide DecodeChars, Readable, Sextet, Places, BytesOf;
    forall d: seq<nat> | Places(input, d) ensures BytesOf(d, Decode(input)) {
      DecodeIsBytes(input, d);
    }
    var four, three := new Byte[4], new Byte[3];
    ret := [];
    var i, pos := 0, 0;
    assert input[0..] == input && [] + Readable(input) == Readable(input);
    ghost var text := "";
    while pos < |input| && input[pos] != '=' && IsBase64(input[pos])
      invariant 0 <= i < 4 && pos <= |input| && |text| == i
      invariant forall k :: 0 <= k < i ==> four[k] == text[k] as int
      invariant ret + DecodeChars(text + Readable(input[pos..])) == Decode(input)
    {
      ReadOne(input, pos, text);
      four[i] := input[pos] as int;
      text := text + [input[pos]];
      i := i + 1;
      pos := pos + 1;
      if i == 4 {
        DecodeWhole(text, Readable(input[pos..]));
        JoinGroup(four, three);
        for j := 0 to 3
          invariant ret + three[j..] + DecodeChars(Readable(input[pos..])) == Decode(input)
        {
          assert [three[j]] + three[j + 1..] == three[j..];
          assert ret + three[j..] == ret + [three[j]] + three[j + 1..];
          ret := ret + [three[j]];
        }
        assert ret + three[3..] == ret;
        i, text := 0, "";
        assert "" + Readable(input[pos..]) == Readable(input[pos..]);
      }
    }
    ReadNone(input, pos);
    assert text + "" == text;
    if i > 0 {
      ret := DecodeLeftOver(ret, four, three, i, text);
    } else {
      DecodeNone(text);
    }
  }

  lemma {:induction false} ReadOne(s: string, pos: nat, text: string)
    requires pos < |s| && IsBase64(s[pos])
    ensures text + Readable(s[pos..]) == text + [s[pos]] + Readable(s[pos + 1..])
    ensures s[pos] as int < 256
  {
  }

  lemma {:induction false} ReadNone(s: string, pos: nat)
    requires pos <= |s| && (pos < |s| ==> s[pos] == '=' || !IsBase64(s[pos]))
    ensures Readable(s[pos..]) == ""
  {
  }

  lemma {:induction false} DecodeWhole(q: string, rest: string)
    requires |q| == 4
    ensures DecodeChars(q + rest) ==
            Join4(Sextet(q[0]), Sextet(q[1]), Sextet(q[2]), Sextet(q[3])) + DecodeChars(rest)
  {
  }

  lemma {:induction false} DecodeNone(s: string)
    ensures s == "" ==> DecodeChars(s) == []
  {
  }
}
