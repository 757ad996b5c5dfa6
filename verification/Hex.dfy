/** Hexadecimal text of keys: pairs of digits read with a radix parser that also takes a leading '+'. */
module Hex {
  import opened Lists

  type Octet = n: int | 0 <= n < 256

  function Nibble(c: char): (r: Option<nat>)
    ensures r.Some? ==> r.value < 16
  {
    if '0' <= c <= '9' then Some(c as int - '0' as int)
    else if 'a' <= c <= 'f' then Some(c as int - 'a' as int + 10)
    else if 'A' <= c <= 'F' then Some(c as int - 'A' as int + 10)
    else None
  }

  /** `u8::from_str_radix` on two characters. */
  function ByteOf(a: char, b: char): Option<Octet> {
    if Nibble(b).None? then None
    else if a == '+' then Nibble(b)
    else if Nibble(a).None? then None
    else Some(16 * Nibble(a).value + Nibble(b).value)
  }

  /** `hex_decode` */
  function Decode(s: string): Option<seq<Octet>> {
    if s == [] then Some([])
    else if |s| == 1 then None
    else
      var head, tail := ByteOf(s[0], s[1]), Decode(s[2..]);
      if head.None? || tail.None? then None else Some([head.value] + tail.value)
  }

  function LowerChar(c: char): char {
    if 'A' <= c <= 'Z' then c - 'A' + 'a' else c
  }

  /** `to_ascii_lowercase` */
  function Lower(s: string): string {
    seq(|s|, i requires 0 <= i < |s| => LowerChar(s[i]))
  }

  function Digit(n: nat): char
    requires n < 16
  {
    if n < 10 then '0' + n as char else 'a' + (n - 10) as char
  }

  lemma DigitNibble(c: char)
    requires Nibble(c).Some?
    ensures Digit(Nibble(c).value) == LowerChar(c)
  {
  }

  lemma NibbleDigit(n: nat)
    requires n < 16
    ensures Nibble(Digit(n)) == Some(n)
  {
  }

  /** Two digits per byte, the high one first. */
  function Encoded(bytes: seq<Octet>): string {
    if bytes == [] then ""
    else Encoded(bytes[..|bytes| - 1]) + [Digit(bytes[|bytes| - 1] / 16), Digit(bytes[|bytes| - 1] % 16)]
  }

  /** `hex_encode` */
  method Encode(bytes: seq<Octet>) returns (s: string)
    ensures s == Encoded(bytes)
  {
    s := "";
    for i := 0 to |bytes|
      invariant s == Encoded(bytes[..i])
    {
      assert bytes[..i + 1][..i] == bytes[..i];
      s := s + [Digit(bytes[i] / 16), Digit(bytes[i] % 16)];
    }
    assert bytes[..|bytes|] == bytes;
  }

  lemma {:induction false} DecodeAppends(s: string, a: char, b: char)
    requires Decode(s).Some? && ByteOf(a, b).Some?
    ensures Decode(s + [a, b]) == Some(Decode(s).value + [ByteOf(a, b).value])
  {
    if s == [] {
      assert s + [a, b] == [a, b] && [a, b][2..] == [];
      var last := ByteOf(a, b).value;
      assert Decode([a, b][2..]) == Some([]) && [last] + [] == [] + [last];
    } else {
      assert (s + [a, b])[2..] == s[2..] + [a, b];
      DecodeAppends(s[2..], a, b);
      var head, tail, last := ByteOf(s[0], s[1]).value, Decode(s[2..]).value, ByteOf(a, b).value;
      assert [head] + (tail + [last]) == ([head] + tail) + [last];
    }
  }

  /** Decoding undoes encoding. */
  lemma {:induction false} RoundTrip(bytes: seq<Octet>)
    ensures Decode(Encoded(bytes)) == Some(bytes)
  {
    if bytes != [] {
      var front, last := bytes[..|bytes| - 1], bytes[|bytes| - 1];
      RoundTrip(front);
      NibbleDigit(last / 16);
      NibbleDigit(last % 16);
      DecodeAppends(Encoded(front), Digit(last / 16), Digit(last % 16));
      assert bytes == front + [last];
    }
  }

  // Digest text ----------------------------------------------------------

  predicate LowerHex(c: char) {
    '0' <= c <= '9' || 'a' <= c <= 'f'
  }

  /** `is_sha256_token`: the prefix and 64 lower-case digits. */
  predicate Sha256Token(value: string) {
    && |value| == 71 && value[..7] == "sha256:"
    && forall i :: 7 <= i < 71 ==> LowerHex(value[i])
  }

  lemma {:induction false} EncodedLower(bytes: seq<Octet>)
    ensures |Encoded(bytes)| == 2 * |bytes|
    ensures forall i :: 0 <= i < |Encoded(bytes)| ==> LowerHex(Encoded(bytes)[i])
  {
    if bytes != [] {
      EncodedLower(bytes[..|bytes| - 1]);
    }
  }

  /** Lower-case digits of even number are the text of the bytes they decode to. */
  lemma {:induction false} LowerDecodes(s: string)
    requires |s| % 2 == 0 && forall i :: 0 <= i < |s| ==> LowerHex(s[i])
    ensures Decode(s).Some? && |Decode(s).value| == |s| / 2 && Encoded(Decode(s).value) == s
  {
    hide Digit, Encoded;
    if s != [] {
      var n := |s| - 2;
      var front, a, b := s[..n], s[n], s[n + 1];
      LowerDecodes(front);
      assert s == front + [a, b];
      DecodeAppends(front, a, b);
      BytePlain(a, b);
      EncodedAppends(Decode(front).value, ByteOf(a, b).value);
    } else {
      EncodedNothing();
    }
  }

  lemma EncodedAppends(bytes: seq<Octet>, last: Octet)
    ensures Encoded(bytes + [last]) == Encoded(bytes) + [Digit(last / 16), Digit(last % 16)]
  {
    assert (bytes + [last])[..|bytes|] == bytes;
  }

  lemma EncodedNothing()
    ensures Encoded([]) == ""
  {
  }

  /** A text is the lower-case digits of `n` bytes exactly when it is their encoding. */
  lemma LowerTextExactly(s: string, n: nat)
    ensures |s| == 2 * n && (forall i :: 0 <= i < |s| ==> LowerHex(s[i])) <==>
            exists bytes :: |bytes| == n && s == Encoded(bytes)
  {
    hide Encoded, Decode, LowerHex;
    if |s| == 2 * n && (forall i :: 0 <= i < |s| ==> LowerHex(s[i])) {
      LowerDecodes(s);
    }
    if bytes :| |bytes| == n && s == Encoded(bytes) {
      EncodedLower(bytes);
    }
  }

  /** Digest tokens are exactly the prefixed encodings of 32 bytes. */
  lemma TokenExactly(value: string)
    ensures Sha256Token(value) <==> exists bytes :: |bytes| == 32 && value == "sha256:" + Encoded(bytes)
  {
    hide Encoded, LowerHex;
    if Sha256Token(value) {
      LowerTextExactly(value[7..], 32);
      var bytes :| |bytes| == 32 && value[7..] == Encoded(bytes);
      assert value == "sha256:" + Encoded(bytes);
    }
    if bytes :| |bytes| == 32 && value == "sha256:" + Encoded(bytes) {
      LowerTextExactly(Encoded(bytes), 32);
      assert forall i :: 7 <= i < 71 ==> value[i] == Encoded(bytes)[i - 7];
    }
  }

  // Which texts decode alike ---------------------------------------------

  /** Lower case, with a '+' in the high position of a pair read as the zero it stands for. */
  function Plain(s: string): string {
    if |s| < 2 then s
    else [if s[0] == '+' then '0' else LowerChar(s[0]), LowerChar(s[1])] + Plain(s[2..])
  }

  lemma BytePlain(a: char, b: char)
    requires ByteOf(a, b).Some?
    ensures [Digit(ByteOf(a, b).value / 16), Digit(ByteOf(a, b).value % 16)]
            == [if a == '+' then '0' else LowerChar(a), LowerChar(b)]
  {
    DigitNibble(b);
    if a != '+' {
      DigitNibble(a);
      assert (16 * Nibble(a).value + Nibble(b).value) / 16 == Nibble(a).value;
    }
  }

  lemma {:induction false} DecodeDeterminesPlain(a: string, b: string)
    requires Decode(a).Some? && Decode(b).Some?
    ensures Decode(a) == Decode(b) <==> Plain(a) == Plain(b)
  {
    hide ByteOf, Digit, LowerChar;
    if a == [] || b == [] {
      assert a == [] || |Plain(a)| >= 2;
      assert b == [] || |Plain(b)| >= 2;
    } else {
      BytePlain(a[0], a[1]);
      BytePlain(b[0], b[1]);
      DecodeDeterminesPlain(a[2..], b[2..]);
      var x, y := ByteOf(a[0], a[1]).value, ByteOf(b[0], b[1]).value;
      ByteDigits(x, y);
      assert Decode(a).value == [x] + Decode(a[2..]).value && Decode(b).value == [y] + Decode(b[2..]).value;
      assert Decode(a).value[1..] == Decode(a[2..]).value && Decode(b).value[1..] == Decode(b[2..]).value;
      assert Plain(a)[..2] == [Digit(x / 16), Digit(x % 16)] && Plain(b)[..2] == [Digit(y / 16), Digit(y % 16)];
      assert Plain(a)[2..] == Plain(a[2..]) && Plain(b)[2..] == Plain(b[2..]);
      assert Plain(a) == Plain(a)[..2] + Plain(a)[2..] && Plain(b) == Plain(b)[..2] + Plain(b)[2..];
    }
  }

  lemma ByteDigits(x: Octet, y: Octet)
    ensures x == y <==> [Digit(x / 16), Digit(x % 16)] == [Digit(y / 16), Digit(y % 16)]
  {
  }

  lemma {:induction false} PlainIsLower(s: string)
    requires |s| % 2 == 0 && '+' !in s
    ensures Plain(s) == Lower(s)
  {
    if s != [] {
      PlainIsLower(s[2..]);
      assert Lower(s) == [LowerChar(s[0]), LowerChar(s[1])] + Lower(s[2..]);
    }
  }

  /** Without '+' signs, two texts are the same bytes exactly when they are equal up to letter case. */
  lemma SameBytesSameText(a: string, b: string)
    requires Decode(a).Some? && Decode(b).Some? && '+' !in a && '+' !in b
    ensures Decode(a) == Decode(b) <==> Lower(a) == Lower(b)
  {
    DecodedIsEven(a);
    DecodedIsEven(b);
    PlainIsLower(a);
    PlainIsLower(b);
    DecodeDeterminesPlain(a, b);
  }

  lemma {:induction false} DecodedIsEven(s: string)
    requires Decode(s).Some?
    ensures |s| == 2 * |Decode(s).value|
  {
    if s != [] {
      DecodedIsEven(s[2..]);
    }
  }

  /** Decoding does not look at letter case. */
  lemma {:induction false} DecodeIgnoresCase(s: string)
    ensures Decode(Lower(s)) == Decode(s)
  {
    if |s| >= 2 {
      DecodeIgnoresCase(s[2..]);
      assert Lower(s)[2..] == Lower(s[2..]);
    }
  }

  /** A '+' makes different texts the same bytes. */
  lemma PlusAliases()
    ensures Decode("+f") == Decode("0f") == Some([15]) && Lower("+f") != Lower("0f")
  {
    assert "+f"[2..] == "" && "0f"[2..] == "";
    assert ByteOf('+', 'f') == ByteOf('0', 'f') == Some(15);
    assert Decode("") == Some([]) && [15] + [] == [15];
    assert Lower("+f")[0] == '+' && Lower("0f")[0] == '0';
  }
}
