/** The base64 codec: unpadded output in the alphabet of section 4 of RFC 4648,
    and a decoder that also takes the letters of section 5 and up to two
    trailing padding characters. */
module Base64 {
  import opened Prelude

  const PAD: byte := 0x3D
  const DASH: byte := 0x2D
  const UNDERSCORE: byte := 0x5F
  const PLUS: byte := 0x2B
  const SLASH: byte := 0x2F
  const INVALID: byte := 0xFF

  type sextet = x: int | 0 <= x < 64

  // ----- the alphabet -----------------------------------------------------------------

  function Letter(v: sextet): (c: byte) {
    if v < 26 then 0x41 + v
    else if v < 52 then 0x61 + (v - 26)
    else if v < 62 then 0x30 + (v - 52)
    else if v == 62 then PLUS else SLASH
  }

  function Value(c: byte): (v: Option<sextet>) {
    if 0x41 <= c <= 0x5A then Some(c - 0x41)
    else if 0x61 <= c <= 0x7A then Some(c - 0x61 + 26)
    else if 0x30 <= c <= 0x39 then Some(c - 0x30 + 52)
    else if c == PLUS || c == DASH then Some(62)
    else if c == SLASH || c == UNDERSCORE then Some(63)
    else None
  }

  const CAPITALS := "ABCDEFGHIJKLMNOPQRSTUVWXYZ"
  const SMALLS := "abcdefghijklmnopqrstuvwxyz"
  const OTHERS := "0123456789+/"

  /** The letters are those of section 4 of RFC 4648; the decoder also takes the two
      of section 5, and padding is the equals sign. */
  lemma AlphabetIsStandard(v: sextet)
    ensures Letter(v) as char == if v < 26 then CAPITALS[v] else if v < 52 then SMALLS[v - 26] else OTHERS[v - 52]
    ensures Value('-' as int) == Some(62) && Value('_' as int) == Some(63) && PAD == '=' as int
  {
    if v < 26 { CapitalLetters(v); } else if v < 52 { SmallLetters(v - 26); } else { OtherLetters(v - 52); }
  }

  lemma CapitalLetters(i: nat)
    requires i < 26
    ensures CAPITALS[i] as int == 0x41 + i
  {
  }

  lemma SmallLetters(i: nat)
    requires i < 26
    ensures SMALLS[i] as int == 0x61 + i
  {
  }

  lemma OtherLetters(i: nat)
    requires i < 12
    ensures OTHERS[i] as int == (if i < 10 then 0x30 + i else if i == 10 then 0x2B else 0x2F)
  {
  }

  lemma LetterHasValue(v: sextet)
    ensures Value(Letter(v)) == Some(v) && Letter(v) != PAD
  {
  }

  /** Each letter of either alphabet with its value, every other byte with the invalid mark. */
  ghost predicate IsTable(table: array<byte>)
    reads table
  {
    table.Length == 256 && forall c: byte :: table[c] == if Value(c).Some? then Value(c).value else INVALID
  }

  lemma Lookup(table: array<byte>, c: byte)
    requires IsTable(table)
    ensures table.Length == 256 && (table[c] == INVALID <==> Value(c).None?)
    ensures Value(c).Some? ==> table[c] == Value(c).value
  {
  }

  /** `build_decode_table`, filled in place. */
  method BuildDecodeTable() returns (table: array<byte>)
    ensures fresh(table) && IsTable(table)
  {
    table := new byte[256](_ => INVALID);
    var i := 0;
    while i < 26
      invariant 0 <= i <= 26
      invariant forall k :: 0 <= k < 256 ==>
        table[k] == if 0x41 <= k < 0x41 + i then k - 0x41 else if 0x61 <= k < 0x61 + i then k - 0x61 + 26 else INVALID
    {
      table[0x41 + i] := i;
      table[0x61 + i] := 26 + i;
      i := i + 1;
    }
    i := 0;
    while i < 10
      invariant 0 <= i <= 10
      invariant forall k :: 0 <= k < 256 ==>
        table[k] == if 0x41 <= k <= 0x5A then k - 0x41 else if 0x61 <= k <= 0x7A then k - 0x61 + 26
                    else if 0x30 <= k < 0x30 + i then k - 0x30 + 52 else INVALID
    {
      table[0x30 + i] := 52 + i;
      i := i + 1;
    }
    table[PLUS] := 62;
    table[DASH] := 62;
    table[SLASH] := 63;
    table[UNDERSCORE] := 63;
  }

  // ----- what encoding and decoding mean ------------------------------------------------

  /** The four sextets of three bytes. */
  function Sextets(a: byte, b: byte, c: byte): (r: (sextet, sextet, sextet, sextet)) {
    (a / 4, a % 4 * 16 + b / 16, b % 16 * 4 + c / 64, c % 64)
  }

  /** The three bytes of four sextets. */
  function Octets(p: sextet, q: sextet, r: sextet, s: sextet): (o: (byte, byte, byte)) {
    (p * 4 + q / 16, q % 16 * 16 + r / 4, r % 4 * 64 + s)
  }

  lemma SextetsRoundTrip(a: byte, b: byte, c: byte)
    ensures var (p, q, r, s) := Sextets(a, b, c); Octets(p, q, r, s) == (a, b, c)
  {
    Quotient(a % 4 * 16 + b / 16, 16, a % 4, b / 16);
    Quotient(b % 16 * 4 + c / 64, 4, b % 16, c / 64);
  }

  function Encode(bs: seq<byte>): (r: seq<byte>) {
    if |bs| == 0 then []
    else if |bs| == 1 then
      var (p, q, _, _) := Sextets(bs[0], 0, 0);
      [Letter(p), Letter(q)]
    else if |bs| == 2 then
      var (p, q, r, _) := Sextets(bs[0], bs[1], 0);
      [Letter(p), Letter(q), Letter(r)]
    else
      var (p, q, r, s) := Sextets(bs[0], bs[1], bs[2]);
      [Letter(p), Letter(q), Letter(r), Letter(s)] + Encode(bs[3..])
  }

  /** Decoding of text whose padding has been removed. */
  function DecodeBody(cs: seq<byte>): (r: Option<seq<byte>>) {
    if |cs| == 0 then Some([])
    else if |cs| == 1 then None
    else if Value(cs[0]).None? || Value(cs[1]).None? then None
    else if |cs| == 2 then
      Some([Octets(Value(cs[0]).value, Value(cs[1]).value, 0, 0).0])
    else if Value(cs[2]).None? then None
    else if |cs| == 3 then
      var (x, y, _) := Octets(Value(cs[0]).value, Value(cs[1]).value, Value(cs[2]).value, 0);
      Some([x, y])
    else if Value(cs[3]).None? then None
    else
      var (x, y, z) := Octets(Value(cs[0]).value, Value(cs[1]).value, Value(cs[2]).value, Value(cs[3]).value);
      var rest := DecodeBody(cs[4..]);
      if rest.Some? then Some([x, y, z] + rest.value) else None
  }

  function Unpadded(cs: seq<byte>): (r: seq<byte>)
    ensures r <= cs
  {
    if cs != [] && cs[|cs| - 1] == PAD then Unpadded(cs[..|cs| - 1]) else cs
  }

  function Decode(cs: seq<byte>): (r: Option<seq<byte>>) {
    var body := Unpadded(cs);
    if |cs| - |body| > 2 then None else DecodeBody(body)
  }

  /** A group of three octets and its four sextets are the same number, most
      significant digit first; a short group is filled up with zero bits. */
  lemma GroupKeepsBits(a: byte, b: byte, c: byte)
    ensures var (p, q, r, s) := Sextets(a, b, c); p * 262144 + q * 4096 + r * 64 + s == a * 65536 + b * 256 + c
    ensures var (p, q, r, s) := Sextets(a, b, c); Encode([a, b, c]) == [Letter(p), Letter(q), Letter(r), Letter(s)]
    ensures var (p, q, r, _) := Sextets(a, b, 0); Encode([a, b]) == [Letter(p), Letter(q), Letter(r)]
    ensures var (p, q, _, _) := Sextets(a, 0, 0); Encode([a]) == [Letter(p), Letter(q)]
  {
    assert [a, b, c][3..] == [];
  }

  /** The first vectors of section 10 of RFC 4648: f, fo and foo. */
  lemma EncodingExamples()
    ensures Encode([102]) == [90, 103]
    ensures Encode([102, 111]) == [90, 109, 56]
    ensures Encode([102, 111, 111]) == [90, 109, 57, 118]
  {
    assert [102, 111, 111][3..] == [];
  }

  // ----- round trip ---------------------------------------------------------------------------

  lemma {:induction false} DecodeOfEncode(bs: seq<byte>)
    ensures DecodeBody(Encode(bs)) == Some(bs)
    decreases |bs|
  {
    if 0 < |bs| {
      var a, b, c := bs[0], if |bs| > 1 then bs[1] else 0, if |bs| > 2 then bs[2] else 0;
      var (p, q, r, s) := Sextets(a, b, c);
      SextetsRoundTrip(a, b, c);
      LetterHasValue(p);
      LetterHasValue(q);
      LetterHasValue(r);
      LetterHasValue(s);
      if |bs| >= 3 {
        DecodeOfEncode(bs[3..]);
        assert Encode(bs)[4..] == Encode(bs[3..]);
        assert bs == [a, b, c] + bs[3..];
      } else {
        assert bs == if |bs| == 1 then [a] else [a, b];
      }
    }
  }

  /** The length of an encoding: never 1 modulo 4, and never padded. */
  lemma {:induction false} EncodedShape(bs: seq<byte>)
    ensures |Encode(bs)| == (4 * |bs| + 2) / 3 && |Encode(bs)| % 4 != 1
    ensures forall i :: 0 <= i < |Encode(bs)| ==> Value(Encode(bs)[i]).Some? && Encode(bs)[i] != PAD
    decreases |bs|
  {
    if 0 < |bs| {
      var (p, q, r, s) := Sextets(bs[0], if |bs| > 1 then bs[1] else 0, if |bs| > 2 then bs[2] else 0);
      LetterHasValue(p);
      LetterHasValue(q);
      LetterHasValue(r);
      LetterHasValue(s);
      if |bs| >= 3 { EncodedShape(bs[3..]); }
    }
  }

  function Padding(n: nat): (r: seq<byte>)
    ensures |r| == n
  {
    if n == 0 then [] else Padding(n - 1) + [PAD]
  }

  lemma {:induction false} UnpaddedOfPadded(body: seq<byte>, n: nat)
    requires body == [] || body[|body| - 1] != PAD
    ensures Unpadded(body + Padding(n)) == body
    decreases n
  {
    if n == 0 {
      assert body + [] == body;
    } else {
      assert (body + Padding(n))[..|body + Padding(n)| - 1] == body + Padding(n - 1);
      UnpaddedOfPadded(body, n - 1);
    }
  }

  /** Decoding an encoding, with zero, one or two padding characters added,
      gives the bytes back; with more it gives nothing. */
  lemma RoundTrip(bs: seq<byte>, pads: nat)
    ensures Decode(Encode(bs) + Padding(pads)) == if pads <= 2 then Some(bs) else None
  {
    EncodedShape(bs);
    UnpaddedOfPadded(Encode(bs), pads);
    DecodeOfEncode(bs);
  }

  // ----- what the decoder accepts ----------------------------------------------------------------

  ghost predicate AllLetters(cs: seq<byte>) {
    forall i :: 0 <= i < |cs| ==> Value(cs[i]).Some?
  }

  lemma LettersSplit(cs: seq<byte>)
    requires |cs| >= 4
    ensures AllLetters(cs) <==>
      Value(cs[0]).Some? && Value(cs[1]).Some? && Value(cs[2]).Some? && Value(cs[3]).Some? && AllLetters(cs[4..])
  {
    if AllLetters(cs[4..]) {
      assert forall i :: 4 <= i < |cs| ==> cs[i] == cs[4..][i - 4];
    }
  }

  lemma ShortLetters(cs: seq<byte>)
    requires |cs| < 4
    ensures AllLetters(cs) <==>
      && (|cs| >= 1 ==> Value(cs[0]).Some?) && (|cs| >= 2 ==> Value(cs[1]).Some?) && (|cs| >= 3 ==> Value(cs[2]).Some?)
  {
  }

  lemma {:induction false} BodyAcceptance(cs: seq<byte>)
    ensures DecodeBody(cs).Some? <==> |cs| % 4 != 1 && AllLetters(cs)
    decreases |cs|
  {
    hide Value, Octets, AllLetters;
    if |cs| >= 4 {
      BodyAcceptance(cs[4..]);
      LettersSplit(cs);
      assert |cs| % 4 == |cs[4..]| % 4;
    } else {
      assert |cs| % 4 == |cs|;
      ShortLetters(cs);
    }
  }

  /** The decoder accepts exactly letters of either alphabet, of a possible
      length, followed by at most two padding characters. */
  lemma Acceptance(cs: seq<byte>)
    ensures Decode(cs).Some? <==>
      var body := Unpadded(cs); |cs| - |body| <= 2 && |body| % 4 != 1 && AllLetters(body)
  {
    BodyAcceptance(Unpadded(cs));
  }

  /** The section 5 spelling of a text. */
  function UrlSafe(cs: seq<byte>): (r: seq<byte>)
    ensures |r| == |cs|
  {
    seq(|cs|, i requires 0 <= i < |cs| => if cs[i] == PLUS then DASH else if cs[i] == SLASH then UNDERSCORE else cs[i])
  }

  lemma {:induction false} BodyOfUrlSafe(cs: seq<byte>)
    ensures DecodeBody(UrlSafe(cs)) == DecodeBody(cs)
    decreases |cs|
  {
    assert forall i :: 0 <= i < |cs| ==> Value(UrlSafe(cs)[i]) == Value(cs[i]);
    if |cs| >= 4 {
      BodyOfUrlSafe(cs[4..]);
      assert UrlSafe(cs)[4..] == UrlSafe(cs[4..]);
    }
  }

  lemma {:induction false} UnpaddedOfUrlSafe(cs: seq<byte>)
    ensures Unpadded(UrlSafe(cs)) == UrlSafe(Unpadded(cs))
    decreases |cs|
  {
    if cs != [] && cs[|cs| - 1] == PAD {
      UnpaddedOfUrlSafe(cs[..|cs| - 1]);
      assert UrlSafe(cs)[..|cs| - 1] == UrlSafe(cs[..|cs| - 1]);
    }
  }

  /** Both spellings decode alike. */
  lemma UrlSafeDecodesAlike(cs: seq<byte>)
    ensures Decode(UrlSafe(cs)) == Decode(cs)
  {
    UnpaddedOfUrlSafe(cs);
    BodyOfUrlSafe(Unpadded(cs));
  }

  /** Shift a word right by the power of two `d` and mask six, or eight, bits. */
  function Six(n: int, d: int): (v: sextet) requires d > 0 { n / d % 64 }
  function Eight(n: int, d: int): (v: byte) requires d > 0 { n / d % 256 }

  /** Three octets, or four sextets, packed into a 24-bit word. */
  function Packed3(a: int, b: int, c: int): (n: int) { a * 65536 + b * 256 + c }
  function Packed4(p: int, q: int, r: int, s: int): (n: int) { p * 262144 + q * 4096 + r * 64 + s }

  // ----- the two loops --------------------------------------------------------------------------

  lemma {:induction false} EncodeSplit(bs: seq<byte>, i: nat)
    requires i % 3 == 0 && i <= |bs|
    ensures Encode(bs) == Encode(bs[..i]) + Encode(bs[i..])
    decreases |bs|
  {
    if i == 0 {
      assert bs[0..] == bs;
    } else {
      EncodeSplit(bs[3..], i - 3);
      assert bs[3..][..i - 3] == bs[..i][3..] && bs[3..][i - 3..] == bs[i..];
    }
  }

  /** `b64_encode_bytes`. */
  method EncodeBytes(bs: seq<byte>) returns (out: seq<byte>)
    ensures out == Encode(bs)
  {
    hide Six, Sextets, Letter, Packed3, Encode;
    EncodeShort(bs);
    if bs == [] { return []; }
    out := [];
    EncodeShort([]);
    var i := 0;
    while i + 3 <= |bs|
      invariant 0 <= i <= |bs| && i % 3 == 0
      invariant out == Encode(bs[..i])
    {
      var n := Packed3(bs[i], bs[i + 1], bs[i + 2]);
      SplitWord(bs[i], bs[i + 1], bs[i + 2]);
      EncodeSplit(bs[..i + 3], i);
      assert bs[..i + 3][..i] == bs[..i] && bs[..i + 3][i..] == [bs[i], bs[i + 1], bs[i + 2]];
      EncodeThree(bs[i], bs[i + 1], bs[i + 2]);
      out := out + [Letter(Six(n, 262144)), Letter(Six(n, 4096)), Letter(Six(n, 64)), Letter(Six(n, 1))];
      i := i + 3;
    }
    EncodeSplit(bs, i);
    EncodeShort(bs[i..]);
    if |bs| - i == 1 {
      var n := Packed3(bs[i], 0, 0);
      SplitWord(bs[i], 0, 0);
      EncodeShort(bs[i..]);
      out := out + [Letter(Six(n, 262144)), Letter(Six(n, 4096))];
    } else if |bs| - i == 2 {
      var n := Packed3(bs[i], bs[i + 1], 0);
      SplitWord(bs[i], bs[i + 1], 0);
      EncodeShort(bs[i..]);
      out := out + [Letter(Six(n, 262144)), Letter(Six(n, 4096)), Letter(Six(n, 64))];
    }
  }

  lemma EncodeShort(bs: seq<byte>)
    ensures bs == [] ==> Encode(bs) == []
    ensures |bs| == 1 ==> var (p, q, _, _) := Sextets(bs[0], 0, 0); Encode(bs) == [Letter(p), Letter(q)]
    ensures |bs| == 2 ==> var (p, q, r, _) := Sextets(bs[0], bs[1], 0); Encode(bs) == [Letter(p), Letter(q), Letter(r)]
  {
  }

  lemma EncodeThree(a: byte, b: byte, c: byte)
    ensures var (p, q, r, s) := Sextets(a, b, c); Encode([a, b, c]) == [Letter(p), Letter(q), Letter(r), Letter(s)]
  {
    assert [a, b, c][3..] == [];
  }

  lemma MultipleBound(d: int, x: int)
    requires d > 0
    ensures (x >= 1 ==> d * x >= d) && (x <= -1 ==> d * x <= -d)
  {
  }

  lemma Quotient(n: int, d: int, q: int, r: int)
    requires d > 0 && n == q * d + r && 0 <= r < d
    ensures n / d == q && n % d == r
  {
    assert d * (n / d - q) == r - n % d;
    MultipleBound(d, n / d - q);
  }

  /** Shifting and masking the 24-bit word picks out its sextets. */
  lemma SplitWord(a: byte, b: byte, c: byte)
    ensures var n := Packed3(a, b, c);
      (Six(n, 262144), Six(n, 4096), Six(n, 64), Six(n, 1)) == Sextets(a, b, c)
  {
    hide Six, Packed3;
    SplitHigh(a, b, c);
    SplitLow(a, b, c);
  }

  lemma SplitHigh(a: byte, b: byte, c: byte)
    ensures var n := Packed3(a, b, c); Six(n, 262144) == a / 4 && Six(n, 4096) == a % 4 * 16 + b / 16
  {
    var n := Packed3(a, b, c);
    Quotient(n, 262144, a / 4, a % 4 * 65536 + b * 256 + c);
    Quotient(n, 4096, a * 16 + b / 16, b % 16 * 256 + c);
    Quotient(a * 16 + b / 16, 64, a / 4, a % 4 * 16 + b / 16);
  }

  lemma SplitLow(a: byte, b: byte, c: byte)
    ensures var n := Packed3(a, b, c); Six(n, 64) == b % 16 * 4 + c / 64 && Six(n, 1) == c % 64
  {
    var n := Packed3(a, b, c);
    Quotient(n, 64, a * 1024 + b * 4 + c / 64, c % 64);
    Quotient(a * 1024 + b * 4 + c / 64, 64, a * 16 + b / 16, b % 16 * 4 + c / 64);
  }

  lemma JoinWord(p: sextet, q: sextet, r: sextet, s: sextet)
    ensures var n := Packed4(p, q, r, s);
      (Eight(n, 65536), Eight(n, 256), Eight(n, 1)) == Octets(p, q, r, s)
  {
    hide Eight, Packed4;
    JoinHigh(p, q, r, s);
    JoinMiddle(p, q, r, s);
    JoinLow(p, q, r, s);
  }

  lemma JoinHigh(p: sextet, q: sextet, r: sextet, s: sextet)
    ensures Eight(Packed4(p, q, r, s), 65536) == p * 4 + q / 16
  {
    Quotient(Packed4(p, q, r, s), 65536, p * 4 + q / 16, q % 16 * 4096 + r * 64 + s);
  }

  lemma JoinMiddle(p: sextet, q: sextet, r: sextet, s: sextet)
    ensures Eight(Packed4(p, q, r, s), 256) == q % 16 * 16 + r / 4
  {
    var high: int := p * 1024 + q * 16 + r / 4;
    Quotient(Packed4(p, q, r, s), 256, high, r % 4 * 64 + s);
    Quotient(high, 256, p * 4 + q / 16, q % 16 * 16 + r / 4);
  }

  lemma JoinLow(p: sextet, q: sextet, r: sextet, s: sextet)
    ensures Eight(Packed4(p, q, r, s), 1) == r % 4 * 64 + s
  {
    Quotient(Packed4(p, q, r, s), 1, Packed4(p, q, r, s), 0);
    Quotient(Packed4(p, q, r, s), 256, p * 1024 + q * 16 + r / 4, r % 4 * 64 + s);
  }

  /** The bytes still to be decoded from position `i`, put behind those already out. */
  ghost function Onward(out: seq<byte>, rest: Option<seq<byte>>): Option<seq<byte>> {
    if rest.Some? then Some(out + rest.value) else None
  }

  lemma DecodeFour(cs: seq<byte>, i: nat, out: seq<byte>)
    requires i + 4 <= |cs|
    requires Value(cs[i]).Some? && Value(cs[i + 1]).Some? && Value(cs[i + 2]).Some? && Value(cs[i + 3]).Some?
    ensures var (x, y, z) :=
        Octets(Value(cs[i]).value, Value(cs[i + 1]).value, Value(cs[i + 2]).value, Value(cs[i + 3]).value);
      Onward(out, DecodeBody(cs[i..])) == Onward(out + [x, y, z], DecodeBody(cs[i + 4..]))
  {
    assert cs[i..][4..] == cs[i + 4..];
    assert cs[i..][0] == cs[i] && cs[i..][1] == cs[i + 1] && cs[i..][2] == cs[i + 2] && cs[i..][3] == cs[i + 3];
    var (x, y, z) := Octets(Value(cs[i]).value, Value(cs[i + 1]).value, Value(cs[i + 2]).value, Value(cs[i + 3]).value);
    var rest := DecodeBody(cs[i + 4..]);
    if rest.Some? { assert out + ([x, y, z] + rest.value) == out + [x, y, z] + rest.value; }
  }

  /** `b64_decode_impl`. */
  method DecodeText(data: seq<byte>) returns (r: Option<seq<byte>>)
    ensures r == Decode(data)
  {
    if data == [] { return Some([]); }
    var dataLen := |data|;
    var padCount := 0;
    assert data[..dataLen] == data;
    while dataLen > 0 && data[dataLen - 1] == PAD
      invariant 0 <= dataLen <= |data| && padCount == |data| - dataLen
      invariant Unpadded(data) == Unpadded(data[..dataLen])
    {
      assert data[..dataLen][..dataLen - 1] == data[..dataLen - 1];
      dataLen := dataLen - 1;
      padCount := padCount + 1;
    }
    var body := data[..dataLen];
    assert Unpadded(data) == body;
    if padCount > 2 { return None; }
    BodyAcceptance(body);
    if dataLen % 4 == 1 { return None; }
    var table := BuildDecodeTable();
    r := DecodeGroups(table, body);
  }

  /** The groups of four letters, then the remainder, through the decode table. */
  method DecodeGroups(table: array<byte>, body: seq<byte>) returns (r: Option<seq<byte>>)
    requires IsTable(table) && |body| % 4 != 1
    ensures r == DecodeBody(body)
  {
    hide Value, Octets, DecodeBody, Eight, Packed4, IsTable;
    forall c: byte
      ensures table.Length == 256 && (table[c] == INVALID <==> Value(c).None?)
      ensures Value(c).Some? ==> table[c] == Value(c).value
    {
      Lookup(table, c);
    }
    var out: seq<byte> := [];
    var i := 0;
    assert body[0..] == body;
    BodyAcceptance(body);
    OnwardFromNothing(DecodeBody(body));
    while i + 4 <= |body|
      invariant 0 <= i <= |body| && i % 4 == 0
      invariant DecodeBody(body) == Onward(out, DecodeBody(body[i..]))
    {
      var a, b, c, d := table[body[i]], table[body[i + 1]], table[body[i + 2]], table[body[i + 3]];
      if a == INVALID || b == INVALID || c == INVALID || d == INVALID { return None; }
      var n := Packed4(a, b, c, d);
      JoinWord(a, b, c, d);
      DecodeFour(body, i, out);
      out := out + [Eight(n, 65536), Eight(n, 256), Eight(n, 1)];
      i := i + 4;
    }
    DecodeRemainder(body[i..]);
    if |body| - i == 0 {
      assert out + [] == out;
    } else if |body| - i == 2 {
      var a, b := table[body[i]], table[body[i + 1]];
      if a == INVALID || b == INVALID { return None; }
      var n := Packed4(a, b, 0, 0);
      JoinWord(a, b, 0, 0);
      out := out + [Eight(n, 65536)];
    } else {
      var a, b, c := table[body[i]], table[body[i + 1]], table[body[i + 2]];
      if a == INVALID || b == INVALID || c == INVALID { return None; }
      var n := Packed4(a, b, c, 0);
      JoinWord(a, b, c, 0);
      out := out + [Eight(n, 65536), Eight(n, 256)];
    }
    return Some(out);
  }

  lemma OnwardFromNothing(rest: Option<seq<byte>>)
    ensures Onward([], rest) == rest
  {
    if rest.Some? { assert [] + rest.value == rest.value; }
  }

  lemma DecodeRemainder(cs: seq<byte>)
    ensures cs == [] ==> DecodeBody(cs) == Some([])
    ensures |cs| == 2 && Value(cs[0]).Some? && Value(cs[1]).Some? ==>
      DecodeBody(cs) == Some([Octets(Value(cs[0]).value, Value(cs[1]).value, 0, 0).0])
    ensures |cs| == 3 && Value(cs[0]).Some? && Value(cs[1]).Some? && Value(cs[2]).Some? ==>
      var (x, y, _) := Octets(Value(cs[0]).value, Value(cs[1]).value, Value(cs[2]).value, 0);
      DecodeBody(cs) == Some([x, y])
  {
  }
}
