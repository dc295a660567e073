/**
 * Base64 as defined in section 4 of RFC 4648 (standard alphabet, `=` padding),
 * the encoding `btoa` applies to the `username:password` text of an HTTP Basic
 * credential. The encoder works on bytes; `Latin1` turns the credential text into
 * the bytes `btoa` encodes.
 *
 * Encoding goes through symbols: every three bytes become four 6-bit values, and a
 * short final group is completed with padding; the symbols are then written as
 * characters. A decoder is given as the encoder's partner, and the round trip
 * `Decode(Encode(b)) == Some(b)` is proved for every byte sequence.
 */
module Base64 {
  import opened Wrappers

  type byte = x: int | 0 <= x < 256
  type sextet = x: int | 0 <= x < 64

  /** One character of an encoding: a 6-bit value, or the pad character `=`. */
  datatype Symbol = Pad | Sym(v: sextet)

  /** The character of the Base64 alphabet (Table 1 of RFC 4648) for the value `i`. */
  function Digit(i: sextet): (c: char)
    ensures c != '='
    ensures DigitValue(c) == Some(i)
  {
    if i < 26 then ('A' as int + i) as char
    else if i < 52 then ('a' as int + (i - 26)) as char
    else if i < 62 then ('0' as int + (i - 52)) as char
    else if i == 62 then '+'
    else '/'
  }

  /** The value of a Base64 alphabet character, or None for any other character. */
  function DigitValue(c: char): (v: Option<sextet>) {
    if 'A' <= c <= 'Z' then Some(c as int - 'A' as int)
    else if 'a' <= c <= 'z' then Some(c as int - 'a' as int + 26)
    else if '0' <= c <= '9' then Some(c as int - '0' as int + 52)
    else if c == '+' then Some(62)
    else if c == '/' then Some(63)
    else None
  }

  function SymbolChar(x: Symbol): char {
    match x
    case Pad => '='
    case Sym(v) => Digit(v)
  }

  function CharSymbol(c: char): Option<Symbol> {
    if c == '=' then Some(Pad)
    else match DigitValue(c)
      case Some(v) => Some(Sym(v))
      case None => None
  }

  /** The characters of a symbol sequence. */
  function Render(xs: seq<Symbol>): (s: string)
    ensures |s| == |xs|
  {
    seq(|xs|, i requires 0 <= i < |xs| => SymbolChar(xs[i]))
  }

  /** The symbols of a text, or None when some character is neither a digit nor `=`. */
  function Parse(s: string): (r: Option<seq<Symbol>>)
    ensures r.Some? ==> |r.value| == |s|
  {
    if forall i :: 0 <= i < |s| ==> CharSymbol(s[i]).Some? then
      Some(seq(|s|, i requires 0 <= i < |s| => CharSymbol(s[i]).value))
    else None
  }

  /** Reading back the characters of a symbol sequence gives the symbols. */
  lemma ParseRender(xs: seq<Symbol>)
    ensures Parse(Render(xs)) == Some(xs)
  {
    var s := Render(xs);
    forall i | 0 <= i < |xs|
      ensures CharSymbol(s[i]) == Some(xs[i])
    {
      if xs[i].Sym? {
        assert DigitValue(Digit(xs[i].v)) == Some(xs[i].v);
      }
    }
    var parsed := seq(|s|, i requires 0 <= i < |s| => CharSymbol(s[i]).value);
    assert parsed == xs;
  }

  /** The four symbols for three bytes (24 bits, most significant first). */
  function GroupSymbols(b0: byte, b1: byte, b2: byte): seq<Symbol> {
    [Sym(b0 / 4), Sym((b0 % 4) * 16 + b1 / 16), Sym((b1 % 16) * 4 + b2 / 64), Sym(b2 % 64)]
  }

  /** The symbols of `b`: whole groups first, then a final group completed with padding. */
  function EncodeSymbols(b: seq<byte>): (xs: seq<Symbol>)
    ensures |xs| == 4 * ((|b| + 2) / 3)
    decreases |b|
  {
    if |b| == 0 then []
    else if |b| == 1 then [Sym(b[0] / 4), Sym((b[0] % 4) * 16), Pad, Pad]
    else if |b| == 2 then [Sym(b[0] / 4), Sym((b[0] % 4) * 16 + b[1] / 16), Sym((b[1] % 16) * 4), Pad]
    else GroupSymbols(b[0], b[1], b[2]) + EncodeSymbols(b[3..])
  }

  /** The three bytes carried by four 6-bit values. */
  function GroupBytes(c0: sextet, c1: sextet, c2: sextet, c3: sextet): seq<byte> {
    var n0: int, n1: int, n2: int, n3: int := c0, c1, c2, c3;
    [n0 * 4 + n1 / 16, (n1 % 16) * 16 + n2 / 4, (n2 % 4) * 64 + n3]
  }

  /**
   * The bytes of one group of four symbols. Padding may only end the group, and
   * the bits it leaves unused must be zero.
   */
  function DecodeGroup(x0: Symbol, x1: Symbol, x2: Symbol, x3: Symbol): Option<seq<byte>> {
    match (x0, x1, x2, x3)
    case (Sym(c0), Sym(c1), Pad, Pad) =>
      if c1 % 16 == 0 then Some(GroupBytes(c0, c1, 0, 0)[..1]) else None
    case (Sym(c0), Sym(c1), Sym(c2), Pad) =>
      if c2 % 4 == 0 then Some(GroupBytes(c0, c1, c2, 0)[..2]) else None
    case (Sym(c0), Sym(c1), Sym(c2), Sym(c3)) =>
      Some(GroupBytes(c0, c1, c2, c3))
    case _ => None
  }

  predicate Unpadded(xs: seq<Symbol>)
    requires |xs| >= 4
  {
    xs[0].Sym? && xs[1].Sym? && xs[2].Sym? && xs[3].Sym?
  }

  /** The bytes of a symbol sequence: groups of four, of which only the last may be padded. */
  function DecodeSymbols(xs: seq<Symbol>): Option<seq<byte>>
    decreases |xs|
  {
    if |xs| == 0 then Some([])
    else if |xs| < 4 then None
    else if |xs| == 4 then DecodeGroup(xs[0], xs[1], xs[2], xs[3])
    else if !Unpadded(xs) then None
    else match (DecodeGroup(xs[0], xs[1], xs[2], xs[3]), DecodeSymbols(xs[4..]))
      case (Some(g), Some(rest)) => Some(g + rest)
      case _ => None
  }

  /** Base64 encoding of `b`. */
  function Encode(b: seq<byte>): (s: string)
    ensures |s| == 4 * ((|b| + 2) / 3)
  {
    Render(EncodeSymbols(b))
  }

  /** Base64 decoding: None unless `s` is the encoding of some byte sequence's groups. */
  function Decode(s: string): Option<seq<byte>> {
    match Parse(s)
    case Some(xs) => DecodeSymbols(xs)
    case None => None
  }

  /** A whole group of three bytes decodes back to those bytes. */
  lemma GroupRoundTrip(b0: byte, b1: byte, b2: byte)
    ensures var g := GroupSymbols(b0, b1, b2);
            DecodeGroup(g[0], g[1], g[2], g[3]) == Some([b0, b1, b2])
  {
    var c1 := (b0 % 4) * 16 + b1 / 16;
    var c2 := (b1 % 16) * 4 + b2 / 64;
    assert c1 / 16 == b0 % 4 && c1 % 16 == b1 / 16;
    assert c2 / 4 == b1 % 16 && c2 % 4 == b2 / 64;
  }

  /** A lone trailing byte: two symbols and two pads, decoding back to the byte. */
  lemma OneByteRoundTrip(b0: byte)
    ensures DecodeGroup(Sym(b0 / 4), Sym((b0 % 4) * 16), Pad, Pad) == Some([b0])
  {
    var c0, c1 := b0 / 4, (b0 % 4) * 16;
    assert c1 / 16 == b0 % 4 && c1 % 16 == 0;
    assert GroupBytes(c0, c1, 0, 0)[..1] == [b0];
  }

  /** Two trailing bytes: three symbols and a pad, decoding back to the bytes. */
  lemma TwoByteRoundTrip(b0: byte, b1: byte)
    ensures DecodeGroup(Sym(b0 / 4), Sym((b0 % 4) * 16 + b1 / 16), Sym((b1 % 16) * 4), Pad) == Some([b0, b1])
  {
    var c0, c1, c2 := b0 / 4, (b0 % 4) * 16 + b1 / 16, (b1 % 16) * 4;
    assert c1 / 16 == b0 % 4 && c1 % 16 == b1 / 16;
    assert c2 / 4 == b1 % 16 && c2 % 4 == 0;
    assert GroupBytes(c0, c1, c2, 0)[..2] == [b0, b1];
  }

  /** Decoding the symbols of any byte sequence gives back the bytes. */
  lemma {:induction false} SymbolsRoundTrip(b: seq<byte>)
    ensures DecodeSymbols(EncodeSymbols(b)) == Some(b)
    decreases |b|
  {
    if |b| == 0 {
    } else if |b| == 1 {
      OneByteRoundTrip(b[0]);
      assert [b[0]] == b;
    } else if |b| == 2 {
      TwoByteRoundTrip(b[0], b[1]);
      assert [b[0], b[1]] == b;
    } else {
      var rest := b[3..];
      var g := GroupSymbols(b[0], b[1], b[2]);
      var xs := EncodeSymbols(b);
      assert xs == g + EncodeSymbols(rest);
      GroupRoundTrip(b[0], b[1], b[2]);
      assert b == [b[0], b[1], b[2]] + rest;
      if |rest| == 0 {
        assert rest == [];
        assert xs == g;
        assert b == [b[0], b[1], b[2]];
      } else {
        SymbolsRoundTrip(rest);
        assert xs[..4] == g && xs[4..] == EncodeSymbols(rest);
        assert xs[0] == g[0] && xs[1] == g[1] && xs[2] == g[2] && xs[3] == g[3];
      }
    }
  }

  /** Decoding undoes encoding, for every byte sequence. */
  lemma RoundTrip(b: seq<byte>)
    ensures Decode(Encode(b)) == Some(b)
  {
    ParseRender(EncodeSymbols(b));
    SymbolsRoundTrip(b);
  }

  /** The bytes `btoa` encodes for a string: one byte per character, its code's low eight bits. */
  function Latin1(s: string): (b: seq<byte>)
    ensures |b| == |s|
    ensures forall i :: 0 <= i < |s| && (s[i] as int) < 256 ==> b[i] == s[i] as int
  {
    seq(|s|, i requires 0 <= i < |s| => (s[i] as int) % 256)
  }

  /** The string whose Latin-1 bytes are `b`. */
  function Latin1Text(b: seq<byte>): (s: string)
    ensures |s| == |b|
    ensures forall i :: 0 <= i < |b| ==> s[i] as int == b[i]
  {
    seq(|b|, i requires 0 <= i < |b| => b[i] as char)
  }

  predicate IsLatin1(s: string) {
    forall i :: 0 <= i < |s| ==> (s[i] as int) < 256
  }

  /** For text made of Latin-1 characters, the byte conversion loses nothing. */
  lemma Latin1RoundTrip(s: string)
    requires IsLatin1(s)
    ensures Latin1Text(Latin1(s)) == s
  {
  }

  /** The credential `u:p` encodes to `dTpw`. */
  lemma CredentialExample()
    ensures Encode(Latin1("u:p")) == "dTpw"
  {
    var up := Latin1("u:p");
    assert up == [0x75, 0x3a, 0x70];
    assert EncodeSymbols(up) == [Sym(29), Sym(19), Sym(41), Sym(48)];
  }

  /** Test vectors of section 10 of RFC 4648: one and two padding characters. */
  lemma PaddedVectors()
    ensures Encode(Latin1("f")) == "Zg=="
    ensures Encode(Latin1("fo")) == "Zm8="
  {
    assert Latin1("f") == [0x66];
    assert EncodeSymbols([0x66]) == [Sym(25), Sym(32), Pad, Pad];
    assert Latin1("fo") == [0x66, 0x6f];
    assert EncodeSymbols([0x66, 0x6f]) == [Sym(25), Sym(38), Sym(60), Pad];
  }

  /** The six-byte vector of section 10 of RFC 4648: two whole groups. */
  lemma WholeGroupsVector()
    ensures Encode(Latin1("foobar")) == "Zm9vYmFy"
  {
    var b := Latin1("foobar");
    assert b == [0x66, 0x6f, 0x6f, 0x62, 0x61, 0x72];
    assert b[3..] == [0x62, 0x61, 0x72];
    assert EncodeSymbols(b[3..]) == [Sym(24), Sym(38), Sym(5), Sym(50)];
    assert EncodeSymbols(b) == [Sym(25), Sym(38), Sym(61), Sym(47), Sym(24), Sym(38), Sym(5), Sym(50)];
  }
}
