/** `_parse_basic` of app/middleware/mcp_auth.py over Base64, section 4 of RFC 4648, for the credentials of
    section 2 of RFC 7617.  How text becomes bytes is a parameter. */
module BasicAuth {
  import opened Wrappers

  type Byte = b: int | 0 <= b < 256

  type Sextet = v: int | 0 <= v < 64

  // ----- Base64 -----

  function Symbol(v: Sextet): char {
    if v < 26 then ('A' as int + v) as char
    else if v < 52 then ('a' as int + v - 26) as char
    else if v < 62 then ('0' as int + v - 52) as char
    else if v == 62 then '+' else '/'
  }

  function ValueOf(c: char): Option<Sextet> {
    if 'A' <= c <= 'Z' then Some(c as int - 'A' as int)
    else if 'a' <= c <= 'z' then Some(c as int - 'a' as int + 26)
    else if '0' <= c <= '9' then Some(c as int - '0' as int + 52)
    else if c == '+' then Some(62) else if c == '/' then Some(63)
    else None
  }

  function Group(b0: Byte, b1: Byte, b2: Byte): string {
    [Symbol(b0 / 4), Symbol(b0 % 4 * 16 + b1 / 16), Symbol(b1 % 16 * 4 + b2 / 64), Symbol(b2 % 64)]
  }

  /** The last one or two bytes. */
  function Padded(bs: seq<Byte>): string
    requires |bs| < 3
  {
    if bs == [] then ""
    else if |bs| == 1 then [Symbol(bs[0] / 4), Symbol(bs[0] % 4 * 16), '=', '=']
    else [Symbol(bs[0] / 4), Symbol(bs[0] % 4 * 16 + bs[1] / 16), Symbol(bs[1] % 16 * 4), '=']
  }

  function Encode(bs: seq<Byte>): string {
    if |bs| < 3 then Padded(bs) else Group(bs[0], bs[1], bs[2]) + Encode(bs[3..])
  }

  /** The decoder between two characters: how many of the current four it has seen, the bits left over from
      them, and the padding seen since the last symbol. */
  datatype Decoder = Decoder(quad: nat, left: nat, pads: nat)

  predicate Ready(d: Decoder) {
    (d.quad == 0 && d.left == 0) || (d.quad == 1 && d.left < 64) || (d.quad == 2 && d.left < 16) || (d.quad == 3 && d.left < 4)
  }

  const START := Decoder(0, 0, 0)

  /** One symbol: the next state, and the byte it completes. */
  function Feed(d: Decoder, v: Sextet): (r: (Decoder, seq<Byte>))
    requires Ready(d)
    ensures Ready(r.0)
  {
    if d.quad == 0 then (Decoder(1, v, 0), [])
    else if d.quad == 1 then (Decoder(2, v % 16, 0), [d.left * 4 + v / 16])
    else if d.quad == 2 then (Decoder(3, v % 4, 0), [d.left * 16 + v / 4])
    else (START, [d.left * 64 + v])
  }

  /** What is decoded from the rest, after the bytes decoded so far. */
  function Then(out: seq<Byte>, rest: Option<seq<Byte>>): Option<seq<Byte>> {
    if rest.None? then None else Some(out + rest.value)
  }

  /** The lenient decoder of Python's `base64.b64decode`: characters outside the alphabet are skipped, padding
      that completes a group of four ends the input, and a group left incomplete is an error. */
  function Decode(text: string, d: Decoder): Option<seq<Byte>>
    requires Ready(d)
  {
    if text == "" then (if d.quad == 0 then Some([]) else None)
    else if text[0] == '=' then
      if d.quad >= 2 && d.quad + d.pads + 1 >= 4 then Some([])
      else Decode(text[1..], if d.quad >= 2 then d.(pads := d.pads + 1) else d)
    else
      match ValueOf(text[0])
      case None => Decode(text[1..], d)
      case Some(v) =>
        var (d', out) := Feed(d, v);
        Then(out, Decode(text[1..], d'))
  }

  predicate Ascii(text: string) {
    forall c :: c in text ==> c as int < 128
  }

  /** Text that is not ASCII is refused before it is decoded. */
  function B64Decode(text: string): Option<seq<Byte>> {
    if Ascii(text) then Decode(text, START) else None
  }

  lemma SymbolValue(v: Sextet)
    ensures ValueOf(Symbol(v)) == Some(v) && Symbol(v) != '=' && Symbol(v) as int < 128
  {
  }

  lemma DecodeSymbol(v: Sextet, rest: string, d: Decoder)
    requires Ready(d)
    ensures var (d', out) := Feed(d, v); Decode([Symbol(v)] + rest, d) == Then(out, Decode(rest, d'))
  {
    SymbolValue(v);
    assert ([Symbol(v)] + rest)[1..] == rest;
  }

  lemma DecodePad(rest: string, d: Decoder)
    requires Ready(d) && d.quad >= 2
    ensures Decode(['='] + rest, d) ==
            if d.quad + d.pads + 1 >= 4 then Some([]) else Decode(rest, d.(pads := d.pads + 1))
  {
    assert (['='] + rest)[1..] == rest;
  }

  lemma ThenNothing(rest: Option<seq<Byte>>)
    ensures Then([], rest) == rest
  {
    if rest.Some? {
      assert [] + rest.value == rest.value;
    }
  }

  lemma ThenThree(x: Byte, y: Byte, z: Byte, rest: Option<seq<Byte>>)
    ensures Then([x], Then([y], Then([z], rest))) == Then([x, y, z], rest)
  {
    if rest.Some? {
      assert [x] + ([y] + ([z] + rest.value)) == [x, y, z] + rest.value;
    }
  }

  lemma FourThen(c0: char, c1: char, c2: char, c3: char, rest: string)
    ensures [c0, c1, c2, c3] + rest == [c0] + ([c1] + ([c2] + ([c3] + rest)))
  {
  }

  lemma FirstSymbol(v: Sextet, rest: string)
    ensures Decode([Symbol(v)] + rest, START) == Decode(rest, Decoder(1, v, 0))
  {
    DecodeSymbol(v, rest, START);
    ThenNothing(Decode(rest, Decoder(1, v, 0)));
  }

  lemma SecondSymbol(v: Sextet, left: Sextet, rest: string)
    ensures Decode([Symbol(v)] + rest, Decoder(1, left, 0)) ==
            Then([left * 4 + v / 16], Decode(rest, Decoder(2, v % 16, 0)))
  {
    DecodeSymbol(v, rest, Decoder(1, left, 0));
  }

  lemma ThirdSymbol(v: Sextet, left: nat, rest: string)
    requires left < 16
    ensures Decode([Symbol(v)] + rest, Decoder(2, left, 0)) ==
            Then([left * 16 + v / 4], Decode(rest, Decoder(3, v % 4, 0)))
  {
    DecodeSymbol(v, rest, Decoder(2, left, 0));
  }

  lemma FourthSymbol(v: Sextet, left: nat, rest: string)
    requires left < 4
    ensures Decode([Symbol(v)] + rest, Decoder(3, left, 0)) == Then([left * 64 + v], Decode(rest, START))
  {
    DecodeSymbol(v, rest, Decoder(3, left, 0));
  }

  /** The first two symbols of a group yield its first byte. */
  lemma DecodePair(v0: Sextet, v1: Sextet, rest: string)
    ensures Decode([Symbol(v0)] + ([Symbol(v1)] + rest), START) ==
            Then([v0 * 4 + v1 / 16], Decode(rest, Decoder(2, v1 % 16, 0)))
  {
    FirstSymbol(v0, [Symbol(v1)] + rest);
    SecondSymbol(v1, v0, rest);
  }

  /** The other two yield the second and third. */
  lemma DecodeTail(v2: Sextet, v3: Sextet, left: nat, rest: string)
    requires left < 16
    ensures Decode([Symbol(v2)] + ([Symbol(v3)] + rest), Decoder(2, left, 0)) ==
            Then([left * 16 + v2 / 4], Then([v2 % 4 * 64 + v3], Decode(rest, START)))
  {
    ThirdSymbol(v2, left, [Symbol(v3)] + rest);
    FourthSymbol(v3, v2 % 4, rest);
  }

  lemma DecodeGroup(v0: Sextet, v1: Sextet, v2: Sextet, v3: Sextet, rest: string)
    ensures Decode([Symbol(v0), Symbol(v1), Symbol(v2), Symbol(v3)] + rest, START) ==
            Then([v0 * 4 + v1 / 16, v1 % 16 * 16 + v2 / 4, v2 % 4 * 64 + v3], Decode(rest, START))
  {
    DecodeTail(v2, v3, v1 % 16, rest);
    DecodePair(v0, v1, [Symbol(v2)] + ([Symbol(v3)] + rest));
    FourThen(Symbol(v0), Symbol(v1), Symbol(v2), Symbol(v3), rest);
    ThenThree(v0 * 4 + v1 / 16, v1 % 16 * 16 + v2 / 4, v2 % 4 * 64 + v3, Decode(rest, START));
  }

  /** Cutting three bytes into four sextets loses nothing. */
  lemma Regroup(b0: Byte, b1: Byte, b2: Byte)
    ensures var v0, v1, v2, v3 := b0 / 4, b0 % 4 * 16 + b1 / 16, b1 % 16 * 4 + b2 / 64, b2 % 64;
            v0 * 4 + v1 / 16 == b0 && v1 % 16 * 16 + v2 / 4 == b1 && v2 % 4 * 64 + v3 == b2
  {
  }

  lemma DecodeFour(b0: Byte, b1: Byte, b2: Byte, rest: string)
    ensures Decode(Group(b0, b1, b2) + rest, START) == Then([b0, b1, b2], Decode(rest, START))
  {
    DecodeGroup(b0 / 4, b0 % 4 * 16 + b1 / 16, b1 % 16 * 4 + b2 / 64, b2 % 64, rest);
    Regroup(b0, b1, b2);
  }

  lemma DecodeOne(b0: Byte, rest: string)
    ensures Decode([Symbol(b0 / 4), Symbol(b0 % 4 * 16), '=', '='] + rest, START) == Some([b0])
  {
    var v0, v1: Sextet := b0 / 4, b0 % 4 * 16;
    DecodePad(rest, Decoder(2, 0, 1));
    DecodePad(['='] + rest, Decoder(2, 0, 0));
    DecodePair(v0, v1, ['='] + (['='] + rest));
    FourThen(Symbol(v0), Symbol(v1), '=', '=', rest);
    assert v1 % 16 == 0 && v0 * 4 + v1 / 16 == b0 && [b0] + [] == [b0];
  }

  lemma DecodeTwo(b0: Byte, b1: Byte, rest: string)
    ensures Decode([Symbol(b0 / 4), Symbol(b0 % 4 * 16 + b1 / 16), Symbol(b1 % 16 * 4), '='] + rest, START) == Some([b0, b1])
  {
    var v0, v1, v2: Sextet := b0 / 4, b0 % 4 * 16 + b1 / 16, b1 % 16 * 4;
    DecodePad(rest, Decoder(3, v2 % 4, 0));
    DecodeSymbol(v2, ['='] + rest, Decoder(2, v1 % 16, 0));
    DecodePair(v0, v1, [Symbol(v2)] + (['='] + rest));
    FourThen(Symbol(v0), Symbol(v1), Symbol(v2), '=', rest);
    assert v0 * 4 + v1 / 16 == b0 && v1 % 16 * 16 + v2 / 4 == b1 && [b0] + ([b1] + []) == [b0, b1];
  }

  lemma ThenThen(a: seq<Byte>, b: seq<Byte>, rest: Option<seq<Byte>>)
    ensures Then(a, Then(b, rest)) == Then(a + b, rest)
  {
    if rest.Some? {
      assert a + (b + rest.value) == (a + b) + rest.value;
    }
  }

  lemma Associative(a: string, b: string, c: string)
    ensures (a + b) + c == a + (b + c)
  {
  }

  lemma DecodePadded(bs: seq<Byte>, rest: string)
    requires |bs| < 3
    ensures Decode(Padded(bs) + rest, START) == if bs == [] then Decode(rest, START) else Some(bs)
  {
    if bs == [] {
      assert "" + rest == rest;
    } else if |bs| == 1 {
      assert bs == [bs[0]];
      DecodeOne(bs[0], rest);
    } else {
      assert bs == [bs[0], bs[1]];
      DecodeTwo(bs[0], bs[1], rest);
    }
  }

  lemma DecodeFirstGroup(bs: seq<Byte>, rest: string)
    requires |bs| > 2
    ensures Decode(Encode(bs) + rest, START) == Then(bs[..3], Decode(Encode(bs[3..]) + rest, START))
  {
    DecodeFour(bs[0], bs[1], bs[2], Encode(bs[3..]) + rest);
    Associative(Group(bs[0], bs[1], bs[2]), Encode(bs[3..]), rest);
    assert bs[..3] == [bs[0], bs[1], bs[2]];
  }

  /** What the encoding of `bs`, followed by `rest`, decodes to: where it ends in padding, whatever follows is ignored. */
  function Followed(bs: seq<Byte>, rest: string): Option<seq<Byte>> {
    if |bs| % 3 == 0 then Then(bs, Decode(rest, START)) else Some(bs)
  }

  lemma FollowedGroup(bs: seq<Byte>, rest: string)
    requires |bs| > 2
    ensures Then(bs[..3], Followed(bs[3..], rest)) == Followed(bs, rest)
  {
    assert bs[..3] + bs[3..] == bs && |bs[3..]| % 3 == |bs| % 3;
    ThenThen(bs[..3], bs[3..], Decode(rest, START));
  }

  lemma FollowedEnd(bs: seq<Byte>, rest: string)
    requires |bs| < 3
    ensures Decode(Encode(bs) + rest, START) == Followed(bs, rest)
  {
    DecodePadded(bs, rest);
    ThenNothing(Decode(rest, START));
  }

  /** An encoding decodes to what was encoded. */
  lemma {:induction false} DecodeEncode(bs: seq<Byte>, rest: string)
    ensures Decode(Encode(bs) + rest, START) == Followed(bs, rest)
  {
    if |bs| < 3 {
      FollowedEnd(bs, rest);
    } else {
      DecodeFirstGroup(bs, rest);
      DecodeEncode(bs[3..], rest);
      FollowedGroup(bs, rest);
    }
  }

  lemma {:induction false} EncodeAscii(bs: seq<Byte>)
    ensures Ascii(Encode(bs))
  {
    if bs != [] {
      SymbolsAreAscii();
      if |bs| > 2 {
        EncodeAscii(bs[3..]);
      }
    }
  }

  lemma SymbolsAreAscii()
    ensures forall v: Sextet :: Symbol(v) as int < 128
  {
  }

  /** Base64 round trip: every byte string is recovered from its encoding. */
  lemma Base64RoundTrip(bs: seq<Byte>)
    ensures B64Decode(Encode(bs)) == Some(bs)
  {
    EncodeAscii(bs);
    DecodeEncode(bs, "");
    assert Encode(bs) + "" == Encode(bs) && bs + [] == bs;
  }

  lemma FirstGroup(b0: Byte, b1: Byte, b2: Byte, rest: seq<Byte>)
    ensures Encode([b0, b1, b2] + rest) == Group(b0, b1, b2) + Encode(rest)
    ensures Encode([b0, b1, b2]) == Group(b0, b1, b2)
  {
    var bs := [b0, b1, b2] + rest;
    assert bs[3..] == rest && [b0, b1, b2][3..] == [];
    assert Group(b0, b1, b2) + "" == Group(b0, b1, b2);
  }

  lemma Rfc4648ShortVectors()
    ensures Encode([102]) == "Zg=="
    ensures Encode([102, 111]) == "Zm8="
    ensures Encode([102, 111, 111]) == "Zm9v"
  {
    FirstGroup(102, 111, 111, []);
  }

  lemma BarVectors()
    ensures Encode([98]) == "Yg=="
    ensures Encode([98, 97]) == "YmE="
    ensures Encode([98, 97, 114]) == "YmFy"
  {
    FirstGroup(98, 97, 114, []);
  }

  /** The test vectors of section 10 of RFC 4648. */
  lemma Rfc4648Vectors()
    ensures Encode([102]) == "Zg=="
    ensures Encode([102, 111]) == "Zm8="
    ensures Encode([102, 111, 111]) == "Zm9v"
    ensures Encode([102, 111, 111, 98]) == "Zm9vYg=="
    ensures Encode([102, 111, 111, 98, 97]) == "Zm9vYmE="
    ensures Encode([102, 111, 111, 98, 97, 114]) == "Zm9vYmFy"
  {
    Rfc4648ShortVectors();
    BarVectors();
    FirstGroup(102, 111, 111, [98]);
    FirstGroup(102, 111, 111, [98, 97]);
    FirstGroup(102, 111, 111, [98, 97, 114]);
    assert [102, 111, 111] + [98] == [102, 111, 111, 98];
    assert [102, 111, 111] + [98, 97] == [102, 111, 111, 98, 97];
    assert [102, 111, 111] + [98, 97, 114] == [102, 111, 111, 98, 97, 114];
  }

  // ----- Which encoding and which decoder -----

  const UPPER := "ABCDEFGHIJKLMNOPQRSTUVWXYZ"
  const LOWER := "abcdefghijklmnopqrstuvwxyz"
  const DIGITS := "0123456789"
  const ALPHABET := UPPER + LOWER + DIGITS + "+/"

  lemma InOrder(i: nat)
    ensures i < 26 ==> UPPER[i] == ('A' as int + i) as char && LOWER[i] == ('a' as int + i) as char
    ensures i < 10 ==> DIGITS[i] == ('0' as int + i) as char
  {
  }

  /** Table 1 of RFC 4648. */
  lemma SymbolIsInTheTable(v: Sextet)
    ensures |ALPHABET| == 64 && Symbol(v) == ALPHABET[v]
  {
    InOrder(if v < 26 then v else if v < 52 then v - 26 else if v < 62 then v - 52 else 0);
  }

  function Digit(c: char): Sextet {
    if ValueOf(c).Some? then ValueOf(c).value else 0
  }

  /** The number four characters write in base 64, padding counting as zero. */
  function InBase64(text: string): int
    requires |text| == 4
  {
    Digit(text[0]) * 262144 + Digit(text[1]) * 4096 + Digit(text[2]) * 64 + Digit(text[3])
  }

  lemma DigitsOf(v0: Sextet, v1: Sextet, v2: Sextet, v3: Sextet)
    ensures InBase64([Symbol(v0), Symbol(v1), Symbol(v2), Symbol(v3)]) == v0 * 262144 + v1 * 4096 + v2 * 64 + v3
    ensures InBase64([Symbol(v0), Symbol(v1), Symbol(v2), '=']) == v0 * 262144 + v1 * 4096 + v2 * 64
    ensures InBase64([Symbol(v0), Symbol(v1), '=', '=']) == v0 * 262144 + v1 * 4096
  {
    SymbolValue(v0);
    SymbolValue(v1);
    SymbolValue(v2);
    SymbolValue(v3);
  }

  lemma Recombine(b0: Byte, b1: Byte, b2: Byte)
    ensures b0 / 4 * 262144 + (b0 % 4 * 16 + b1 / 16) * 4096 + (b1 % 16 * 4 + b2 / 64) * 64 + b2 % 64 ==
            b0 * 65536 + b1 * 256 + b2
  {
  }

  lemma GroupDigits(b0: Byte, b1: Byte, b2: Byte)
    ensures InBase64(Group(b0, b1, b2)) == b0 * 65536 + b1 * 256 + b2
  {
    Recombine(b0, b1, b2);
    DigitsOf(b0 / 4, b0 % 4 * 16 + b1 / 16, b1 % 16 * 4 + b2 / 64, b2 % 64);
  }

  /** Three bytes are encoded as the four base-64 digits of one 24-bit number. */
  lemma GroupIsANumber(b0: Byte, b1: Byte, b2: Byte)
    ensures var text := Group(b0, b1, b2);
            Encode([b0, b1, b2]) == text && '=' !in text && InBase64(text) == b0 * 65536 + b1 * 256 + b2
  {
    FirstGroup(b0, b1, b2, []);
    GroupDigits(b0, b1, b2);
    SymbolsAreNoPadding(Group(b0, b1, b2), b0, b1, b2);
  }

  lemma SymbolsAreNoPadding(text: string, b0: Byte, b1: Byte, b2: Byte)
    requires text == Group(b0, b1, b2)
    ensures '=' !in text
  {
    SymbolValue(b0 / 4);
    SymbolValue(b0 % 4 * 16 + b1 / 16);
    SymbolValue(b1 % 16 * 4 + b2 / 64);
    SymbolValue(b2 % 64);
  }

  /** With one or two of the three missing, as many of the digits are padding. */
  lemma PartialGroupIsPadded(b0: Byte, b1: Byte)
    ensures var text := Encode([b0, b1]);
            |text| == 4 && text[3] == '=' && text[2] != '=' && InBase64(text) == b0 * 65536 + b1 * 256
    ensures var text := Encode([b0]);
            |text| == 4 && text[3] == text[2] == '=' && InBase64(text) == b0 * 65536
  {
    DigitsOf(b0 / 4, b0 % 4 * 16 + b1 / 16, b1 % 16 * 4, 0);
    DigitsOf(b0 / 4, b0 % 4 * 16, 0, 0);
  }

  lemma GroupFirst(group: seq<Byte>, rest: seq<Byte>)
    requires |group| == 3
    ensures Encode(group + rest) == Encode(group) + Encode(rest)
  {
    assert group == [group[0], group[1], group[2]];
    FirstGroup(group[0], group[1], group[2], rest);
  }

  lemma GroupsStep(group: seq<Byte>, tail: seq<Byte>, rest: seq<Byte>)
    requires |group| == 3 && Encode(tail + rest) == Encode(tail) + Encode(rest)
    ensures Encode(group + (tail + rest)) == Encode(group + tail) + Encode(rest)
  {
    GroupFirst(group, tail);
    GroupFirst(group, tail + rest);
    Associative(Encode(group), Encode(tail), Encode(rest));
  }

  lemma SplitGroups(groups: seq<Byte>, rest: seq<Byte>)
    requires |groups| >= 3
    ensures groups[..3] + groups[3..] == groups
    ensures groups[..3] + (groups[3..] + rest) == groups + rest
  {
  }

  /** Whole groups are encoded one by one, with nothing between them. */
  lemma {:induction false} EncodeInGroups(groups: seq<Byte>, rest: seq<Byte>)
    requires |groups| % 3 == 0
    ensures Encode(groups + rest) == Encode(groups) + Encode(rest)
    decreases |groups|
  {
    if groups == [] {
      assert groups + rest == rest;
    } else {
      EncodeInGroups(groups[3..], rest);
      GroupsStep(groups[..3], groups[3..], rest);
      SplitGroups(groups, rest);
    }
  }

  /** The characters a decoder looks at. */
  function Significant(text: string): string {
    if text == "" then ""
    else (if text[0] == '=' || ValueOf(text[0]).Some? then [text[0]] else []) + Significant(text[1..])
  }

  lemma ValueOfAlphabet(c: char)
    ensures ValueOf(c).Some? <==> c in ALPHABET
  {
    if ValueOf(c).Some? {
      SymbolIsInTheTable(ValueOf(c).value);
      assert Symbol(ValueOf(c).value) == c;
    }
    if c in ALPHABET {
      SymbolIsInTheTable(0);
      var i :| 0 <= i < |ALPHABET| && ALPHABET[i] == c;
      SymbolIsInTheTable(i);
      SymbolValue(i);
    }
  }

  /** Foreign characters, white space among them, are skipped wherever they stand. */
  lemma {:induction false} ForeignIsSkipped(text: string, d: Decoder)
    requires Ready(d)
    ensures Decode(text, d) == Decode(Significant(text), d)
  {
    if text != "" {
      var c, rest, kept := text[0], text[1..], Significant(text[1..]);
      assert ([c] + kept)[1..] == kept && [] + kept == kept;
      ForeignIsSkipped(rest, d);
      if c == '=' {
        if d.quad >= 2 {
          ForeignIsSkipped(rest, d.(pads := d.pads + 1));
        }
      } else if ValueOf(c).Some? {
        ForeignIsSkipped(rest, Feed(d, ValueOf(c).value).0);
      }
    }
  }

  /** Padding before the second symbol of a group is skipped too. */
  lemma EarlyPaddingIsSkipped(rest: string, d: Decoder)
    requires Ready(d) && d.quad < 2
    ensures Decode("=" + rest, d) == Decode(rest, d)
  {
    assert ("=" + rest)[1..] == rest;
  }

  /** Nothing is read out of text that is not ASCII, however it goes on. */
  lemma OnlyAsciiIsDecoded(header: string, toText: seq<Byte> -> Option<string>)
    requires !Ascii(header)
    ensures ParseBasic(header, toText) == (None, None)
  {
    if SCHEME <= header {
      assert header == SCHEME + header[|SCHEME|..];
    }
  }

  predicate Symbols(text: string) {
    forall c :: c in text ==> ValueOf(c).Some?
  }

  /** Where the next symbol leaves the current four. */
  function NextQuad(quad: nat): nat {
    if quad == 3 then 0 else quad + 1
  }

  lemma Remainder(quad: nat, n: nat)
    requires quad < 4 && n > 0
    ensures (NextQuad(quad) + n - 1) % 4 == (quad + n) % 4
  {
    if quad == 3 {
      assert quad + n == (n - 1) + 4;
    }
  }

  lemma DecodeNext(text: string, d: Decoder) returns (d': Decoder)
    requires Ready(d) && text != "" && Symbols(text)
    ensures Ready(d') && d'.quad == NextQuad(d.quad) && Symbols(text[1..])
    ensures Decode(text, d).Some? <==> Decode(text[1..], d').Some?
  {
    var v := ValueOf(text[0]).value;
    d' := Feed(d, v).0;
    assert Decode(text, d) == Then(Feed(d, v).1, Decode(text[1..], d'));
  }

  /** Symbols alone decode if and only if they make whole groups of four. */
  lemma {:induction false} WholeGroupsOnly(text: string, d: Decoder)
    requires Ready(d) && Symbols(text)
    ensures Decode(text, d).Some? <==> (d.quad + |text|) % 4 == 0
  {
    if text != "" {
      var d' := DecodeNext(text, d);
      Remainder(d.quad, |text|);
      WholeGroupsOnly(text[1..], d');
    }
  }

  // ----- The credential parser -----

  const SCHEME := "Basic "

  function IndexOf(s: string, c: char): (i: nat)
    ensures i <= |s| && c !in s[..i]
    ensures i < |s| ==> s[i] == c
  {
    if s == "" || s[0] == c then 0
    else
      var i := IndexOf(s[1..], c) + 1;
      assert s[..i] == [s[0]] + s[1..][..i - 1];
      i
  }

  lemma {:induction false} FirstIndex(s: string, c: char, k: nat)
    requires k < |s| && s[k] == c && c !in s[..k]
    ensures IndexOf(s, c) == k
  {
    if k > 0 {
      assert s[0] in s[..k];
      assert forall x :: x in s[1..][..k - 1] ==> x in s[..k];
      FirstIndex(s[1..], c, k - 1);
    }
  }

  /** `toText` is how Python decodes the bytes as text, `None` where it raises. */
  function ParseBasic(header: string, toText: seq<Byte> -> Option<string>): (Option<string>, Option<string>) {
    if !(SCHEME <= header) then (None, None)
    else
      match B64Decode(header[|SCHEME|..])
      case None => (None, None)
      case Some(bytes) =>
        match toText(bytes)
        case None => (None, None)
        case Some(text) =>
          var i := IndexOf(text, ':');
          if i < |text| then (Some(text[..i]), Some(text[i + 1..])) else (None, None)
  }

  /** The header a client sends for the bytes of "user:password". */
  function BasicHeader(bytes: seq<Byte>): string {
    SCHEME + Encode(bytes)
  }

  /** For every colon-free user id and every password, however a client turns them into bytes, the parser recovers
      exactly the pair, provided the bytes decode to the text they came from. */
  lemma CredentialsRoundTrip(user: string, password: string, bytes: seq<Byte>, toText: seq<Byte> -> Option<string>)
    requires ':' !in user && toText(bytes) == Some(user + ":" + password)
    ensures BasicHeader(bytes) == "Basic " + Encode(bytes)
    ensures ParseBasic(BasicHeader(bytes), toText) == (Some(user), Some(password))
  {
    var text := user + ":" + password;
    var header := BasicHeader(bytes);
    Base64RoundTrip(bytes);
    assert header[|SCHEME|..] == Encode(bytes) && header[..|SCHEME|] == SCHEME;
    assert text[..|user|] == user && text[|user|] == ':';
    FirstIndex(text, ':', |user|);
    assert text[|user| + 1..] == password;
  }

  // ----- ASCII text -----

  function AsciiBytes(text: string): (r: seq<Byte>)
    requires Ascii(text)
    ensures |r| == |text| && forall i :: 0 <= i < |text| ==> r[i] == text[i] as int
  {
    if text == "" then []
    else
      assert text[0] in text && forall c :: c in text[1..] ==> c in text;
      [text[0] as int] + AsciiBytes(text[1..])
  }

  predicate AsciiOnly(bytes: seq<Byte>) {
    forall i :: 0 <= i < |bytes| ==> bytes[i] < 128
  }

  function AsciiText(bytes: seq<Byte>): string
    requires AsciiOnly(bytes)
  {
    seq(|bytes|, i requires 0 <= i < |bytes| => bytes[i] as char)
  }

  /** Python's decoding: ASCII bytes are their own text; what it does beyond them is a parameter. */
  function Utf8(beyond: seq<Byte> -> Option<string>): seq<Byte> -> Option<string> {
    (bytes: seq<Byte>) => if AsciiOnly(bytes) then Some(AsciiText(bytes)) else beyond(bytes)
  }

  lemma AsciiRoundTrip(text: string, beyond: seq<Byte> -> Option<string>)
    requires Ascii(text)
    ensures Utf8(beyond)(AsciiBytes(text)) == Some(text)
  {
    var bytes := AsciiBytes(text);
    assert AsciiOnly(bytes) by {
      forall i | 0 <= i < |bytes|
        ensures bytes[i] < 128
      {
        assert text[i] in text;
      }
    }
    assert AsciiText(bytes) == text;
  }

  /** The text a header carries, if it can be decoded at all. */
  function Carried(header: string, toText: seq<Byte> -> Option<string>): Option<string> {
    if !(SCHEME <= header) || B64Decode(header[|SCHEME|..]).None? then None
    else toText(B64Decode(header[|SCHEME|..]).value)
  }

  lemma CutAndJoin(text: string, i: nat)
    requires i < |text| && text[i] == ':'
    ensures text == text[..i] + ":" + text[i + 1..]
  {
  }

  /** The parser returns a pair exactly when the header carries text with a colon, and the pair is that text cut
      at its first colon. */
  lemma ParsedIsTheCarriedText(header: string, toText: seq<Byte> -> Option<string>)
    ensures var (user, password) := ParseBasic(header, toText); var text := Carried(header, toText);
            && (user.Some? <==> password.Some?)
            && (user.Some? <==> text.Some? && ':' in text.value)
            && (!("Basic " <= header) ==> user.None?)
            && (user.Some? ==> ':' !in user.value && text.value == user.value + ":" + password.value)
  {
    var text := Carried(header, toText);
    if text.Some? {
      var i := IndexOf(text.value, ':');
      if i < |text.value| {
        CutAndJoin(text.value, i);
      } else {
        assert text.value[..i] == text.value;
      }
    }
  }
}
