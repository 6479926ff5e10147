/** The Base64 encoding of section 4 of RFC 4648 (standard alphabet, `=` padding,
    no line breaks), which secret data values are stored in. */
module Base64 {
  import opened Wrappers

  type byte = x: int | 0 <= x < 256

  type sextet = x: int | 0 <= x < 64

  /** The character of a 6-bit value in the Base64 alphabet (Table 1 of RFC 4648). */
  function Alphabet(i: sextet): (c: char)
    ensures c != '='
  {
    if i < 26 then ('A' as int + i) as char
    else if i < 52 then ('a' as int + (i - 26)) as char
    else if i < 62 then ('0' as int + (i - 52)) as char
    else if i == 62 then '+'
    else '/'
  }

  /** The 6-bit value of an alphabet character, None for any other character. */
  function Index(c: char): (r: Option<sextet>)
    ensures r.Some? ==> Alphabet(r.value) == c
  {
    if 'A' <= c <= 'Z' then Some(c as int - 'A' as int)
    else if 'a' <= c <= 'z' then Some(c as int - 'a' as int + 26)
    else if '0' <= c <= '9' then Some(c as int - '0' as int + 52)
    else if c == '+' then Some(62)
    else if c == '/' then Some(63)
    else None
  }

  lemma IndexOfAlphabet(i: sextet)
    ensures Index(Alphabet(i)) == Some(i)
  {
  }

  predicate IsBase64Char(c: char) {
    Index(c).Some?
  }

  /** Three bytes as four characters. */
  function EncodeGroup(x: byte, y: byte, z: byte): string {
    [Alphabet(x / 4), Alphabet((x % 4) * 16 + y / 16), Alphabet((y % 16) * 4 + z / 64), Alphabet(z % 64)]
  }

  /** `Base64.encodeBase64String`: full groups of three bytes become four characters;
      a final group of one or two bytes is padded with `=` to four characters. */
  function Encode(bs: seq<byte>): (s: string)
    ensures |bs| > 0 ==> |s| >= 4
    decreases |bs|
  {
    if |bs| == 0 then ""
    else if |bs| == 1 then [Alphabet(bs[0] / 4), Alphabet((bs[0] % 4) * 16), '=', '=']
    else if |bs| == 2 then
      [Alphabet(bs[0] / 4), Alphabet((bs[0] % 4) * 16 + bs[1] / 16), Alphabet((bs[1] % 16) * 4), '=']
    else EncodeGroup(bs[0], bs[1], bs[2]) + Encode(bs[3..])
  }

  /** Four alphabet values as three bytes. */
  function DecodeGroup(a: sextet, b: sextet, c: sextet, d: sextet): seq<byte> {
    [a * 4 + b / 16, (b % 16) * 16 + c / 4, (c % 4) * 64 + d]
  }

  /** The last four characters: two, three or four alphabet characters, padded. */
  function DecodeLast(s: string): Option<seq<byte>>
    requires |s| == 4
  {
    var a :- Index(s[0]);
    var b :- Index(s[1]);
    if s[2] == '=' && s[3] == '=' then Some([a * 4 + b / 16])
    else
      var c :- Index(s[2]);
      if s[3] == '=' then Some([a * 4 + b / 16, (b % 16) * 16 + c / 4])
      else
        var d :- Index(s[3]);
        Some(DecodeGroup(a, b, c, d))
  }

  /** The inverse of `Encode`: None for a length that is not a multiple of four, a
      character outside the alphabet, or padding anywhere but at the end. */
  function Decode(s: string): Option<seq<byte>>
    decreases |s|
  {
    if |s| == 0 then Some([])
    else if |s| < 4 then None
    else if |s| == 4 then DecodeLast(s)
    else
      var a :- Index(s[0]);
      var b :- Index(s[1]);
      var c :- Index(s[2]);
      var d :- Index(s[3]);
      var rest :- Decode(s[4..]);
      Some(DecodeGroup(a, b, c, d) + rest)
  }

  lemma DecodeEncodeGroup(x: byte, y: byte, z: byte)
    ensures DecodeGroup(x / 4, (x % 4) * 16 + y / 16, (y % 16) * 4 + z / 64, z % 64) == [x, y, z]
  {
    var b := (x % 4) * 16 + y / 16;
    var c := (y % 16) * 4 + z / 64;
    assert b / 16 == x % 4 && b % 16 == y / 16;
    assert c / 4 == y % 16 && c % 4 == z / 64;
  }

  lemma DecodeEncodeOne(x: byte)
    ensures Decode(Encode([x])) == Some([x])
  {
    IndexOfAlphabet(x / 4);
    IndexOfAlphabet((x % 4) * 16);
    assert ((x % 4) * 16) / 16 == x % 4;
  }

  lemma DecodeEncodeTwo(x: byte, y: byte)
    ensures Decode(Encode([x, y])) == Some([x, y])
  {
    var b := (x % 4) * 16 + y / 16;
    var c := (y % 16) * 4;
    IndexOfAlphabet(x / 4);
    IndexOfAlphabet(b);
    IndexOfAlphabet(c);
    assert b / 16 == x % 4 && b % 16 == y / 16;
    assert c / 4 == y % 16;
    var s := Encode([x, y]);
    assert s == [Alphabet(x / 4), Alphabet(b), Alphabet(c), '='];
    assert DecodeLast(s) == Some([(x / 4) * 4 + b / 16, (b % 16) * 16 + c / 4]);
  }

  /** A full group decodes to its three bytes. */
  lemma GroupRoundTrip(x: byte, y: byte, z: byte)
    ensures var g := EncodeGroup(x, y, z);
      && Index(g[0]).Some? && Index(g[1]).Some? && Index(g[2]).Some? && Index(g[3]).Some?
      && DecodeGroup(Index(g[0]).value, Index(g[1]).value, Index(g[2]).value, Index(g[3]).value) == [x, y, z]
  {
    IndexOfAlphabet(x / 4);
    IndexOfAlphabet((x % 4) * 16 + y / 16);
    IndexOfAlphabet((y % 16) * 4 + z / 64);
    IndexOfAlphabet(z % 64);
    DecodeEncodeGroup(x, y, z);
  }

  /** Four alphabet characters in front of a decodable text decode as a group. */
  lemma DecodeFront(g: string, t: string)
    requires |g| == 4 && Index(g[0]).Some? && Index(g[1]).Some? && Index(g[2]).Some? && Index(g[3]).Some?
    requires Decode(t).Some?
    ensures Decode(g + t) == Some(DecodeGroup(Index(g[0]).value, Index(g[1]).value, Index(g[2]).value, Index(g[3]).value) + Decode(t).value)
  {
    var s := g + t;
    assert s[0] == g[0] && s[1] == g[1] && s[2] == g[2] && s[3] == g[3];
    assert s[4..] == t;
    if |t| == 0 {
      assert s == g;
      assert g[2] != '=' && g[3] != '=';
      var dg := DecodeGroup(Index(g[0]).value, Index(g[1]).value, Index(g[2]).value, Index(g[3]).value);
      assert DecodeLast(g) == Some(dg);
      assert Decode(t).value == [];
      assert dg + [] == dg;
    } else {
      assert |t| >= 4;
    }
  }

  lemma {:induction false} DecodeEncodeStep(bs: seq<byte>)
    requires |bs| >= 3 && Decode(Encode(bs[3..])) == Some(bs[3..])
    ensures Decode(Encode(bs)) == Some(bs)
  {
    var g, t := EncodeGroup(bs[0], bs[1], bs[2]), Encode(bs[3..]);
    EncodeFront(bs);
    GroupRoundTrip(bs[0], bs[1], bs[2]);
    DecodeFront(g, t);
    assert Decode(g + t) == Some([bs[0], bs[1], bs[2]] + bs[3..]);
    assert [bs[0], bs[1], bs[2]] + bs[3..] == bs;
  }

  /** Three or more bytes encode as a full group in front of the rest. */
  lemma EncodeFront(bs: seq<byte>)
    requires |bs| >= 3
    ensures Encode(bs) == EncodeGroup(bs[0], bs[1], bs[2]) + Encode(bs[3..])
  {
  }

  /** Decoding an encoding gives the bytes back. */
  lemma {:induction false} DecodeEncode(bs: seq<byte>)
    ensures Decode(Encode(bs)) == Some(bs)
    decreases |bs|
  {
    if |bs| == 1 {
      assert bs == [bs[0]];
      DecodeEncodeOne(bs[0]);
    } else if |bs| == 2 {
      assert bs == [bs[0], bs[1]];
      DecodeEncodeTwo(bs[0], bs[1]);
    } else if |bs| >= 3 {
      DecodeEncode(bs[3..]);
      DecodeEncodeStep(bs);
    }
  }

  lemma EncodeGroupAlphabet(x: byte, y: byte, z: byte)
    ensures forall i :: 0 <= i < 4 ==> IsBase64Char(EncodeGroup(x, y, z)[i])
  {
    IndexOfAlphabet(x / 4);
    IndexOfAlphabet((x % 4) * 16 + y / 16);
    IndexOfAlphabet((y % 16) * 4 + z / 64);
    IndexOfAlphabet(z % 64);
  }

  /** Every started group of three bytes takes four characters. */
  lemma {:induction false} EncodeLength(bs: seq<byte>)
    ensures |Encode(bs)| == 4 * ((|bs| + 2) / 3)
    decreases |bs|
  {
    if |bs| >= 3 {
      EncodeLength(bs[3..]);
      assert (|bs| + 2) / 3 == (|bs[3..]| + 2) / 3 + 1;
    }
  }

  /** Alphabet characters, with `=` allowed only in the last two places. */
  ghost predicate Base64Text(s: string) {
    forall i :: 0 <= i < |s| ==> IsBase64Char(s[i]) || (s[i] == '=' && i >= |s| - 2)
  }

  /** Every character of an encoding is an alphabet character, except for at most two
      trailing `=`. */
  lemma {:induction false} EncodeAlphabet(bs: seq<byte>)
    ensures Base64Text(Encode(bs))
    decreases |bs|
  {
    var s := Encode(bs);
    if |bs| >= 3 {
      EncodeAlphabet(bs[3..]);
      var t := Encode(bs[3..]);
      var g := EncodeGroup(bs[0], bs[1], bs[2]);
      EncodeGroupAlphabet(bs[0], bs[1], bs[2]);
      assert s == g + t;
      forall i | 0 <= i < |s| ensures IsBase64Char(s[i]) || (s[i] == '=' && i >= |s| - 2) {
        if i < 4 {
          assert s[i] == g[i];
          assert IsBase64Char(g[i]);
        } else {
          assert s[i] == t[i - 4];
        }
      }
    } else if |bs| == 1 {
      IndexOfAlphabet(bs[0] / 4);
      IndexOfAlphabet((bs[0] % 4) * 16);
    } else if |bs| == 2 {
      IndexOfAlphabet(bs[0] / 4);
      IndexOfAlphabet((bs[0] % 4) * 16 + bs[1] / 16);
      IndexOfAlphabet((bs[1] % 16) * 4);
    }
  }
}
