/** Standard base64 with padding, section 4 of RFC 4648; decoding is strict. */
module Base64 {
  import opened Wrappers

  type byte = n: nat | n < 256

  /** A six-bit value as its character. */
  function CharOf(n: nat): char
    requires n < 64
  {
    if n < 26 then 'A' + n as char
    else if n < 52 then 'a' + (n - 26) as char
    else if n < 62 then '0' + (n - 52) as char
    else if n == 62 then '+' else '/'
  }

  /** The value of a character, or 64 for one outside the alphabet. */
  function ValueOf(c: char): nat {
    if 'A' <= c <= 'Z' then (c - 'A') as nat
    else if 'a' <= c <= 'z' then (c - 'a') as nat + 26
    else if '0' <= c <= '9' then (c - '0') as nat + 52
    else if c == '+' then 62
    else if c == '/' then 63
    else 64
  }

  function EncodeBlock(n: nat): string
    requires n < 0x100_0000
  {
    [CharOf(n / 0x4_0000), CharOf(n / 0x1000 % 64), CharOf(n / 64 % 64), CharOf(n % 64)]
  }

  function Encode(b: seq<byte>): string {
    if b == [] then ""
    else if |b| == 1 then EncodeBlock(b[0] as nat * 0x1_0000)[..2] + "=="
    else if |b| == 2 then EncodeBlock(b[0] as nat * 0x1_0000 + b[1] as nat * 0x100)[..3] + "="
    else EncodeBlock(b[0] as nat * 0x1_0000 + b[1] as nat * 0x100 + b[2] as nat) + Encode(b[3..])
  }

  /** The 24-bit number of four characters; None for a character outside the alphabet. */
  function DecodeBlock(s: string): Option<nat>
    requires |s| == 4
  {
    if ValueOf(s[0]) == 64 || ValueOf(s[1]) == 64 || ValueOf(s[2]) == 64 || ValueOf(s[3]) == 64 then None
    else Some(ValueOf(s[0]) * 0x4_0000 + ValueOf(s[1]) * 0x1000 + ValueOf(s[2]) * 64 + ValueOf(s[3]))
  }

  function Decode(s: string): Option<seq<byte>> {
    if s == "" then Some([])
    else if |s| < 4 then None
    else if |s| == 4 && s[2..] == "==" then
      match DecodeBlock(s[..2] + "AA")
      case None => None
      case Some(n) => Some([n / 0x1_0000 % 256])
    else if |s| == 4 && s[3] == '=' then
      match DecodeBlock(s[..3] + "A")
      case None => None
      case Some(n) => Some([n / 0x1_0000 % 256, n / 0x100 % 256])
    else
      match DecodeBlock(s[..4])
      case None => None
      case Some(n) =>
        match Decode(s[4..])
        case None => None
        case Some(rest) => Some([n / 0x1_0000 % 256, n / 0x100 % 256, n % 256] + rest)
  }

  lemma CharRoundTrip(n: nat)
    requires n < 64
    ensures ValueOf(CharOf(n)) == n && CharOf(n) != '=' && (n == 0 ==> CharOf(n) == 'A')
  {
  }

  lemma SixBitGroups(n: nat)
    requires n < 0x100_0000
    ensures n == n / 0x4_0000 * 0x4_0000 + n / 0x1000 % 64 * 0x1000 + n / 64 % 64 * 64 + n % 64
    ensures n / 0x4_0000 < 64
  {
    var a := n / 64;
    var b := a / 64;
    assert b == n / 0x1000 && b / 64 == n / 0x4_0000;
  }

  lemma BlockRoundTrip(n: nat)
    requires n < 0x100_0000
    ensures DecodeBlock(EncodeBlock(n)) == Some(n)
    ensures forall i :: 0 <= i < 4 ==> EncodeBlock(n)[i] != '='
  {
    hide CharOf, ValueOf;
    SixBitGroups(n);
    CharRoundTrip(n / 0x4_0000);
    CharRoundTrip(n / 0x1000 % 64);
    CharRoundTrip(n / 64 % 64);
    CharRoundTrip(n % 64);
  }

  lemma SplitBytes(a: nat, b: nat, c: nat)
    requires a < 256 && b < 256 && c < 256
    ensures var n := a * 0x1_0000 + b * 0x100 + c;
            n < 0x100_0000 && n / 0x1_0000 % 256 == a && n / 0x100 % 256 == b && n % 256 == c
  {
  }

  lemma OneByteRoundTrip(b: seq<byte>)
    requires |b| == 1
    ensures Decode(Encode(b)) == Some(b)
  {
    hide EncodeBlock, DecodeBlock;
    var n := b[0] as nat * 0x1_0000;
    SplitBytes(b[0], 0, 0);
    BlockRoundTrip(n);
    PadOne(n);
    assert Encode(b)[..2] + "AA" == EncodeBlock(n);
    assert Encode(b)[2..] == "==";
    assert [n / 0x1_0000 % 256] == b;
  }

  lemma TwoByteRoundTrip(b: seq<byte>)
    requires |b| == 2
    ensures Decode(Encode(b)) == Some(b)
  {
    hide EncodeBlock, DecodeBlock;
    var n := b[0] as nat * 0x1_0000 + b[1] as nat * 0x100;
    SplitBytes(b[0], b[1], 0);
    BlockRoundTrip(n);
    PadTwo(n);
    var s := Encode(b);
    assert s[..3] + "A" == EncodeBlock(n);
    assert s[2..][0] == EncodeBlock(n)[2] && "=="[0] == '=' && s[2..] != "==";
    assert [n / 0x1_0000 % 256, n / 0x100 % 256] == b;
  }

  lemma DecodeConcat(block: string, n: nat, s: string, rest: seq<byte>)
    requires |block| == 4 && block[3] != '=' && DecodeBlock(block) == Some(n) && Decode(s) == Some(rest)
    ensures Decode(block + s) == Some([n / 0x1_0000 % 256, n / 0x100 % 256, n % 256] + rest)
  {
    hide DecodeBlock;
    var t := block + s;
    assert t[..4] == block && t[4..] == s && t[3] == block[3];
    assert |t| == 4 ==> t[2..][1] == t[3];
  }

  lemma BlockFirst(b: seq<byte>)
    requires |b| >= 3 && Decode(Encode(b[3..])) == Some(b[3..])
    ensures Decode(Encode(b)) == Some(b)
  {
    hide EncodeBlock, DecodeBlock, Decode;
    var n := b[0] as nat * 0x1_0000 + b[1] as nat * 0x100 + b[2] as nat;
    SplitBytes(b[0], b[1], b[2]);
    BlockRoundTrip(n);
    BlockLength(n);
    DecodeConcat(EncodeBlock(n), n, Encode(b[3..]), b[3..]);
    assert [n / 0x1_0000 % 256, n / 0x100 % 256, n % 256] + b[3..] == b;
  }

  /** Decoding inverts encoding, for every byte string. */
  lemma {:induction false} RoundTrip(b: seq<byte>)
    ensures Decode(Encode(b)) == Some(b)
  {
    hide Encode, Decode;
    if |b| == 0 {
      assert Encode(b) == "" && Decode("") == Some(b) by {
        EmptyRoundTrip();
      }
    } else if |b| == 1 {
      OneByteRoundTrip(b);
    } else if |b| == 2 {
      TwoByteRoundTrip(b);
    } else {
      RoundTrip(b[3..]);
      BlockFirst(b);
    }
  }

  lemma EmptyRoundTrip()
    ensures Encode([]) == "" && Decode("") == Some([])
  {
  }

  lemma BlockLength(n: nat)
    requires n < 0x100_0000
    ensures |EncodeBlock(n)| == 4
  {
  }

  lemma PadOne(n: nat)
    requires n < 0x100_0000 && n % 0x1_0000 == 0
    ensures |EncodeBlock(n)| == 4 && EncodeBlock(n)[..2] + "AA" == EncodeBlock(n)
  {
    hide CharOf;
    var k := n / 0x1_0000;
    assert n == k * 0x1_0000 && n / 64 == k * 0x400;
    assert n / 64 % 64 == 0 && n % 64 == 0;
    CharRoundTrip(0);
  }

  lemma PadTwo(n: nat)
    requires n < 0x100_0000 && n % 0x100 == 0
    ensures |EncodeBlock(n)| == 4 && EncodeBlock(n)[..3] + "A" == EncodeBlock(n)
  {
    hide CharOf;
    assert n % 64 == 0;
    CharRoundTrip(0);
  }

  /** The alphabet of table 1, by code point. */
  lemma StandardAlphabet(n: nat)
    requires n < 64
    ensures CharOf(n) as int == if n < 26 then 65 + n
                                else if n < 52 then 71 + n
                                else if n < 62 then n - 4
                                else if n == 62 then 43 else 47
  {
  }

  /** The test vectors "f", "fo" and "foo" of section 10. */
  lemma TestVectors()
    ensures Encode([102]) == "Zg==" && Encode([102, 111]) == "Zm8=" && Encode([102, 111, 111]) == "Zm9v"
  {
    assert EncodeBlock(102 * 0x1_0000) == ['Z', 'g', 'A', 'A'];
    assert EncodeBlock(102 * 0x1_0000 + 111 * 0x100) == ['Z', 'm', '8', 'A'];
    assert EncodeBlock(102 * 0x1_0000 + 111 * 0x100 + 111) == "Zm9v";
    hide EncodeBlock;
    assert [102 as byte, 111, 111][3..] == [];
  }

  /** Decoding is strict: whole groups of four, and nothing outside the alphabet but padding at the very end. */
  lemma {:induction false} DecodeIsStrict(s: string)
    requires Decode(s).Some?
    ensures |s| % 4 == 0
    ensures forall i :: 0 <= i < |s| ==> ValueOf(s[i]) < 64 || (s[i] == '=' && |s| - 2 <= i)
  {
    hide ValueOf, DecodeBlock, Decode;
    if |s| == 4 && s[3] == '=' {
      PaddedChars(s);
    } else if s != "" {
      FullGroup(s);
      var rest := s[4..];
      DecodeIsStrict(rest);
      assert |s| % 4 == (|rest| + 4) % 4 == |rest| % 4;
      assert forall i :: 4 <= i < |s| ==> s[i] == rest[i - 4];
    }
  }

  lemma BlockChars(s: string)
    requires |s| == 4 && DecodeBlock(s).Some?
    ensures forall i :: 0 <= i < 4 ==> ValueOf(s[i]) < 64
  {
  }

  // A group that is not padded holds four characters of the alphabet.
  lemma FullGroup(s: string)
    requires s != "" && Decode(s).Some? && !(|s| == 4 && s[3] == '=')
    ensures |s| >= 4 && Decode(s[4..]).Some? && forall i :: 0 <= i < 4 ==> ValueOf(s[i]) < 64
  {
    hide ValueOf, DecodeBlock;
    assert |s| == 4 ==> s[2..][1] == s[3];
    BlockChars(s[..4]);
    assert forall i :: 0 <= i < 4 ==> s[..4][i] == s[i];
  }

  lemma PaddedChars(s: string)
    requires |s| == 4 && s[3] == '=' && Decode(s).Some?
    ensures ValueOf(s[0]) < 64 && ValueOf(s[1]) < 64 && (ValueOf(s[2]) < 64 || s[2] == '=')
  {
    hide ValueOf, DecodeBlock;
    var two, three := s[..2] + "AA", s[..3] + "A";
    assert two[0] == s[0] && two[1] == s[1] && three[0] == s[0] && three[1] == s[1] && three[2] == s[2];
    if s[2..] == "==" {
      assert s[2..][0] == s[2];
      BlockChars(two);
    } else {
      BlockChars(three);
    }
  }
}
