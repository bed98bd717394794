/** What passes for UTF-8 is exactly the encodings of sequences of code points. */
module Unicode {
  import opened BigEndian
  import opened Codec

  /** A code point that is not a surrogate. */
  type Scalar = cp: nat | cp < 0xD800 || 0xE000 <= cp < 0x11_0000 witness 0

  predicate IsScalar(cp: int) {
    0 <= cp < 0xD800 || 0xE000 <= cp < 0x11_0000
  }

  /** The bytes of a code point: 7, 11, 16 or 21 bits, section 3 of RFC 3629. */
  function CharBytes(cp: Scalar): Bytes {
    if cp < 0x80 then [cp]
    else if cp < 0x800 then [0xC0 + cp / 64, 0x80 + cp % 64]
    else if cp < 0x1_0000 then [0xE0 + cp / 4096, 0x80 + cp / 64 % 64, 0x80 + cp % 64]
    else [0xF0 + cp / 262144, 0x80 + cp / 4096 % 64, 0x80 + cp / 64 % 64, 0x80 + cp % 64]
  }

  function TextBytes(cps: seq<Scalar>): Bytes {
    if cps == [] then [] else CharBytes(cps[0]) + TextBytes(cps[1..])
  }

  lemma CharStarts(cp: Scalar, rest: Bytes)
    ensures CharLength(CharBytes(cp) + rest) == |CharBytes(cp)|
  {
    if 0x80 <= cp < 0x800 {
      assert Tails(CharBytes(cp) + rest, 2);
    } else if 0x800 <= cp < 0x1_0000 {
      ThreeStart(cp, rest);
    } else if 0x1_0000 <= cp {
      FourStart(cp, rest);
    }
  }

  lemma ThreeStart(cp: Scalar, rest: Bytes)
    requires 0x800 <= cp < 0x1_0000
    ensures CharLength(CharBytes(cp) + rest) == 3
  {
    var s := CharBytes(cp) + rest;
    assert Tails(s, 3) && 0xE0 <= s[0] < 0xF0;
    assert Shortest(s[0], s[1]);
  }

  lemma FourStart(cp: Scalar, rest: Bytes)
    requires 0x1_0000 <= cp
    ensures CharLength(CharBytes(cp) + rest) == 4
  {
    var s := CharBytes(cp) + rest;
    assert Tails(s, 4) && 0xF0 <= s[0] < 0xF5;
    assert Shortest(s[0], s[1]);
  }

  lemma {:induction false} TextIsUtf8(cps: seq<Scalar>)
    ensures Utf8(TextBytes(cps))
    decreases |cps|
  {
    if cps != [] {
      TextIsUtf8(cps[1..]);
      var first, rest := CharBytes(cps[0]), TextBytes(cps[1..]);
      CharStarts(cps[0], rest);
      assert (first + rest)[|first|..] == rest;
    }
  }

  /** The last six bits of a byte that goes on a character. */
  function Low(b: Byte): int {
    (b as int) - 0x80
  }

  /** The code point a string starts with. */
  function CharOf(s: Bytes): int
    requires CharLength(s) > 0
  {
    match CharLength(s)
    case 1 => s[0]
    case 2 => ((s[0] as int) - 0xC0) * 64 + Low(s[1])
    case 3 => ((s[0] as int) - 0xE0) * 4096 + Low(s[1]) * 64 + Low(s[2])
    case _ => ((s[0] as int) - 0xF0) * 262144 + Low(s[1]) * 4096 + Low(s[2]) * 64 + Low(s[3])
  }

  /** Six-bit digits are read back. */
  lemma TwoDigits(a: nat, b: nat)
    requires b < 64
    ensures (a * 64 + b) / 64 == a && (a * 64 + b) % 64 == b
  {
  }

  lemma ThreeDigits(a: nat, b: nat, c: nat)
    requires b < 64 && c < 64
    ensures var cp := a * 4096 + b * 64 + c; cp / 4096 == a && cp / 64 % 64 == b && cp % 64 == c
  {
  }

  lemma FourDigits(a: nat, b: nat, c: nat, d: nat)
    requires b < 64 && c < 64 && d < 64
    ensures var cp := a * 262144 + b * 4096 + c * 64 + d;
      cp / 262144 == a && cp / 4096 % 64 == b && cp / 64 % 64 == c && cp % 64 == d
  {
    var high := a * 4096 + b * 64 + c;
    TwoDigits(high, d);
    ThreeDigits(a, b, c);
    assert (high * 64 + d) / 4096 == high / 64 && (high * 64 + d) / 262144 == high / 4096;
  }

  lemma CharReads(s: Bytes)
    requires CharLength(s) > 0
    ensures IsScalar(CharOf(s)) && CharBytes(CharOf(s)) == s[..CharLength(s)]
  {
    match CharLength(s)
    case 1 =>
    case 2 => TwoReads(s);
    case 3 => ThreeReads(s);
    case _ => FourReads(s);
  }

  lemma TwoReads(s: Bytes)
    requires CharLength(s) == 2
    ensures 0x80 <= CharOf(s) < 0x800 && CharBytes(CharOf(s)) == s[..2]
  {
    assert Tails(s, 2) && 0x80 <= s[1] < 0xC0;
    TwoDigits((s[0] as int) - 0xC0, Low(s[1]));
  }

  lemma ThreeReads(s: Bytes)
    requires CharLength(s) == 3
    ensures 0x800 <= CharOf(s) < 0x1_0000 && IsScalar(CharOf(s)) && CharBytes(CharOf(s)) == s[..3]
  {
    assert Tails(s, 3) && 0x80 <= s[1] < 0xC0 && 0x80 <= s[2] < 0xC0;
    ThreeDigits((s[0] as int) - 0xE0, Low(s[1]), Low(s[2]));
  }

  lemma FourReads(s: Bytes)
    requires CharLength(s) == 4
    ensures 0x1_0000 <= CharOf(s) < 0x11_0000 && CharBytes(CharOf(s)) == s[..4]
  {
    assert Tails(s, 4) && 0x80 <= s[1] < 0xC0 && 0x80 <= s[2] < 0xC0 && 0x80 <= s[3] < 0xC0;
    FourDigits((s[0] as int) - 0xF0, Low(s[1]), Low(s[2]), Low(s[3]));
  }

  lemma {:induction false} Utf8IsText(s: Bytes) returns (cps: seq<Scalar>)
    requires Utf8(s)
    ensures s == TextBytes(cps)
    decreases |s|
  {
    if s == [] {
      return [];
    }
    CharReads(s);
    var n := CharLength(s);
    var rest := Utf8IsText(s[n..]);
    cps := [CharOf(s)] + rest;
    assert cps[1..] == rest && s == s[..n] + s[n..];
  }

  /** A byte string is well-formed exactly if it is some text. */
  lemma Utf8Iff(s: Bytes)
    ensures Utf8(s) <==> exists cps :: s == TextBytes(cps)
  {
    if Utf8(s) {
      var cps := Utf8IsText(s);
    }
    if exists cps :: s == TextBytes(cps) {
      var cps :| s == TextBytes(cps);
      TextIsUtf8(cps);
    }
  }
}
