/** Big-endian numbers of fixed width. */
module BigEndian {
  type Byte = x: int | 0 <= x < 256 witness 0

  /** Big-endian value. */
  function Value(s: seq<Byte>): nat {
    if s == [] then 0 else Value(s[..|s| - 1]) * 256 + s[|s| - 1]
  }

  function Power(n: nat): nat {
    if n == 0 then 1 else 256 * Power(n - 1)
  }

  lemma {:induction false} ValueBound(s: seq<Byte>)
    ensures Value(s) < Power(|s|)
    decreases |s|
  {
    if s != [] {
      ValueBound(s[..|s| - 1]);
    }
  }

  /** The leading byte weighs as much as all that follow have room for. */
  lemma {:induction false} ValueLeads(x: Byte, s: seq<Byte>)
    ensures Value([x] + s) == x * Power(|s|) + Value(s)
    decreases |s|
  {
    if s == [] {
      assert ([x] + s)[..0] == [];
    } else {
      var n := |s| - 1;
      assert ([x] + s)[..|s|] == [x] + s[..n];
      ValueLeads(x, s[..n]);
      assert x * Power(|s|) == (x * Power(n)) * 256;
    }
  }

  lemma ValueSplit(s: seq<Byte>, i: nat)
    requires i < |s|
    ensures Value(s[i..]) == s[i] * Power(|s| - i - 1) + Value(s[i + 1..])
  {
    assert s[i..] == [s[i]] + s[i + 1..];
    ValueLeads(s[i], s[i + 1..]);
  }

  /** The `width` bytes of a number, most significant first. */
  function ToBytes(n: nat, width: nat): (s: seq<Byte>)
    ensures |s| == width
  {
    if width == 0 then [] else ToBytes(n / 256, width - 1) + [n % 256]
  }

  lemma {:induction false} ValueOfBytes(n: nat, width: nat)
    requires n < Power(width)
    ensures Value(ToBytes(n, width)) == n
    decreases width
  {
    if width > 0 {
      ValueOfBytes(n / 256, width - 1);
      assert ToBytes(n, width)[..width - 1] == ToBytes(n / 256, width - 1);
    }
  }

  lemma {:induction false} BytesOfValue(s: seq<Byte>)
    ensures ToBytes(Value(s), |s|) == s
    decreases |s|
  {
    if s != [] {
      var n := |s| - 1;
      BytesOfValue(s[..n]);
      assert s == s[..n] + [s[n]];
    }
  }
}
