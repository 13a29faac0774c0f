/**
 Bytes, big-endian words and two's complement, as the MessagePack load/store
 macros and the packers' casts use them.
 */
module Bytes {
  type byte = b: int | 0 <= b < 256

  // The number of values a word of `width` bytes can take.
  function Range(width: nat): (r: nat)
    ensures r > 0
  {
    if width == 0 then 1 else 256 * Range(width - 1)
  }

  // The low `width` bytes of `n`, most significant first.
  function Store(n: nat, width: nat): (s: seq<byte>)
    ensures |s| == width
  {
    if width == 0 then [] else Store(n / 256, width - 1) + [n % 256]
  }

  function Load(s: seq<byte>): nat {
    if s == [] then 0 else 256 * Load(s[..|s| - 1]) + s[|s| - 1]
  }

  // A C cast to a signed word of `width` bytes, read back from its unsigned pattern.
  function ToSigned(n: nat, width: nat): int {
    if 2 * n < Range(width) then n else n - Range(width)
  }

  // The unsigned pattern of a value cast to a word of `width` bytes.
  function Pattern(i: int, width: nat): nat {
    i % Range(width)
  }

  lemma {:induction false} LoadStore(n: nat, width: nat)
    ensures Load(Store(n, width)) == n % Range(width)
  {
    if width > 0 {
      LoadStore(n / 256, width - 1);
      var r := Range(width - 1);
      assert Store(n, width)[..width - 1] == Store(n / 256, width - 1);
      ModSplit(n, r);
    }
  }

  // The first byte counts most: what is in front weighs as much as everything behind it can count.
  lemma {:induction false} LoadConcat(s: seq<byte>, t: seq<byte>)
    ensures Load(s + t) == Range(|t|) * Load(s) + Load(t)
    decreases |t|
  {
    if t == [] {
      assert s + t == s;
    } else {
      var n := |t| - 1;
      assert (s + t)[..|s| + n] == s + t[..n];
      LoadConcat(s, t[..n]);
      assert 256 * (Range(n) * Load(s)) == (256 * Range(n)) * Load(s);
    }
  }

  lemma ModSplit(n: nat, r: nat)
    requires r > 0
    ensures n % (256 * r) == 256 * ((n / 256) % r) + n % 256
  {
    var h := n / 256;
    var q := h / r;
    assert h == q * r + h % r;
    assert n == 256 * h + n % 256;
    assert n == (256 * r) * q + (256 * (h % r) + n % 256);
    ModUnique(n, 256 * r, q, 256 * (h % r) + n % 256);
  }

  lemma ModUnique(n: int, m: int, q: int, rem: int)
    requires m > 0 && n == m * q + rem && 0 <= rem < m
    ensures n % m == rem && n / m == q
  {
    var d := n / m - q;
    assert m * d == rem - n % m;
    assert d >= 1 ==> m * d >= m;
    assert d <= -1 ==> m * d <= -m;
  }

  lemma {:induction false} StoreLoad(s: seq<byte>)
    ensures Load(s) < Range(|s|)
    ensures Store(Load(s), |s|) == s
  {
    if s != [] {
      StoreLoad(s[..|s| - 1]);
      assert Load(s) / 256 == Load(s[..|s| - 1]);
      assert Load(s) % 256 == s[|s| - 1];
      assert s == s[..|s| - 1] + [s[|s| - 1]];
    }
  }

  // The word sizes the formats use.
  lemma Ranges()
    ensures Range(1) == 0x100 && Range(2) == 0x1_0000 && Range(4) == 0x1_0000_0000
    ensures Range(8) == 0x1_0000_0000_0000_0000
  {
    assert Range(3) == 0x100_0000;
    assert Range(4) == 0x1_0000_0000;
    assert Range(5) == 0x100_0000_0000;
    assert Range(6) == 0x1_0000_0000_0000;
  }

  lemma SignedRoundTrip(i: int, width: nat)
    requires 0 <= 2 * i + Range(width) < 2 * Range(width)
    ensures Pattern(i, width) < Range(width)
    ensures ToSigned(Pattern(i, width), width) == i
  {
    var r := Range(width);
    ModUnique(i, r, if i < 0 then -1 else 0, if i < 0 then i + r else i);
  }

  lemma SignedBounds(n: nat, width: nat)
    requires n < Range(width)
    ensures 0 <= 2 * ToSigned(n, width) + Range(width) < 2 * Range(width)
    ensures Pattern(ToSigned(n, width), width) == n
  {
    var r := Range(width);
    ModUnique(ToSigned(n, width), r, if 2 * n < r then 0 else -1, n);
  }
}
