/** Byte strings and the fixed-width integer encodings that the wire formats use
    (Python's `struct` with `>` and `int.to_bytes(_, "little")`). */
module ByteStrings {
  type Byte = b: int | 0 <= b < 256
  type Bytes = seq<Byte>

  function Pow256(k: nat): (p: nat)
    ensures p >= 1
  {
    if k == 0 then 1 else 256 * Pow256(k - 1)
  }

  lemma Pow256Four()
    ensures Pow256(4) == 0x1_0000_0000
  {
    assert Pow256(2) == 65536;
  }

  lemma Pow256Eight()
    ensures Pow256(8) == 0x1_0000_0000_0000_0000
  {
    Pow256Four();
    assert Pow256(6) == 0x1_0000_0000_0000;
  }

  function Zeros(n: nat): (r: Bytes)
    ensures |r| == n
  {
    seq(n, i => 0)
  }

  /** Most significant byte first; keeps the low `8 * width` bits of `n`. */
  function BigEndian(n: nat, width: nat): (s: Bytes)
    ensures |s| == width
  {
    if width == 0 then [] else BigEndian(n / 256, width - 1) + [n % 256]
  }

  function FromBigEndian(s: Bytes): nat
  {
    if s == [] then 0 else 256 * FromBigEndian(s[..|s| - 1]) + s[|s| - 1]
  }

  /** `n` without its `k` least significant bytes */
  function Shifted(n: nat, k: nat): nat {
    if k == 0 then n else Shifted(n / 256, k - 1)
  }

  /** Most significant first: the byte at `i` is the lowest once those behind it are shifted out. */
  lemma {:induction false} BigEndianAt(n: nat, width: nat, i: nat)
    requires i < width
    ensures BigEndian(n, width)[i] == Shifted(n, width - 1 - i) % 256
  {
    if i < width - 1 {
      BigEndianAt(n / 256, width - 1, i);
    }
  }

  /** Least significant byte first; keeps the low `8 * width` bits of `n`. */
  function LittleEndian(n: nat, width: nat): (s: Bytes)
    ensures |s| == width
  {
    if width == 0 then [] else [n % 256] + LittleEndian(n / 256, width - 1)
  }

  function FromLittleEndian(s: Bytes): nat
  {
    if s == [] then 0 else s[0] + 256 * FromLittleEndian(s[1..])
  }

  lemma {:induction false} BigEndianRoundTrip(n: nat, width: nat)
    requires n < Pow256(width)
    ensures FromBigEndian(BigEndian(n, width)) == n
  {
    if width > 0 {
      BigEndianRoundTrip(n / 256, width - 1);
      var s := BigEndian(n, width);
      assert s[..|s| - 1] == BigEndian(n / 256, width - 1);
    }
  }

  lemma {:induction false} FromBigEndianRoundTrip(s: Bytes)
    ensures FromBigEndian(s) < Pow256(|s|)
    ensures BigEndian(FromBigEndian(s), |s|) == s
  {
    if s != [] {
      var front := s[..|s| - 1];
      FromBigEndianRoundTrip(front);
      var n := FromBigEndian(s);
      assert n / 256 == FromBigEndian(front) && n % 256 == s[|s| - 1];
      assert s == front + [s[|s| - 1]];
    }
  }

  /** Reading back a little-endian string of `width` bytes yields `n` exactly when `n` fits. */
  lemma {:induction false} LittleEndianRoundTrip(n: nat, width: nat)
    ensures FromLittleEndian(LittleEndian(n, width)) < Pow256(width)
    ensures FromLittleEndian(LittleEndian(n, width)) == n <==> n < Pow256(width)
  {
    if width > 0 {
      LittleEndianRoundTrip(n / 256, width - 1);
      var s := LittleEndian(n, width);
      assert s[1..] == LittleEndian(n / 256, width - 1);
    }
  }

  /** Least significant first: the byte at `i` is the lowest once those before it are shifted out. */
  lemma {:induction false} LittleEndianAt(n: nat, width: nat, i: nat)
    requires i < width
    ensures LittleEndian(n, width)[i] == Shifted(n, i) % 256
  {
    if i > 0 {
      LittleEndianAt(n / 256, width - 1, i - 1);
    }
  }

  /** Distinct numbers that fit have distinct encodings. */
  lemma LittleEndianInjective(m: nat, n: nat, width: nat)
    requires m < Pow256(width) && n < Pow256(width)
    requires LittleEndian(m, width) == LittleEndian(n, width)
    ensures m == n
  {
    LittleEndianRoundTrip(m, width);
    LittleEndianRoundTrip(n, width);
  }

  /** Cutting an encoding short keeps the low bytes. */
  lemma {:induction false} LittleEndianPrefix(n: nat, width: nat, k: nat)
    requires k <= width
    ensures LittleEndian(n, width)[..k] == LittleEndian(n, k)
  {
    if k > 0 {
      LittleEndianPrefix(n / 256, width - 1, k - 1);
    }
  }

  lemma Associative<T>(a: seq<T>, b: seq<T>, c: seq<T>)
    ensures a + b + c == a + (b + c)
  {}

  lemma SliceOfPrefix<T>(u: seq<T>, n: nat, a: nat, b: nat)
    requires a <= b <= n <= |u|
    ensures u[..n][a..b] == u[a..b]
  {}

  /** Where the pieces of a concatenation lie. */
  lemma PiecesOfFive(a: Bytes, b: Bytes, c: Bytes, d: Bytes, e: Bytes)
    ensures var u := a + b + c + d + e;
            var i, j, k := |a| + |b|, |a| + |b| + |c|, |a| + |b| + |c| + |d|;
            u[..|a|] == a && u[|a|..i] == b && u[i..j] == c && u[j..k] == d && u[k..] == e
  {}

  /** A buffer is the concatenation of the pieces it is cut into. */
  lemma CutInFive(u: Bytes, a: nat, b: nat, c: nat, d: nat)
    requires a <= b <= c <= d <= |u|
    ensures u == u[..a] + u[a..b] + u[b..c] + u[c..d] + u[d..]
  {
    assert u[..b] == u[..a] + u[a..b];
    assert u[..c] == u[..b] + u[b..c];
    assert u[..d] == u[..c] + u[c..d];
    assert u == u[..d] + u[d..];
  }

  function ByteOf(c: char): Byte {
    (c as int) % 256
  }

  /** The bytes of an ASCII text. */
  function Ascii(text: string): Bytes {
    seq(|text|, i requires 0 <= i < |text| => ByteOf(text[i]))
  }

  lemma {:induction false} ShiftedSmall(n: nat, k: nat)
    requires n < 256
    ensures Shifted(n, k) == if k == 0 then n else 0
  {
    if k > 0 {
      ShiftedSmall(n / 256, k - 1);
    }
  }

  /** Concatenation of a list of byte strings (Python's `b"".join`). */
  function Concat(parts: seq<Bytes>): Bytes
  {
    if parts == [] then [] else parts[0] + Concat(parts[1..])
  }

  lemma {:induction false} ConcatAppend(parts: seq<Bytes>, last: Bytes)
    ensures Concat(parts + [last]) == Concat(parts) + last
  {
    if parts == [] {
      assert [last][1..] == [];
    } else {
      ConcatAppend(parts[1..], last);
      assert (parts + [last])[1..] == parts[1..] + [last];
    }
  }
}
