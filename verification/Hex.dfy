/** Hexadecimal text of byte strings, and the order of such texts. */
module Hex {
  import opened Wrappers
  import opened ByteStrings

  function Digit(n: nat): char
    requires n < 16
  {
    if n < 10 then '0' + n as char else 'a' + (n - 10) as char
  }

  function DigitValue(c: char): (v: Option<nat>)
    ensures v.Some? ==> v.value < 16
  {
    if '0' <= c <= '9' then Some((c - '0') as nat)
    else if 'a' <= c <= 'f' then Some((c - 'a') as nat + 10)
    else if 'A' <= c <= 'F' then Some((c - 'A') as nat + 10)
    else None
  }

  lemma DigitRoundTrip(n: nat)
    requires n < 16
    ensures DigitValue(Digit(n)) == Some(n)
  {}

  /** `bytes.hex()` */
  function ToHex(b: Bytes): (t: string)
    ensures |t| == 2 * |b|
  {
    if b == [] then "" else [Digit(b[0] / 16), Digit(b[0] % 16)] + ToHex(b[1..])
  }

  /** `bytes.fromhex` on text without white space. */
  function FromHex(t: string): Option<Bytes> {
    if t == "" then Some([])
    else if |t| == 1 then None
    else match (DigitValue(t[0]), DigitValue(t[1]), FromHex(t[2..]))
    case (Some(high), Some(low), Some(rest)) => Some([16 * high + low] + rest)
    case _ => None
  }

  lemma {:induction false} HexRoundTrip(b: Bytes)
    ensures FromHex(ToHex(b)) == Some(b)
  {
    if b != [] {
      HexRoundTrip(b[1..]);
      DigitRoundTrip(b[0] / 16);
      DigitRoundTrip(b[0] % 16);
      var t := ToHex(b);
      assert t[0] == Digit(b[0] / 16) && t[1] == Digit(b[0] % 16) && t[2..] == ToHex(b[1..]);
      assert [b[0]] + b[1..] == b;
    }
  }

  /** The digits at place `i` of a text are those of the byte there. */
  predicate SpellsAt(t: string, b: Bytes, i: nat)
    requires i < |b| && 2 * |b| == |t|
  {
    DigitValue(t[2 * i]) == Some(b[i] / 16) && DigitValue(t[2 * i + 1]) == Some(b[i] % 16)
  }

  lemma {:induction false} FromHexExactly(t: string, b: Bytes)
    requires |t| == 2 * |b|
    ensures FromHex(t) == Some(b) <==> forall i :: 0 <= i < |b| ==> SpellsAt(t, b, i)
  {
    if b != [] {
      FromHexExactly(t[2..], b[1..]);
      assert [b[0]] + b[1..] == b;
      assert forall i :: 0 < i < |b| ==> (SpellsAt(t, b, i) <==> SpellsAt(t[2..], b[1..], i - 1));
      assert forall i :: 0 <= i < |b[1..]| ==> (SpellsAt(t, b, i + 1) <==> SpellsAt(t[2..], b[1..], i));
      assert SpellsAt(t, b, 0) <==> DigitValue(t[0]) == Some(b[0] / 16) && DigitValue(t[1]) == Some(b[0] % 16);
    }
  }

  /** The value of a digit, in either case. */
  lemma DigitValueExactly(c: char, n: nat)
    requires n < 16
    ensures DigitValue(c) == Some(n) <==> c == DIGITS[n] || (n >= 10 && c as int + 32 == DIGITS[n] as int)
  {}

  const DIGITS := "0123456789abcdef"

  /** Two lower-case digits for every byte, the higher half first. */
  lemma {:induction false} ToHexAt(b: Bytes, i: nat)
    requires i < |b|
    ensures ToHex(b)[2 * i] == DIGITS[b[i] / 16] && ToHex(b)[2 * i + 1] == DIGITS[b[i] % 16]
  {
    if i > 0 {
      ToHexAt(b[1..], i - 1);
    }
  }

  /** Lexicographic order of texts (Python's `<` on str). */
  predicate TextLess(a: string, b: string)
    decreases a
  {
    if b == "" then false
    else if a == "" then true
    else if a[0] != b[0] then a[0] < b[0]
    else TextLess(a[1..], b[1..])
  }

  /** `a` is a proper beginning of `b`, or has the smaller character where they first differ. */
  ghost predicate ComesFirst(a: string, b: string) {
    exists i: nat :: Parts(a, b, i)
  }

  ghost predicate Parts(a: string, b: string, i: nat) {
    i <= |a| && i < |b| && a[..i] == b[..i] && (i == |a| || a[i] < b[i])
  }

  lemma FirstsAgree(a: string, b: string, i: nat)
    requires Parts(a, b, i)
    ensures i == 0 || (a != "" && b != "" && a[0] == b[0])
  {
    if i > 0 {
      assert a[..i][0] == b[..i][0];
    }
  }

  lemma {:induction false} TextLessExactly(a: string, b: string)
    ensures TextLess(a, b) <==> ComesFirst(a, b)
    decreases a
  {
    if a == "" || b == "" || a[0] != b[0] {
      forall i: nat | Parts(a, b, i) ensures i == 0 {
        FirstsAgree(a, b, i);
      }
      assert TextLess(a, b) <==> Parts(a, b, 0);
    } else {
      TextLessExactly(a[1..], b[1..]);
      if TextLess(a[1..], b[1..]) {
        var i: nat :| Parts(a[1..], b[1..], i);
        assert a[..i + 1] == [a[0]] + a[1..][..i] && b[..i + 1] == [b[0]] + b[1..][..i];
        assert Parts(a, b, i + 1);
      }
      if ComesFirst(a, b) {
        var i: nat :| Parts(a, b, i);
        assert i > 0 && a[1..][..i - 1] == a[..i][1..] && b[1..][..i - 1] == b[..i][1..];
        assert Parts(a[1..], b[1..], i - 1);
      }
    }
  }

  /** The order is total and strict: of two different texts exactly one is less. */
  lemma {:induction false} TextOrderTotal(a: string, b: string)
    ensures a != b ==> (TextLess(a, b) <==> !TextLess(b, a))
    ensures !TextLess(a, a)
    decreases a
  {
    if a != "" {
      TextOrderTotal(a[1..], if b == "" then "" else b[1..]);
      if b != "" && a[0] == b[0] {
        assert a == [a[0]] + a[1..] && b == [b[0]] + b[1..];
      }
    }
  }
}
