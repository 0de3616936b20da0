/**
 The conversion of a wallet's public key, read from a getter as an unbounded
 integer, into the 32 big-endian bytes the wallet constructor expects.
 */
module WalletInfo {
  import opened Ton

  function Pow256(n: nat): (p: nat)
    ensures p >= 1
  {
    if n == 0 then 1 else 256 * Pow256(n - 1)
  }

  /** The number the bytes denote, most significant byte first. */
  function BigEndian(s: seq<byte>): nat {
    if s == [] then 0 else BigEndian(s[..|s| - 1]) * 256 + s[|s| - 1]
  }

  /** The number the bytes denote, least significant byte first. */
  function LittleEndian(s: seq<byte>): nat {
    if s == [] then 0 else s[0] + 256 * LittleEndian(s[1..])
  }

  /** The `count` lowest base-256 digits of `n`, least significant first. */
  function LittleEndianDigits(n: nat, count: nat): (digits: seq<byte>)
    ensures |digits| == count
  {
    if count == 0 then [] else [n % 256] + LittleEndianDigits(n / 256, count - 1)
  }

  function Min(a: nat, b: nat): nat {
    if a < b then a else b
  }

  function Reverse(s: seq<byte>): (r: seq<byte>)
    ensures |r| == |s|
  {
    if s == [] then [] else Reverse(s[1..]) + [s[0]]
  }

  lemma {:induction false} ReverseIndex(s: seq<byte>, k: nat)
    requires k < |s|
    ensures Reverse(s)[k] == s[|s| - 1 - k]
  {
    if k < |s| - 1 {
      ReverseIndex(s[1..], k);
    }
  }

  /** Reading the reversed bytes most significant first is reading the bytes least significant first. */
  lemma {:induction false} BigEndianOfReverse(s: seq<byte>)
    ensures BigEndian(Reverse(s)) == LittleEndian(s)
  {
    if s != [] {
      BigEndianOfReverse(s[1..]);
      var r := Reverse(s);
      assert r[..|r| - 1] == Reverse(s[1..]);
    }
  }

  /** Dividing by 256 * m splits into the lowest digit and the remainder of the rest by m. */
  lemma ModSplit(n: nat, m: nat)
    requires m >= 1
    ensures n % (256 * m) == n % 256 + 256 * ((n / 256) % m)
  {
    var q, r := n / 256, n % 256;
    var a, b := q / m, q % m;
    assert n == a * (256 * m) + (256 * b + r);
    assert 256 * b + r < 256 * m;
    DivModUnique(n, 256 * m, a, 256 * b + r);
  }

  lemma MulAtLeast(t: int, d: int)
    requires t >= 1 && d > 0
    ensures t * d >= d
  {
  }

  lemma DivModUnique(n: int, d: int, k: int, x: int)
    requires d > 0 && n == k * d + x && 0 <= x < d
    ensures n / d == k && n % d == x
  {
    var k' := n / d;
    assert n == k' * d + n % d;
    assert (k - k') * d == n % d - x;
    if k > k' {
      MulAtLeast(k - k', d);
    } else if k < k' {
      MulAtLeast(k' - k, d);
    }
  }

  /** Dividing by b and then by c is dividing by b * c. */
  lemma DivDiv(a: nat, b: nat, c: nat)
    requires b > 0 && c > 0
    ensures (a / b) / c == a / (b * c)
  {
    var q, r := a / b, a % b;
    var q2, r2 := q / c, q % c;
    assert a == q2 * (b * c) + (b * r2 + r);
    MulAtLeast(c - r2, b);
    DivModUnique(a, b * c, q2, b * r2 + r);
  }

  /** What is left of the number after `i` turns of the digit loop: `i` times divided by 256. */
  function Quotient(num: nat, i: nat): nat {
    if i == 0 then num else Quotient(num, i - 1) / 256
  }

  /** What is left after `i` turns is `num` divided by 256^i. */
  lemma {:induction false} QuotientIsDiv(num: nat, i: nat)
    ensures Quotient(num, i) == num / Pow256(i)
  {
    if i > 0 {
      QuotientIsDiv(num, i - 1);
      DivDiv(num, Pow256(i - 1), 256);
    }
  }

  /**
   The arithmetic form of the digit loop's invariant: after `i` turns, what is
   left of the number shifted by i bytes, plus the `i` digits stored, is `num`.
   It is the closed form of the invariants `StoreDigits` keeps: what is left is
   `Quotient(num, i)`, and the bytes stored are the first `i` of
   `LittleEndianDigits(num, 32)`, which `DigitsPrefix` shows are
   `LittleEndianDigits(num, i)`.
   */
  lemma DigitLoopValue(num: nat, i: nat)
    ensures num == Quotient(num, i) * Pow256(i) + LittleEndian(LittleEndianDigits(num, i))
  {
    QuotientIsDiv(num, i);
    LittleEndianDigitsValue(num, i);
    Euclid(num, Pow256(i), Quotient(num, i), LittleEndian(LittleEndianDigits(num, i)));
  }

  lemma Euclid(num: nat, d: nat, q: nat, r: nat)
    requires d > 0 && q == num / d && r == num % d
    ensures num == q * d + r
  {
  }

  /** The first `i` of the `count` lowest digits are the `i` lowest digits. */
  lemma {:induction false} DigitsPrefix(num: nat, i: nat, count: nat)
    requires i <= count
    ensures LittleEndianDigits(num, count)[..i] == LittleEndianDigits(num, i)
  {
    if i > 0 {
      DigitsPrefix(num / 256, i - 1, count - 1);
      assert LittleEndianDigits(num, count)[..i] == [num % 256] + LittleEndianDigits(num / 256, count - 1)[..i - 1];
    }
  }

  /** The `count` lowest digits of `n` denote `n` modulo 256^count. */
  lemma {:induction false} LittleEndianDigitsValue(n: nat, count: nat)
    ensures LittleEndian(LittleEndianDigits(n, count)) == n % Pow256(count)
  {
    if count > 0 {
      LittleEndianDigitsValue(n / 256, count - 1);
      assert LittleEndianDigits(n, count)[1..] == LittleEndianDigits(n / 256, count - 1);
      ModSplit(n, Pow256(count - 1));
    }
  }

  /** The digits of 0 are all zero. */
  lemma {:induction false} DigitsOfZero(count: nat)
    ensures forall k :: 0 <= k < count ==> LittleEndianDigits(0, count)[k] == 0
  {
    if count > 0 {
      DigitsOfZero(count - 1);
      assert forall k :: 0 < k < count ==>
        LittleEndianDigits(0, count)[k] == LittleEndianDigits(0, count - 1)[k - 1];
    }
  }

  /** Two byte strings of one length that denote the same number are equal. */
  lemma {:induction false} BigEndianInjective(s: seq<byte>, t: seq<byte>)
    requires |s| == |t| && BigEndian(s) == BigEndian(t)
    ensures s == t
  {
    if s != [] {
      var n := |s| - 1;
      DigitSplit(BigEndian(s[..n]), s[n], BigEndian(t[..n]), t[n]);
      BigEndianInjective(s[..n], t[..n]);
      assert s == s[..n] + [s[n]] && t == t[..n] + [t[n]];
    }
  }

  lemma DigitSplit(a: nat, x: byte, b: nat, y: byte)
    requires a * 256 + x == b * 256 + y
    ensures a == b && x == y
  {
    assert (a - b) * 256 == y - x;
  }

  /** `Array.prototype.reverse`, in place. */
  method ReverseInPlace(a: array<byte>)
    modifies a
    ensures a[..] == Reverse(old(a[..]))
  {
    var lo, hi := 0, a.Length - 1;
    while lo < hi
      invariant 0 <= lo <= hi + 1 <= a.Length && hi == a.Length - 1 - lo
      invariant forall k :: 0 <= k < lo ==> a[k] == old(a[a.Length - 1 - k]) && a[a.Length - 1 - k] == old(a[k])
      invariant forall k :: lo <= k <= hi ==> a[k] == old(a[k])
    {
      a[lo], a[hi] := a[hi], a[lo];
      lo, hi := lo + 1, hi - 1;
    }
    forall k | 0 <= k < a.Length
      ensures a[k] == Reverse(old(a[..]))[k]
    {
      ReverseIndex(old(a[..]), k);
    }
  }

  /**
   When the digits from `stored` on are the digits of what is left of the number,
   the next digit is its lowest byte and the rest are the digits of its quotient by 256.
   */
  lemma DigitStep(digits: seq<byte>, stored: nat, n: nat)
    requires stored < |digits| && digits[stored..] == LittleEndianDigits(n, |digits| - stored)
    ensures digits[stored] == n % 256
    ensures digits[stored + 1..] == LittleEndianDigits(n / 256, |digits| - (stored + 1))
  {
    assert digits[stored + 1..] == digits[stored..][1..];
  }

  /** Reversing zero bytes leaves zero bytes. */
  lemma ReverseZeros(s: seq<byte>)
    requires forall k :: 0 <= k < |s| ==> s[k] == 0
    ensures forall k :: 0 <= k < |s| ==> Reverse(s)[k] == 0
  {
    forall k | 0 <= k < |s|
      ensures Reverse(s)[k] == 0
    {
      ReverseIndex(s, k);
    }
  }

  /** The reversed `count` lowest digits, read most significant first, denote `num` modulo 256^count. */
  lemma ReversedDigitsValue(num: nat, count: nat)
    ensures BigEndian(Reverse(LittleEndianDigits(num, count))) == num % Pow256(count)
  {
    BigEndianOfReverse(LittleEndianDigits(num, count));
    LittleEndianDigitsValue(num, count);
  }

  /** Once the number is used up, the bytes stored so far followed by zeros are all its digits. */
  lemma DigitsComplete(bytes: seq<byte>, stored: nat, digits: seq<byte>)
    requires |bytes| == |digits| && stored <= |digits|
    requires forall k :: 0 <= k < stored ==> bytes[k] == digits[k]
    requires forall k :: stored <= k < |bytes| ==> bytes[k] == 0
    requires digits[stored..] == LittleEndianDigits(0, |digits| - stored)
    ensures bytes == digits
  {
    DigitsOfZero(|digits| - stored);
    forall k | stored <= k < |digits|
      ensures bytes[k] == digits[k]
    {
      assert digits[k] == digits[stored..][k - stored];
    }
  }

  /**
   The digit loop of `bigintToUint8Array`: while the number is positive its
   lowest byte is written at the next index and it is divided by 256; a write
   past the end of the 32-byte array is dropped.  The array holds the 32 lowest
   digits of `num`, least significant first, or zeros when `num` is not positive.
   */
  method StoreDigits(num: int) returns (bytes: array<byte>)
    ensures fresh(bytes) && bytes.Length == 32
    ensures num >= 0 ==> bytes[..] == LittleEndianDigits(num, 32)
    ensures num <= 0 ==> forall k :: 0 <= k < 32 ==> bytes[k] == 0
  {
    bytes := new byte[32](_ => 0);
    var n, i := num, 0;
    ghost var digits := LittleEndianDigits(if num >= 0 then num else 0, 32);
    while n > 0
      invariant i >= 0
      invariant num <= 0 ==> n == num && i == 0
      invariant num >= 0 ==> n == Quotient(num, i)
      invariant num >= 0 ==> n >= 0 && digits[Min(i, 32)..] == LittleEndianDigits(n, 32 - Min(i, 32))
      invariant forall k :: 0 <= k < Min(i, 32) ==> bytes[k] == digits[k]
      invariant forall k :: Min(i, 32) <= k < 32 ==> bytes[k] == 0
      decreases n
    {
      if i < 32 {
        DigitStep(digits, i, n);
        bytes[i] := n % 256;
      }
      n := n / 256;
      i := i + 1;
    }
    if num >= 0 {
      DigitsComplete(bytes[..], Min(i, 32), digits);
    }
  }

  /**
   `bigintToUint8Array`: the digits written lowest first, then the array reversed
   in place, so the result is the 32-byte big-endian form of `num` modulo 2^256,
   its lowest byte last, and all zeros when `num` is not positive.
   */
  method BigintToUint8Array(num: int) returns (bytes: array<byte>)
    ensures fresh(bytes) && bytes.Length == 32
    ensures num >= 0 ==> bytes[..] == Reverse(LittleEndianDigits(num, 32))
    ensures num >= 0 ==> BigEndian(bytes[..]) == num % Pow256(32)
    ensures num <= 0 ==> forall k :: 0 <= k < 32 ==> bytes[k] == 0
  {
    bytes := StoreDigits(num);
    ghost var digits := bytes[..];
    ReverseInPlace(bytes);
    if num >= 0 {
      ReversedDigitsValue(num, 32);
    }
    if num <= 0 {
      ReverseZeros(digits);
    }
  }

  /** For a number below 256^count its reversed digits give it back exactly, its lowest byte last. */
  lemma DigitsReadBack(num: nat, count: nat)
    requires 1 <= count && num < Pow256(count)
    ensures BigEndian(Reverse(LittleEndianDigits(num, count))) == num
    ensures Reverse(LittleEndianDigits(num, count))[count - 1] == num % 256
  {
    ReversedDigitsValue(num, count);
    ReverseIndex(LittleEndianDigits(num, count), count - 1);
  }

  /**
   The reversed digits are the only `count`-byte string that denotes `num`
   modulo 256^count, so the key bytes are determined by the number alone.
   */
  lemma DigitsUnique(num: nat, count: nat, s: seq<byte>)
    requires |s| == count && BigEndian(s) == num % Pow256(count)
    ensures s == Reverse(LittleEndianDigits(num, count))
  {
    ReversedDigitsValue(num, count);
    BigEndianInjective(s, Reverse(LittleEndianDigits(num, count)));
  }
}
