/** The compile-time base58 decoder that turns program addresses into 32-byte keys. */
module Base58 {
  import opened Common
  import opened Arithmetic

  const ALPHABET: string := "123456789" + "ABCDEFGHJKLMNPQRSTUVWXYZ" + "abcdefghijkmnopqrstuvwxyz"

  lemma AlphabetSize()
    ensures |ALPHABET| == 58
  {
  }

  predicate Rises(s: string) {
    forall k :: 0 <= k < |s| - 1 ==> s[k] < s[k + 1]
  }

  lemma JoinedRises(s: string, t: string)
    requires Rises(s) && Rises(t) && s != [] && t != [] && s[|s| - 1] < t[0]
    ensures Rises(s + t)
  {
  }

  /** The alphabet is in the order of its character codes, so no character occurs twice. */
  lemma AlphabetRises()
    ensures Rises(ALPHABET)
  {
    assert Rises("123456789") && Rises("ABCDEFGHJKLMNPQRSTUVWXYZ") && Rises("abcdefghijkmnopqrstuvwxyz");
    JoinedRises("123456789", "ABCDEFGHJKLMNPQRSTUVWXYZ");
    JoinedRises("123456789" + "ABCDEFGHJKLMNPQRSTUVWXYZ", "abcdefghijkmnopqrstuvwxyz");
  }

  lemma DigitsAre(c: char)
    ensures c in "123456789" <==> '1' <= c <= '9'
  {
    if '1' <= c <= '9' {
      assert "123456789"[c as int - '1' as int] == c;
    }
  }

  lemma CapitalsAre(c: char)
    ensures c in "ABCDEFGHJKLMNPQRSTUVWXYZ" <==> 'A' <= c <= 'Z' && c != 'O' && c != 'I'
  {
  }

  lemma LettersAre(c: char)
    ensures c in "abcdefghijkmnopqrstuvwxyz" <==> 'a' <= c <= 'z' && c != 'l'
  {
  }

  /** It consists of the digits and letters, without the four that look like others. */
  lemma AlphabetContains(c: char)
    ensures c in ALPHABET <==>
              && ('0' <= c <= '9' || 'A' <= c <= 'Z' || 'a' <= c <= 'z')
              && c != '0' && c != 'O' && c != 'I' && c != 'l'
  {
    DigitsAre(c);
    CapitalsAre(c);
    LettersAre(c);
  }

  /** The digit a character stands for, searching from position `i`. */
  function IndexFrom(c: char, i: nat): Option<nat>
    decreases |ALPHABET| - i
  {
    if i >= |ALPHABET| then None
    else if ALPHABET[i] == c then Some(i)
    else IndexFrom(c, i + 1)
  }

  function Index(c: char): Option<nat> {
    IndexFrom(c, 0)
  }

  /** A found digit is below 58 and names its character. */
  lemma {:induction false} IndexNames(c: char, i: nat)
    ensures IndexFrom(c, i).Some? ==> IndexFrom(c, i).value < 58 && ALPHABET[IndexFrom(c, i).value] == c
    decreases |ALPHABET| - i
  {
    if i < |ALPHABET| && ALPHABET[i] != c {
      IndexNames(c, i + 1);
    }
  }

  /** `char_index`; None where it panics. */
  method CharIndex(c: char) returns (r: Option<nat>)
    ensures r == Index(c)
  {
    var i := 0;
    AlphabetSize();
    while i < 58
      invariant 0 <= i <= 58
      invariant IndexFrom(c, i) == Index(c)
    {
      if ALPHABET[i] == c {
        return Some(i);
      }
      i := i + 1;
    }
    return None;
  }

  predicate Valid(s: string) {
    forall k :: 0 <= k < |s| ==> Index(s[k]).Some?
  }

  /** The number a base58 string writes, most significant digit first. */
  function Value(s: string): nat
    requires Valid(s)
  {
    if s == [] then 0 else 58 * Value(s[..|s| - 1]) + Index(s[|s| - 1]).value
  }

  function Pow(b: nat, k: nat): nat {
    if k == 0 then 1 else b * Pow(b, k - 1)
  }

  /** The number that big-endian bytes write. */
  function BE(b: seq<byte>): nat {
    if b == [] then 0 else b[0] * Pow(256, |b| - 1) + BE(b[1..])
  }

  lemma {:induction false} PowPositive(b: nat, k: nat)
    requires 0 < b
    ensures 0 < Pow(b, k)
  {
    if k > 0 {
      PowPositive(b, k - 1);
    }
  }

  lemma {:induction false} BEBound(b: seq<byte>)
    ensures BE(b) < Pow(256, |b|)
  {
    if b != [] {
      BEBound(b[1..]);
      var p := Pow(256, |b| - 1);
      MulMono(b[0], 255, p);
    }
  }

  lemma {:induction false} LeadingByte(b: seq<byte>)
    requires b != []
    ensures var p := Pow(256, |b| - 1); 0 < p && BE(b) / p == b[0] && BE(b) % p == BE(b[1..])
  {
    var p := Pow(256, |b| - 1);
    BEBound(b[1..]);
    assert b[0] * p == p * b[0];
    DivUnique(BE(b), p, b[0], BE(b[1..]));
  }

  /** Keys of equal length that write the same number are equal. */
  lemma {:induction false} BEInjective(a: seq<byte>, b: seq<byte>)
    requires |a| == |b| && BE(a) == BE(b)
    ensures a == b
  {
    if a != [] {
      LeadingByte(a);
      LeadingByte(b);
      BEInjective(a[1..], b[1..]);
    }
  }

  lemma Associates(x: int, y: int, z: int)
    ensures x * (y * z) == x * y * z
  {
  }

  lemma {:induction false} PowSplits(b: nat, m: nat, n: nat)
    ensures Pow(b, m + n) == Pow(b, m) * Pow(b, n)
  {
    if m > 0 {
      PowSplits(b, m - 1, n);
      Associates(b, Pow(b, m - 1), Pow(b, n));
    }
  }

  /** Byte `i` of a key counts the multiples of 256^(n - 1 - i): the first byte is the most significant. */
  lemma {:induction false} KeyByte(b: seq<byte>, i: nat)
    requires i < |b|
    ensures IsByte(b[i], BE(b), |b| - 1 - i)
  {
    PowPositive(256, |b| - 1 - i);
    LeadingByte(b);
    if i == 0 {
      DivUnique(b[0], 256, 0, b[0]);
    } else {
      KeyByte(b[1..], i - 1);
      PowSplits(256, i, |b| - 1 - i);
      HigherDigits(b[0], Pow(256, i - 1), Pow(256, |b| - 1 - i), BE(b[1..]));
    }
  }

  /** The bytes are the digits of the number to the base 256, the most significant first. */
  ghost predicate BigEndian(b: seq<byte>, v: nat) {
    forall i :: 0 <= i < |b| ==> IsByte(b[i], v, |b| - 1 - i)
  }

  /** The digit of `v` that counts the `k`-th power of 256. */
  predicate IsByte(digit: byte, v: nat, k: nat) {
    0 < Pow(256, k) && digit == v / Pow(256, k) % 256
  }

  lemma {:induction false} KeyBytes(b: seq<byte>)
    ensures BigEndian(b, BE(b))
  {
    forall i | 0 <= i < |b| ensures IsByte(b[i], BE(b), |b| - 1 - i) {
      KeyByte(b, i);
    }
  }

  /** Multiples of 256 * q * p are multiples of 256 in the count of p. */
  lemma HigherDigits(x: nat, q: nat, p: nat, rest: nat)
    requires 0 < p
    ensures (x * (256 * q * p) + rest) / p % 256 == rest / p % 256
  {
    var d, r := rest / p, rest % p;
    assert rest == p * d + r;
    assert x * (256 * q * p) + rest == p * (256 * (x * q) + d) + r;
    DivUnique(x * (256 * q * p) + rest, p, 256 * (x * q) + d, r);
    DivUnique(256 * (x * q) + d, 256, x * q + d / 256, d % 256);
  }

  /** One byte of the inner loop: multiply by 58, add the carry, keep the low byte. */
  lemma {:induction false} CarryStep(before: seq<byte>, after: seq<byte>, carry: nat, digit: nat, t: int)
    requires |before| == |after| > 0 && carry < 58
    requires BE(after[1..]) + carry * Pow(256, |before| - 1) == 58 * BE(before[1..]) + digit
    requires var b: int := before[0]; t == carry + 58 * b && after[0] == t % 256
    ensures t / 256 < 58
    ensures BE(after) + t / 256 * Pow(256, |before|) == 58 * BE(before) + digit
  {
    var b: int := before[0];
    LowAndHigh(t, Pow(256, |before| - 1));
    LinearIn(carry, b, Pow(256, |before| - 1));
  }

  lemma LowAndHigh(t: int, p: int)
    ensures t % 256 * p + t / 256 * (256 * p) == t * p
  {
  }

  lemma LinearIn(carry: int, b: int, p: int)
    ensures (carry + 58 * b) * p == carry * p + 58 * (b * p)
  {
  }

  /**
   * One outer iteration: the bytes, read as a number, are multiplied by 58 and the digit is added; what is
   * left is the carry.
   */
  method Accumulate(bytes: array<byte>, digit: nat) returns (carry: nat)
    requires bytes.Length == 32 && digit < 58
    modifies bytes
    ensures BE(bytes[..]) + carry * Pow(256, 32) == 58 * BE(old(bytes[..])) + digit
    ensures carry < 58
  {
    carry := digit;
    ghost var before := bytes[..];
    var j := 32;
    assert Pow(256, 0) == 1;
    while j > 0
      invariant 0 <= j <= 32 && carry < 58
      invariant bytes[..j] == before[..j]
      invariant BE(bytes[j..]) + carry * Pow(256, 32 - j) == 58 * BE(before[j..]) + digit
    {
      j := j - 1;
      ghost var tail := bytes[j + 1..];
      assert bytes[j] == before[j] by { assert bytes[..j + 1][j] == before[..j + 1][j]; }
      ghost var carryIn := carry;
      var b: int := bytes[j];
      carry := carry + 58 * b;
      bytes[j] := carry % 256;
      assert bytes[j..][1..] == tail && before[j..][1..] == before[j + 1..];
      CarryStep(before[j..], bytes[j..], carryIn, digit, carry);
      carry := carry / 256;
    }
    assert bytes[0..] == bytes[..] && before[0..] == before;
  }

  /**
   * `decode_32`; None where it panics. It succeeds exactly on valid strings below 2^256, and then writes
   * their value.
   */
  method Decode32(s: string) returns (r: Option<seq<byte>>)
    ensures r.Some? <==> Valid(s) && Value(s) < Pow(256, 32)
    ensures r.Some? ==> |r.value| == 32 && BE(r.value) == Value(s)
    ensures r.Some? ==> BigEndian(r.value, Value(s))
  {
    var bytes := new byte[32](_ => 0);
    ZeroBytes(bytes[..]);
    PowPositive(256, 32);
    var i := 0;
    while i < |s|
      invariant 0 <= i <= |s|
      invariant Valid(s[..i]) && BE(bytes[..]) == Value(s[..i])
    {
      var digit := CharIndex(s[i]);
      if digit.None? {
        return None;
      }
      IndexNames(s[i], 0);
      NextDigit(s, i);
      var carry := Accumulate(bytes, digit.value);
      BEBound(bytes[..]);
      if carry != 0 {
        MulMono(1, carry, Pow(256, 32));
        if Valid(s) {
          ValueOfPrefix(s, i + 1);
        }
        return None;
      }
      i := i + 1;
    }
    assert s[..i] == s;
    BEBound(bytes[..]);
    KeyBytes(bytes[..]);
    r := Some(bytes[..]);
  }

  lemma NextDigit(s: string, i: nat)
    requires i < |s| && Valid(s[..i]) && Index(s[i]).Some?
    ensures Valid(s[..i + 1]) && Value(s[..i + 1]) == 58 * Value(s[..i]) + Index(s[i]).value
  {
    assert s[..i + 1][..i] == s[..i];
  }

  lemma {:induction false} ZeroBytes(b: seq<byte>)
    requires forall k :: 0 <= k < |b| ==> b[k] == 0
    ensures BE(b) == 0
  {
    if b != [] {
      ZeroBytes(b[1..]);
    }
  }

  /** More digits never make the number smaller. */
  lemma {:induction false} ValueOfPrefix(s: string, i: nat)
    requires Valid(s) && i <= |s|
    ensures Valid(s[..i]) && Value(s[..i]) <= Value(s)
  {
    if i == |s| {
      assert s[..i] == s;
    } else {
      var shorter := s[..|s| - 1];
      ValueOfPrefix(shorter, i);
      assert shorter[..i] == s[..i];
    }
  }

  // ---------------------------------------------------------------- which strings name the same key

  /** The string without its leading '1's, the zero digit. */
  function Strip(s: string): string {
    if s != [] && s[0] == '1' then Strip(s[1..]) else s
  }

  lemma DigitZero(c: char)
    ensures Index(c) == Some(0) <==> c == '1'
  {
    IndexNames(c, 0);
  }

  lemma {:induction false} LeadingOne(s: string)
    requires Valid(s) && s != [] && s[0] == '1'
    ensures Valid(s[1..]) && Value(s[1..]) == Value(s)
  {
    if |s| == 1 {
    } else {
      var shorter := s[..|s| - 1];
      LeadingOne(shorter);
      assert shorter[1..] == s[1..][..|s| - 2];
    }
  }

  lemma {:induction false} StripKeepsValue(s: string)
    requires Valid(s)
    ensures Valid(Strip(s)) && Value(Strip(s)) == Value(s)
    ensures Strip(s) != [] ==> Strip(s)[0] != '1'
  {
    if s != [] && s[0] == '1' {
      LeadingOne(s);
      StripKeepsValue(s[1..]);
    }
  }

  /** Without leading '1's, different strings write different numbers. */
  lemma {:induction false} StrippedInjective(s: string, t: string)
    requires Valid(s) && Valid(t) && Value(s) == Value(t)
    requires (s != [] ==> s[0] != '1') && (t != [] ==> t[0] != '1')
    ensures s == t
    decreases |s| + |t|
  {
    if s == [] && t != [] {
      PositiveValue(t);
    } else if s != [] && t == [] {
      PositiveValue(s);
    } else if s != [] {
      var a, b := s[|s| - 1], t[|t| - 1];
      IndexNames(a, 0);
      IndexNames(b, 0);
      var s', t' := s[..|s| - 1], t[..|t| - 1];
      DivUnique(Value(s), 58, Value(s'), Index(a).value);
      StrippedInjective(s', t');
    }
  }

  lemma {:induction false} PositiveValue(s: string)
    requires Valid(s) && s != [] && s[0] != '1'
    ensures Value(s) > 0
  {
    DigitZero(s[0]);
    if |s| > 1 {
      PositiveValue(s[..|s| - 1]);
    }
  }

  /** Two decodable strings name the same key exactly when they agree after dropping leading '1's. */
  lemma {:induction false} SameKeyIff(s: string, t: string, a: seq<byte>, b: seq<byte>)
    requires Valid(s) && Valid(t) && |a| == |b| && BE(a) == Value(s) && BE(b) == Value(t)
    ensures a == b <==> Strip(s) == Strip(t)
  {
    StripKeepsValue(s);
    StripKeepsValue(t);
    if a == b {
      StrippedInjective(Strip(s), Strip(t));
    } else if Strip(s) == Strip(t) {
      BEInjective(a, b);
    }
  }
}
