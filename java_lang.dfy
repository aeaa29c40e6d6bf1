/** The few java.lang and java.util behaviours the modelled code relies on: 32-bit int
    wrap-around, `"" + int` and `"" + null` in string concatenation, String.hashCode,
    the UTF-8 byte length of String.getBytes(), and List.remove(Object). */
module JavaLang {
  import opened Wrappers

  const INT_MIN: int := -0x8000_0000
  const INT_MAX: int := 0x7fff_ffff

  /** Two's complement wrap-around of an int expression to 32 bits. */
  function Int32(x: int): (r: int)
    ensures INT_MIN <= r <= INT_MAX
    ensures (x - r) % 0x1_0000_0000 == 0
  {
    var m := x % 0x1_0000_0000;
    if m <= INT_MAX then m else m - 0x1_0000_0000
  }

  // ---------------------------------------------------------------------------------
  // Decimal text of integers

  predicate IsDigit(c: char) {
    '0' <= c <= '9'
  }

  predicate AllDigits(s: string) {
    forall i :: 0 <= i < |s| ==> IsDigit(s[i])
  }

  function DigitChar(d: nat): char
    requires d < 10
  {
    "0123456789"[d]
  }

  /** The decimal digits of n, without leading zeros. */
  function NatToDigits(n: nat): (s: string)
    ensures |s| > 0
    decreases n
  {
    if n < 10 then [DigitChar(n)] else NatToDigits(n / 10) + [DigitChar(n % 10)]
  }

  /** The number a string of decimal digits denotes. */
  function DigitsValue(s: string): nat
    requires AllDigits(s)
  {
    if s == [] then 0 else 10 * DigitsValue(s[..|s| - 1]) + (s[|s| - 1] as int - '0' as int)
  }

  /** Integer.toString, which is also what `"" + n` appends. */
  function IntToString(n: int): string {
    if n < 0 then "-" + NatToDigits(-n) else NatToDigits(n)
  }

  /** The digits of n read back give n, and only n >= 10 has a leading digit other than
      its only digit; the leading digit of a positive n is never '0'. */
  lemma {:induction false} NatToDigitsValue(n: nat)
    ensures AllDigits(NatToDigits(n))
    ensures DigitsValue(NatToDigits(n)) == n
    ensures n > 0 ==> NatToDigits(n)[0] != '0'
    decreases n
  {
    if n >= 10 {
      NatToDigitsValue(n / 10);
      var s := NatToDigits(n / 10) + [DigitChar(n % 10)];
      assert s[..|s| - 1] == NatToDigits(n / 10);
    }
  }

  /** Integer.toString is injective: the text of an int determines it. */
  lemma IntToStringInjective(a: int, b: int)
    requires IntToString(a) == IntToString(b)
    ensures a == b
  {
    NatToDigitsValue(if a < 0 then -a else a);
    NatToDigitsValue(if b < 0 then -b else b);
    if a < 0 && b < 0 {
      assert NatToDigits(-a) == IntToString(a)[1..];
    }
  }

  /** Integer.toString uses only digits and a leading minus sign. */
  lemma IntToStringChars(n: int, c: char)
    requires c != '-' && !IsDigit(c)
    ensures c !in IntToString(n)
  {
    NatToDigitsValue(if n < 0 then -n else n);
  }

  /** What string concatenation appends for a String that may be null. */
  function NullText(s: Option<string>): string {
    if s.Some? then s.value else "null"
  }

  // ---------------------------------------------------------------------------------
  // String.hashCode over UTF-16 code units

  /** The UTF-16 code units of one character: a surrogate pair above U+FFFF. */
  function Utf16Units(c: char): (u: seq<int>)
    ensures 1 <= |u| <= 2
    ensures forall i :: 0 <= i < |u| ==> 0 <= u[i] < 0x1_0000
  {
    var cp := c as int;
    if cp < 0x1_0000 then [cp]
    else [0xD800 + (cp - 0x1_0000) / 0x400, 0xDC00 + (cp - 0x1_0000) % 0x400]
  }

  /** One step of the hash per UTF-16 unit, wrapping at 32 bits. */
  function HashUnits(h: int, units: seq<int>): (r: int)
    requires INT_MIN <= h <= INT_MAX
    ensures INT_MIN <= r <= INT_MAX
    decreases units
  {
    if units == [] then h else HashUnits(Int32(31 * h + units[0]), units[1..])
  }

  function HashFrom(h: int, s: string): (r: int)
    requires INT_MIN <= h <= INT_MAX
    ensures INT_MIN <= r <= INT_MAX
    decreases s
  {
    if s == [] then h else HashFrom(HashUnits(h, Utf16Units(s[0])), s[1..])
  }

  /** String.hashCode: h = 31 * h + unit over the UTF-16 units, wrapping at 32 bits. */
  function StringHashCode(s: string): (h: int)
    ensures INT_MIN <= h <= INT_MAX
  {
    HashFrom(0, s)
  }

  // ---------------------------------------------------------------------------------
  // UTF-8 byte length of String.getBytes()

  function Utf8Width(c: char): (w: nat)
    ensures 1 <= w <= 4
  {
    var cp := c as int;
    if cp < 0x80 then 1 else if cp < 0x800 then 2 else if cp < 0x1_0000 then 3 else 4
  }

  function Utf8Length(s: string): nat {
    if s == [] then 0 else Utf8Width(s[0]) + Utf8Length(s[1..])
  }

  /** Every character takes one to four bytes; ASCII text takes one byte a character. */
  lemma {:induction false} Utf8LengthBounds(s: string)
    ensures |s| <= Utf8Length(s) <= 4 * |s|
    ensures (forall i :: 0 <= i < |s| ==> s[i] as int < 0x80) ==> Utf8Length(s) == |s|
  {
    if s != [] {
      Utf8LengthBounds(s[1..]);
      if forall i :: 0 <= i < |s| ==> s[i] as int < 0x80 {
        assert forall i :: 0 <= i < |s[1..]| ==> s[1..][i] == s[i + 1];
      }
    }
  }

  // ---------------------------------------------------------------------------------
  // java.util.List.remove(Object)

  /** List.remove(Object): drop the first element equal to x, if any. */
  function ListRemove<T(==)>(s: seq<T>, x: T): (r: seq<T>)
    ensures x in s ==> |r| == |s| - 1
    ensures x !in s ==> r == s
    ensures forall y :: y in r ==> y in s
  {
    if s == [] then s
    else if s[0] == x then s[1..]
    else [s[0]] + ListRemove(s[1..], x)
  }

  /** In a list without repeats, List.remove(x) leaves exactly the other elements, in order. */
  lemma {:induction false} ListRemoveUnique<T>(s: seq<T>, x: T)
    requires forall i, j :: 0 <= i < j < |s| ==> s[i] != s[j]
    ensures forall y :: y in ListRemove(s, x) <==> y in s && y != x
    ensures forall i, j :: 0 <= i < j < |ListRemove(s, x)| ==> ListRemove(s, x)[i] != ListRemove(s, x)[j]
  {
    if s != [] && s[0] != x {
      ListRemoveUnique(s[1..], x);
      var t := ListRemove(s[1..], x);
      assert s[0] !in s[1..];
      forall i, j | 0 <= i < j < |[s[0]] + t| ensures ([s[0]] + t)[i] != ([s[0]] + t)[j] {
        if i > 0 {
          assert ([s[0]] + t)[i] == t[i - 1] && ([s[0]] + t)[j] == t[j - 1];
        } else {
          assert ([s[0]] + t)[j] == t[j - 1];
        }
      }
    } else if s != [] {
      assert forall i, j :: 0 <= i < j < |s[1..]| ==> s[1..][i] == s[i + 1] && s[1..][j] == s[j + 1];
    }
  }
}
