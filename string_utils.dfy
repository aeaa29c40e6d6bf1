/** StringUtils: appending query arguments to a url, the hexadecimal rendering used for
    digest-based file names, and the null-tolerant emptiness and trimming helpers. */
module StringUtils {
  import opened Wrappers
  import opened JavaLang

  // ---------------------------------------------------------------------------------
  // appendUrl

  /** appendUrl: a null url stays null; otherwise the arguments follow a '&' when the url
      already has a query ('?'), and a '?' when it has none.  A null argument string is
      appended as "null", as string concatenation does. */
  function AppendUrl(url: Option<string>, args: Option<string>): (r: Option<string>)
    ensures url.None? <==> r.None?
    ensures url.Some? ==>
      && r.Some? && |url.value| < |r.value| && r.value[..|url.value|] == url.value
      && '?' in r.value
  {
    if url.None? then None
    else if '?' in url.value then Some(url.value + "&" + NullText(args))
    else
      var appended := url.value + "?" + NullText(args);
      assert appended[|url.value|] == '?';
      Some(appended)
  }

  /** The separator appendUrl puts between url and arguments, by whether a query exists. */
  lemma AppendUrlSeparator(url: string, args: string)
    ensures '?' !in url ==> AppendUrl(Some(url), Some(args)) == Some(url + "?" + args)
    ensures '?' in url ==> AppendUrl(Some(url), Some(args)) == Some(url + "&" + args)
  {
  }

  /** Appending twice starts a query and then extends it: the second call always uses '&'. */
  lemma {:induction false} AppendUrlTwice(url: string, a: string, b: string)
    requires '?' !in url
    ensures AppendUrl(AppendUrl(Some(url), Some(a)), Some(b)) == Some(url + "?" + a + "&" + b)
  {
    var once := url + "?" + a;
    assert once[|url|] == '?';
    assert '?' in once;
  }

  /** The two examples of the documentation. */
  lemma AppendUrlExamples()
    ensures AppendUrl(Some("http://www.abc.com"), Some("a=1&b=2")) == Some("http://www.abc.com?a=1&b=2")
    ensures AppendUrl(Some("http://www.abc.com?c=0"), Some("a=1&b=2")) == Some("http://www.abc.com?c=0&a=1&b=2")
  {
    var plain, query := "http://www.abc.com", "http://www.abc.com?c=0";
    assert query[18] == '?';
    assert forall i :: 0 <= i < |plain| ==> plain[i] != '?';
    AppendUrlSeparator(plain, "a=1&b=2");
    AppendUrlSeparator(query, "a=1&b=2");
    assert plain + "?" + "a=1&b=2" == "http://www.abc.com?a=1&b=2";
    assert query + "&" + "a=1&b=2" == "http://www.abc.com?c=0&a=1&b=2";
  }

  // ---------------------------------------------------------------------------------
  // toHexString

  /** A Java byte. */
  newtype JByte = x: int | -128 <= x < 128

  function HexDigit(n: int): (c: char)
    requires 0 <= n < 16
  {
    "0123456789abcdef"[n]
  }

  predicate IsHexDigit(c: char) {
    ('0' <= c <= '9') || ('a' <= c <= 'f')
  }

  /** One byte as toHexString renders it: Integer.toHexString of the sign-extended value
      shifted right by four and masked to four bits, then of the value masked to four
      bits.  Dafny's `/` and `%` by 16 floor, as `>>` and `& 0x0f` do on a negative int. */
  function ByteHex(b: JByte): string {
    var value := b as int;
    [HexDigit((value / 16) % 16), HexDigit(value % 16)]
  }

  /** The hexadecimal text of a byte array, two characters per byte. */
  function Hex(bytes: seq<JByte>): string {
    if bytes == [] then "" else Hex(bytes[..|bytes| - 1]) + ByteHex(bytes[|bytes| - 1])
  }

  /** The unsigned value of a byte, which is what its two hex digits denote. */
  function Unsigned(b: JByte): (u: int)
    ensures 0 <= u < 256
  {
    (b as int) % 256
  }

  /** The masks remove the sign extension: the digits are the high and the low nibble of
      the byte's unsigned value. */
  lemma ByteHexIsUnsigned(b: JByte)
    ensures ByteHex(b) == [HexDigit(Unsigned(b) / 16), HexDigit(Unsigned(b) % 16)]
  {
    Nibbles(b);
  }

  lemma Nibbles(b: JByte)
    ensures ((b as int) / 16) % 16 == Unsigned(b) / 16
    ensures (b as int) % 16 == Unsigned(b) % 16
  {
    if b < 0 {
      assert Unsigned(b) == b as int + 256;
    }
  }

  /** The value of a hex digit (0 for any other character). */
  function HexValue(c: char): (n: int)
    ensures 0 <= n < 16
  {
    if '0' <= c <= '9' then c as int - '0' as int
    else if 'a' <= c <= 'f' then c as int - 'a' as int + 10
    else 0
  }

  lemma HexDigitValue(n: int)
    requires 0 <= n < 16
    ensures IsHexDigit(HexDigit(n)) && HexValue(HexDigit(n)) == n
  {
  }

  /** Hex read back: pairs of hex digits to unsigned byte values. */
  function Unhex(s: string): seq<int> {
    if |s| < 2 then []
    else Unhex(s[..|s| - 2]) + [16 * HexValue(s[|s| - 2]) + HexValue(s[|s| - 1])]
  }

  /** The unsigned values of a byte array, in order. */
  function Unsigneds(bytes: seq<JByte>): (u: seq<int>)
    ensures |u| == |bytes|
  {
    if bytes == [] then [] else Unsigneds(bytes[..|bytes| - 1]) + [Unsigned(bytes[|bytes| - 1])]
  }

  /** The hex text of n bytes has 2n lower-case hex digits: 32 for a 16-byte digest. */
  lemma {:induction false} HexShape(bytes: seq<JByte>)
    ensures |Hex(bytes)| == 2 * |bytes|
    ensures forall i :: 0 <= i < |Hex(bytes)| ==> IsHexDigit(Hex(bytes)[i])
  {
    if bytes != [] {
      var b := bytes[|bytes| - 1];
      HexShape(bytes[..|bytes| - 1]);
      ByteHexIsUnsigned(b);
      HexDigitValue(Unsigned(b) / 16);
      HexDigitValue(Unsigned(b) % 16);
    }
  }

  /** A pair of characters appended to any text reads back as one more value. */
  lemma UnhexAppendPair(s: string, pair: string)
    requires |pair| == 2
    ensures Unhex(s + pair) == Unhex(s) + Unhex(pair)
  {
    var t := s + pair;
    assert t[..|t| - 2] == s;
    assert pair[..0] == [];
  }

  /** The two digits of a byte read back as its unsigned value. */
  lemma ByteHexValue(b: JByte)
    ensures Unhex(ByteHex(b)) == [Unsigned(b)]
  {
    var u := Unsigned(b);
    var d := ByteHex(b);
    ByteHexIsUnsigned(b);
    HexDigitValue(u / 16);
    HexDigitValue(u % 16);
    assert d[..0] == [];
    assert 16 * (u / 16) + u % 16 == u;
  }

  /** The last byte's two digits end the hex text, and its value ends the unsigned values. */
  lemma HexSnoc(bytes: seq<JByte>)
    requires bytes != []
    ensures Hex(bytes) == Hex(bytes[..|bytes| - 1]) + ByteHex(bytes[|bytes| - 1])
    ensures Unsigneds(bytes) == Unsigneds(bytes[..|bytes| - 1]) + [Unsigned(bytes[|bytes| - 1])]
  {
  }

  /** Reading the hex text back gives each byte's unsigned value, in order. */
  lemma {:induction false} HexRoundTrip(bytes: seq<JByte>)
    ensures Unhex(Hex(bytes)) == Unsigneds(bytes)
  {
    if bytes != [] {
      var init := bytes[..|bytes| - 1];
      var b := bytes[|bytes| - 1];
      HexRoundTrip(init);
      HexSnoc(bytes);
      ByteHexValue(b);
      UnhexAppendPair(Hex(init), ByteHex(b));
    }
  }

  /** Different byte arrays give different hex texts, so the file names built from digests
      are as distinct as the digests. */
  lemma HexInjective(a: seq<JByte>, b: seq<JByte>)
    requires Hex(a) == Hex(b)
    ensures a == b
  {
    HexRoundTrip(a);
    HexRoundTrip(b);
    UnsignedsInjective(a, b);
  }

  lemma {:induction false} UnsignedsInjective(a: seq<JByte>, b: seq<JByte>)
    requires Unsigneds(a) == Unsigneds(b)
    ensures a == b
  {
    if a != [] {
      var n := |a| - 1;
      assert Unsigneds(a)[n] == Unsigned(a[n]) && Unsigneds(b)[n] == Unsigned(b[n]);
      assert Unsigneds(a)[..n] == Unsigneds(a[..n]);
      assert Unsigneds(b)[..n] == Unsigneds(b[..n]);
      UnsignedsInjective(a[..n], b[..n]);
      assert a == a[..n] + [a[n]] && b == b[..n] + [b[n]];
    }
  }

  /** toHexString: append each byte's two digits in order. */
  method ToHexString(bytes: seq<JByte>) returns (r: string)
    ensures r == Hex(bytes)
    ensures |r| == 2 * |bytes|
  {
    HexShape(bytes);
    var sb := "";
    for i := 0 to |bytes|
      invariant sb == Hex(bytes[..i])
    {
      assert bytes[..i + 1][..i] == bytes[..i];
      var value := bytes[i] as int;
      sb := sb + [HexDigit((value / 16) % 16)];
      sb := sb + [HexDigit(value % 16)];
    }
    assert bytes[..|bytes|] == bytes;
    r := sb;
  }

  // ---------------------------------------------------------------------------------
  // isEmpty and trimToEmpty

  /** isEmpty: null or of length 0. */
  predicate IsEmpty(s: Option<string>) {
    s.None? || |s.value| == 0
  }

  /** String.trim removes every leading and trailing character at or below U+0020. */
  predicate Blank(c: char) {
    c <= ' '
  }

  /** String.trim's scan from the front: drop leading blanks. */
  function TrimLeft(s: string): (r: string)
    ensures |r| <= |s|
  {
    if s != [] && Blank(s[0]) then TrimLeft(s[1..]) else s
  }

  /** String.trim's scan from the back: drop trailing blanks. */
  function TrimRight(s: string): (r: string)
    ensures |r| <= |s|
  {
    if s != [] && Blank(s[|s| - 1]) then TrimRight(s[..|s| - 1]) else s
  }

  /** TrimLeft leaves a suffix of s that does not start with a blank, and everything it
      dropped is blank. */
  lemma {:induction false} TrimLeftCuts(s: string)
    ensures var r := TrimLeft(s);
      && r == s[|s| - |r|..]
      && (r == [] || !Blank(r[0]))
      && (forall k :: 0 <= k < |s| - |r| ==> Blank(s[k]))
    decreases |s|
  {
    if s != [] && Blank(s[0]) {
      var r := TrimLeft(s[1..]);
      TrimLeftCuts(s[1..]);
      forall k | 0 < k < |s| - |r|
        ensures Blank(s[k])
      {
        assert s[k] == s[1..][k - 1];
      }
      assert s[1..][|s| - 1 - |r|..] == s[|s| - |r|..];
    }
  }

  /** TrimRight leaves a prefix of s that does not end with a blank, and everything it
      dropped is blank. */
  lemma {:induction false} TrimRightCuts(s: string)
    ensures var r := TrimRight(s);
      && r == s[..|r|]
      && (r == [] || !Blank(r[|r| - 1]))
      && (forall k :: |r| <= k < |s| ==> Blank(s[k]))
    decreases |s|
  {
    if s != [] && Blank(s[|s| - 1]) {
      var p := s[..|s| - 1];
      var r := TrimRight(p);
      TrimRightCuts(p);
      forall k | |r| <= k < |s| - 1
        ensures Blank(s[k])
      {
        assert s[k] == p[k];
      }
      assert p[..|r|] == s[..|r|];
    }
  }

  /** String.trim. */
  function Trim(s: string): string {
    TrimRight(TrimLeft(s))
  }

  /** What trim returns is s with its blank ends cut off: a piece s[i..j] with only blanks
      before i and after j, which starts and ends with a character that is not blank. */
  lemma TrimCutsBlankEnds(s: string)
    ensures var r := Trim(s); var i := |s| - |TrimLeft(s)|;
      && i + |r| <= |s|
      && r == s[i..i + |r|]
      && (forall k :: 0 <= k < i ==> Blank(s[k]))
      && (forall k :: i + |r| <= k < |s| ==> Blank(s[k]))
      && (r == [] || (!Blank(r[0]) && !Blank(r[|r| - 1])))
  {
    var l := TrimLeft(s);
    var r := TrimRight(l);
    TrimLeftCuts(s);
    TrimRightCuts(l);
    CutEnds(s, l, r);
    if r != [] {
      assert r[0] == l[0];
    }
  }

  /** Cutting blanks off the front of s (giving l) and then off the back of l (giving r)
      leaves a slice of s with blanks on both sides. */
  lemma CutEnds(s: string, l: string, r: string)
    requires |l| <= |s| && l == s[|s| - |l|..]
    requires forall k :: 0 <= k < |s| - |l| ==> Blank(s[k])
    requires |r| <= |l| && r == l[..|r|]
    requires forall k :: |r| <= k < |l| ==> Blank(l[k])
    ensures var i := |s| - |l|;
      && i + |r| <= |s|
      && r == s[i..i + |r|]
      && (forall k :: 0 <= k < i ==> Blank(s[k]))
      && (forall k :: i + |r| <= k < |s| ==> Blank(s[k]))
  {
    var i := |s| - |l|;
    forall k | i + |r| <= k < |s|
      ensures Blank(s[k])
    {
      assert s[k] == l[k - i];
    }
  }

  /** Trimming twice is trimming once. */
  lemma TrimIdempotent(s: string)
    ensures Trim(Trim(s)) == Trim(s)
  {
    var r := Trim(s);
    TrimCutsBlankEnds(s);
    assert TrimLeft(r) == r;
  }

  /** trimToEmpty: "" for a null or empty string, otherwise the trimmed string. */
  function TrimToEmpty(s: Option<string>): (r: string)
    ensures IsEmpty(s) ==> r == ""
    ensures !IsEmpty(s) ==> r == Trim(s.value)
  {
    if IsEmpty(s) then "" else Trim(s.value)
  }

  /** isEmpty looks at length only: it holds for null and "" and for nothing else, so a
      text of blanks is not empty, although trimToEmpty turns it into "". */
  lemma IsEmptyIsLengthOnly(s: Option<string>)
    ensures IsEmpty(s) <==> s == None || s == Some("")
    ensures !IsEmpty(Some(" ")) && TrimToEmpty(Some(" ")) == ""
  {
    assert " "[1..] == "";
    assert TrimLeft(" ") == TrimLeft("") == "";
  }

  /** Since trimming "" gives "", trimToEmpty is trim on every non-null string: the empty
      check only guards against null. */
  lemma TrimToEmptyOfString(s: string)
    ensures TrimToEmpty(Some(s)) == Trim(s)
    ensures TrimToEmpty(None) == ""
  {
  }
}
