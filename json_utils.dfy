/** JSONUtils: null-tolerant access to a parsed JSON value.  `opt(path, default)` walks a
    dotted path ("user.3.name.first") through objects by key and through arrays by index,
    stops at the first primitive, and turns JSON null (and anything whose text is "null",
    in any case) into the caller's default.

    A JSON value is the datatype Json; a Java null in the utils' field or in a default is
    None.  Numbers are integers. */
module JsonUtils {
  import opened Wrappers
  import opened JavaLang

  /** A JSON value: an object (members in order, keys distinct as in a JSONObject), an
      array, a string, an integer, a boolean, or JSONObject.NULL. */
  datatype Json =
    | Obj(members: seq<(string, Json)>)
    | Arr(items: seq<Json>)
    | Str(s: string)
    | Num(n: int)
    | Bool(b: bool)
    | Null

  // ---------------------------------------------------------------------------------
  // String.split("\\.")

  /** The pieces of s between the dots; there is one more piece than there are dots. */
  function SplitAll(s: string): (pieces: seq<string>)
    ensures |pieces| >= 1
    ensures forall i :: 0 <= i < |pieces| ==> '.' !in pieces[i]
  {
    if s == [] then [""]
    else
      var rest := SplitAll(s[1..]);
      if s[0] == '.' then [""] + rest else [[s[0]] + rest[0]] + rest[1..]
  }

  function DropTrailingEmpty(pieces: seq<string>): (r: seq<string>)
    ensures |r| <= |pieces| && r == pieces[..|r|]
    ensures r == [] || r[|r| - 1] != ""
  {
    if pieces == [] || pieces[|pieces| - 1] != "" then pieces
    else DropTrailingEmpty(pieces[..|pieces| - 1])
  }

  /** String.split with the regular expression "\\.": split at each dot and drop the
      trailing empty pieces; a string with no dot is returned whole, even when empty. */
  function Split(s: string): (nodes: seq<string>)
    ensures forall i :: 0 <= i < |nodes| ==> '.' !in nodes[i]
  {
    if '.' !in s then [s] else DropTrailingEmpty(SplitAll(s))
  }

  // ---------------------------------------------------------------------------------
  // Integer.decode

  /** The value of c as a digit of radix 16 or less, -1 if it is none. */
  function DigitOf(c: char): int {
    if '0' <= c <= '9' then c as int - '0' as int
    else if 'a' <= c <= 'f' then c as int - 'a' as int + 10
    else if 'A' <= c <= 'F' then c as int - 'A' as int + 10
    else -1
  }

  predicate DigitsOfRadix(s: string, radix: int) {
    forall i :: 0 <= i < |s| ==> 0 <= DigitOf(s[i]) < radix
  }

  function ValueIn(s: string, radix: int): int
    requires DigitsOfRadix(s, radix)
  {
    if s == [] then 0 else radix * ValueIn(s[..|s| - 1], radix) + DigitOf(s[|s| - 1])
  }

  /** s begins with the character c. */
  predicate Starts(s: string, c: char) {
    |s| >= 1 && s[0] == c
  }

  /** s begins with the characters c and d. */
  predicate Starts2(s: string, c: char, d: char) {
    |s| >= 2 && s[0] == c && s[1] == d
  }

  /** The radix a digit string announces, and how many prefix characters announce it:
      "0x", "0X" or "#" for hexadecimal, a leading "0" with more after it for octal,
      otherwise decimal. */
  function RadixOf(rest: string): (rs: (int, int))
    ensures rs.1 <= |rest|
  {
    if Starts2(rest, '0', 'x') || Starts2(rest, '0', 'X') then (16, 2)
    else if Starts(rest, '#') then (16, 1)
    else if Starts(rest, '0') && |rest| > 1 then (8, 1)
    else (10, 0)
  }

  /** Integer.valueOf(digits, radix), negated when the sign was '-', with the retry on the
      negated text that lets the most negative int through. */
  function SignedValue(digits: string, radix: int, negative: bool): Option<int> {
    if Starts(digits, '-') || Starts(digits, '+') then None
    else if digits == [] || !DigitsOfRadix(digits, radix) then None
    else
      var magnitude := ValueIn(digits, radix);
      var value := if negative then -magnitude else magnitude;
      if INT_MIN <= value <= INT_MAX then Some(value) else None
  }

  /** Integer.decode: an optional sign, then the radix prefix and the digits; a second
      sign, no digits, a digit outside the radix or a value outside the int range is a
      NumberFormatException (None). */
  function Decode(nm: string): (r: Option<int>)
    ensures r.Some? ==> INT_MIN <= r.value <= INT_MAX
  {
    if |nm| == 0 then None
    else
      var index := if nm[0] == '-' || nm[0] == '+' then 1 else 0;
      var rest := nm[index..];
      var (radix, skip) := RadixOf(rest);
      SignedValue(rest[skip..], radix, nm[0] == '-')
  }

  /** Decimal digits without a leading zero (or the single digit "0") announce radix 10. */
  lemma DecimalRadix(d: string)
    requires d != [] && AllDigits(d) && (d[0] != '0' || |d| == 1)
    ensures RadixOf(d) == (10, 0)
  {
    assert IsDigit(d[0]);
  }

  lemma {:induction false} DecimalValueIn(s: string)
    requires AllDigits(s)
    ensures DigitsOfRadix(s, 10) && ValueIn(s, 10) == DigitsValue(s)
  {
    if s != [] {
      DecimalValueIn(s[..|s| - 1]);
    }
  }

  /** Decimal digits read in radix 10 give their value, negated when asked, if that is an
      int. */
  lemma SignedDecimal(d: string, negative: bool)
    requires d != [] && AllDigits(d)
    requires INT_MIN <= (if negative then -(DigitsValue(d) as int) else DigitsValue(d)) <= INT_MAX
    ensures SignedValue(d, 10, negative) == Some(if negative then -(DigitsValue(d) as int) else DigitsValue(d))
  {
    DecimalValueIn(d);
    assert IsDigit(d[0]);
  }

  /** Decimal digits without a leading zero decode to their value when it is an int. */
  lemma DecodeUnsigned(d: string)
    requires d != [] && AllDigits(d) && (d[0] != '0' || |d| == 1)
    requires DigitsValue(d) <= INT_MAX
    ensures Decode(d) == Some(DigitsValue(d))
  {
    DecimalRadix(d);
    SignedDecimal(d, false);
    assert IsDigit(d[0]);
    assert d[0..] == d;
  }

  /** The same digits after a '-' decode to the negated value when it is an int. */
  lemma DecodeNegated(d: string)
    requires d != [] && AllDigits(d) && (d[0] != '0' || |d| == 1)
    requires INT_MIN <= -(DigitsValue(d) as int)
    ensures Decode("-" + d) == Some(-(DigitsValue(d) as int))
  {
    DecimalRadix(d);
    SignedDecimal(d, true);
    assert ("-" + d)[1..] == d;
  }

  /** Every int in its decimal form decodes to itself, so an array index written by
      Integer.toString is read back as that index. */
  lemma DecodeIntToString(n: int)
    requires INT_MIN <= n <= INT_MAX
    ensures Decode(IntToString(n)) == Some(n)
  {
    var m := if n < 0 then -n else n;
    NatToDigitsValue(m);
    if n < 0 {
      DecodeNegated(NatToDigits(m));
    } else {
      DecodeUnsigned(NatToDigits(m));
    }
  }

  /** Hexadecimal segments: "0x1F" is 31 and "#10" is 16. */
  lemma DecodeHexExamples()
    ensures Decode("0x1F") == Some(31) && Decode("#10") == Some(16)
  {
    assert "0x1F"[2..] == "1F" && ValueIn("1F", 16) == 31 by { assert "1F"[..1] == "1"; }
    assert "#10"[1..] == "10" && ValueIn("10", 16) == 16 by { assert "10"[..1] == "1"; }
  }

  /** An octal segment and a negative one: "010" is 8 and "-1" is -1. */
  lemma DecodeOctalAndSignExamples()
    ensures Decode("010") == Some(8) && Decode("-1") == Some(-1)
  {
    assert "010"[1..] == "10" && ValueIn("10", 8) == 8;
    assert "-1"[1..] == "1" && ValueIn("1", 10) == 1;
  }

  /** Malformed segments: a word, the empty string and a doubled sign. */
  lemma DecodeRejects()
    ensures Decode("name") == None && Decode("") == None && Decode("--1") == None
  {
    assert "name"[0..] == "name" && DigitOf("name"[0]) == -1;
    assert "--1"[1..] == "-1";
  }

  // ---------------------------------------------------------------------------------
  // toString of a value

  /** A JSON string literal as JSONStringer writes it: '"', '\\' and '/' escaped with a
      backslash, the usual short escapes, other control characters as \u00XX. */
  function Quote(s: string): string {
    "\"" + Escaped(s) + "\""
  }

  function Escaped(s: string): string {
    if s == [] then "" else Escaped(s[..|s| - 1]) + EscapeChar(s[|s| - 1])
  }

  function EscapeChar(c: char): string {
    var code := c as int;
    if c == '"' || c == '\\' || c == '/' then ['\\', c]
    else if c == '\t' then "\\t"
    else if code == 8 then "\\b"
    else if c == '\n' then "\\n"
    else if c == '\r' then "\\r"
    else if code == 12 then "\\f"
    else if code <= 0x1F then "\\u00" + [LowerHex(code / 16), LowerHex(code % 16)]
    else [c]
  }

  function LowerHex(n: int): char
    requires 0 <= n < 16
  {
    "0123456789abcdef"[n]
  }

  function Join(parts: seq<string>, sep: string): string {
    if |parts| == 0 then ""
    else if |parts| == 1 then parts[0]
    else Join(parts[..|parts| - 1], sep) + sep + parts[|parts| - 1]
  }

  /** The JSON text of a value, as JSONObject.toString and JSONArray.toString write it. */
  function Encode(j: Json): string
    decreases j
  {
    match j
    case Obj(ms) =>
      "{" + Join(seq(|ms|, i requires 0 <= i < |ms| => Quote(ms[i].0) + ":" + Encode(ms[i].1)), ",") + "}"
    case Arr(items) =>
      "[" + Join(seq(|items|, i requires 0 <= i < |items| => Encode(items[i])), ",") + "]"
    case Str(s) => Quote(s)
    case Num(n) => IntToString(n)
    case Bool(b) => if b then "true" else "false"
    case Null => "null"
  }

  /** Object.toString of a value: a String is itself, anything else its JSON text. */
  function ToText(j: Json): string {
    if j.Str? then j.s else Encode(j)
  }

  /** "null".equalsIgnoreCase(s): no character other than n/N, u/U and l/L changes case to
      one of them, so this is an ASCII case-insensitive match. */
  predicate IsNullWord(s: string) {
    && |s| == 4
    && (s[0] == 'n' || s[0] == 'N') && (s[1] == 'u' || s[1] == 'U')
    && (s[2] == 'l' || s[2] == 'L') && (s[3] == 'l' || s[3] == 'L')
  }

  // ---------------------------------------------------------------------------------
  // The utils object and its accessors

  /** A JSONUtils: the value held in mValue, which valueOf may set to null. */
  datatype JsonUtils = JsonUtils(value: Option<Json>)

  /** valueOf wraps any value, null included. */
  function ValueOf(o: Option<Json>): (u: JsonUtils)
    ensures u.value == o
  {
    JsonUtils(o)
  }

  /** removeNull: null, JSONObject.NULL, and any value whose text is "null" ignoring case,
      give the default; anything else is returned as is. */
  function RemoveNull(value: Option<Json>, default: Option<Json>): Option<Json> {
    if value.None? || value.value == Null then default
    else if IsNullWord(ToText(value.value)) then default
    else value
  }

  /** Only null, JSON null and a string spelling "null" are replaced by the default: no
      number, boolean, array or object has the text "null". */
  lemma RemoveNullReplaces(value: Option<Json>, default: Option<Json>)
    ensures RemoveNull(value, default) ==
      if value.None? || value.value == Null || (value.value.Str? && IsNullWord(value.value.s)) then default else value
  {
    if value.Some? && value.value.Num? {
      IntToStringChars(value.value.n, 'n');
      IntToStringChars(value.value.n, 'N');
      var t := IntToString(value.value.n);
      assert |t| > 0 ==> t[0] in t;
    }
  }

  /** A member of an object by key, null when there is none (JSONObject.opt). */
  function Member(ms: seq<(string, Json)>, key: string): (v: Option<Json>)
    ensures v.Some? ==> exists i :: 0 <= i < |ms| && ms[i].0 == key && ms[i].1 == v.value
    ensures v.None? ==> forall i :: 0 <= i < |ms| ==> ms[i].0 != key
  {
    if ms == [] then None
    else if ms[0].0 == key then Some(ms[0].1)
    else
      var v := Member(ms[1..], key);
      assert forall i :: 0 < i < |ms| ==> ms[i] == ms[1..][i - 1];
      v
  }

  /** An element of an array by index, null when the index is out of range (JSONArray.opt). */
  function Element(items: seq<Json>, index: int): Option<Json> {
    if 0 <= index < |items| then Some(items[index]) else None
  }

  /** One step of the walk: an object selects the member by key, an array the element at
      the decoded index; a missing member, an index out of range or a segment that is no
      integer gives JSONObject.NULL. */
  function Step(value: Json, node: string): Json
    requires value.Obj? || value.Arr?
  {
    if value.Obj? then
      var v := Member(value.members, node);
      if v.None? then Null else v.value
    else
      var index := Decode(node);
      if index.None? then Null
      else
        var v := Element(value.items, index.value);
        if v.None? then Null else v.value
  }

  /** The walk along the path's segments, stopping at the first value that is neither an
      object nor an array (JSON null included). */
  function Walk(value: Json, nodes: seq<string>): Json
    decreases nodes
  {
    if nodes == [] then value
    else if value.Obj? || value.Arr? then Walk(Step(value, nodes[0]), nodes[1..])
    else value
  }

  /** opt(path, default), as a function. */
  function OptSpec(u: JsonUtils, path: Option<string>, default: Option<Json>): Option<Json> {
    if path.None? || u.value.None? then RemoveNull(u.value, default)
    else RemoveNull(Some(Walk(u.value.value, Split(path.value))), default)
  }

  /** opt(path, default): split the path at the dots and step through the value segment by
      segment until a primitive is reached, then replace null by the default. */
  method Opt(u: JsonUtils, path: Option<string>, default: Option<Json>) returns (r: Option<Json>)
    ensures r == OptSpec(u, path, default)
    ensures path.None? || u.value.None? ==> r == OptDefault(u, default)
  {
    if path.None? || u.value.None? {
      return OptDefault(u, default);
    }
    var value := u.value.value;
    var nodes := Split(path.value);
    for i := 0 to |nodes|
      invariant Walk(value, nodes[i..]) == Walk(u.value.value, nodes)
    {
      assert nodes[i..][1..] == nodes[i + 1..];
      if value.Obj? {
        var v := Member(value.members, nodes[i]);
        value := if v.None? then Null else v.value;
      } else if value.Arr? {
        var index := Decode(nodes[i]);
        if index.Some? {
          var v := Element(value.items, index.value);
          value := if v.None? then Null else v.value;
        } else {
          value := Null;
        }
      } else {
        break;
      }
    }
    r := RemoveNull(Some(value), default);
  }

  /** opt(default): the held value with null replaced by the default. */
  function OptDefault(u: JsonUtils, default: Option<Json>): (r: Option<Json>)
    ensures u.value.None? ==> r == default
    ensures u.value.Some? && u.value.value != Null && !IsNullWord(ToText(u.value.value)) ==> r == u.value
  {
    RemoveNull(u.value, default)
  }

  /** asString: the value's text when it is not null, else the default. */
  function AsString(o: Option<Json>, default: Option<string>): (r: Option<string>)
    ensures o.None? ==> r == default
    ensures o.Some? && o.value.Str? ==> r == Some(o.value.s)
    ensures o.Some? && !o.value.Str? ==> r == Some(Encode(o.value))
  {
    if o.Some? then Some(ToText(o.value)) else default
  }

  /** asJSONObject: the members when the value is an object, else the default. */
  function AsJSONObject(o: Option<Json>, default: Option<seq<(string, Json)>>): (r: Option<seq<(string, Json)>>)
    ensures o.Some? && o.value.Obj? ==> r == Some(o.value.members)
    ensures !(o.Some? && o.value.Obj?) ==> r == default
  {
    if o.Some? && o.value.Obj? then Some(o.value.members) else default
  }

  /** asJSONArray: the items when the value is an array, else the default. */
  function AsJSONArray(o: Option<Json>, default: Option<seq<Json>>): (r: Option<seq<Json>>)
    ensures o.Some? && o.value.Arr? ==> r == Some(o.value.items)
    ensures !(o.Some? && o.value.Arr?) ==> r == default
  {
    if o.Some? && o.value.Arr? then Some(o.value.items) else default
  }

  // ---------------------------------------------------------------------------------
  // Properties of the walk

  /** Walking a path in two parts is walking the first part and then the second from where
      it ended: a primitive reached early stays the answer. */
  lemma {:induction false} WalkConcat(value: Json, a: seq<string>, b: seq<string>)
    ensures Walk(value, a + b) == Walk(Walk(value, a), b)
    decreases a
  {
    if a == [] {
      assert a + b == b;
    } else if value.Obj? || value.Arr? {
      assert (a + b)[1..] == a[1..] + b;
      WalkConcat(Step(value, a[0]), a[1..], b);
    } else {
      PrimitiveStops(value, b);
    }
  }

  /** A value that is neither object nor array ends the walk: the remaining segments are
      ignored. */
  lemma PrimitiveStops(value: Json, nodes: seq<string>)
    requires !value.Obj? && !value.Arr?
    ensures Walk(value, nodes) == value
  {
  }

  /** A missing key, an index out of range, or a segment that does not decode on an
      array, leads to JSON null, and opt then returns the default whatever segments
      remain. */
  lemma {:induction false} DeadEndGivesDefault(value: Json, node: string, rest: seq<string>, default: Option<Json>)
    requires value.Obj? || value.Arr?
    requires value.Obj? ==> Member(value.members, node).None?
    requires value.Arr? ==> Decode(node).None? || !(0 <= Decode(node).value < |value.items|)
    ensures Walk(value, [node] + rest) == Null
    ensures RemoveNull(Some(Walk(value, [node] + rest)), default) == default
  {
    assert ([node] + rest)[1..] == rest;
    PrimitiveStops(Null, rest);
  }

  /** A null path or a null value gives the default, so long as the value is null or holds
      no text "null". */
  lemma NullPathOrValue(u: JsonUtils, path: Option<string>, default: Option<Json>)
    ensures u.value.None? ==> OptSpec(u, path, default) == default
    ensures path.None? ==> OptSpec(u, path, default) == OptDefault(u, default)
  {
  }

  // ---------------------------------------------------------------------------------
  // The documentation's example

  function Example(): Json {
    Obj([("id", Num(1)),
         ("flag", Arr([Str("flag1"), Str("flag2")])),
         ("category", Obj([("id", Num(10)), ("name", Str("category name"))]))])
  }

  /** The pieces of a dot-free string are the string itself. */
  lemma {:induction false} SplitAllNoDot(s: string)
    requires '.' !in s
    ensures SplitAll(s) == [s]
  {
    if s != [] {
      assert forall i :: 0 <= i < |s[1..]| ==> s[1..][i] == s[i + 1];
      SplitAllNoDot(s[1..]);
      assert [s[0]] + s[1..] == s;
    }
  }

  /** A dot-free head followed by a dot is the first piece, and the rest splits on. */
  lemma {:induction false} SplitAllAfterHead(head: string, rest: string)
    requires '.' !in head
    ensures SplitAll(head + "." + rest) == [head] + SplitAll(rest)
  {
    if head != [] {
      assert (head + "." + rest)[1..] == head[1..] + "." + rest;
      assert '.' !in head[1..] by {
        assert forall i :: 0 <= i < |head[1..]| ==> head[1..][i] == head[i + 1];
      }
      SplitAllAfterHead(head[1..], rest);
      assert [head[0]] + head[1..] == head;
    } else {
      assert head + "." + rest == ['.'] + rest;
      assert (['.'] + rest)[1..] == rest;
    }
  }

  /** Two dot-free, non-empty segments joined by one dot split back into the two. */
  lemma SplitTwoSegments(a: string, b: string)
    requires '.' !in a && '.' !in b && b != ""
    ensures Split(a + "." + b) == [a, b]
  {
    SplitAllAfterHead(a, b);
    SplitAllNoDot(b);
    assert (a + "." + b)[|a|] == '.';
  }

  /** The example's paths split into their segments. */
  lemma ExamplePaths()
    ensures Split("id") == ["id"] && Split("category") == ["category"]
    ensures Split("category.name") == ["category", "name"]
    ensures Split("flag.1") == ["flag", "1"]
  {
    assert forall i :: 0 <= i < |"category"| ==> "category"[i] != '.';
    assert forall i :: 0 <= i < |"name"| ==> "name"[i] != '.';
    assert forall i :: 0 <= i < |"flag"| ==> "flag"[i] != '.';
    assert forall i :: 0 <= i < |"id"| ==> "id"[i] != '.';
    assert "category.name" == "category" + "." + "name";
    assert "flag.1" == "flag" + "." + "1";
    SplitTwoSegments("category", "name");
    SplitTwoSegments("flag", "1");
  }

  function ExampleCategory(): Json {
    Obj([("id", Num(10)), ("name", Str("category name"))])
  }

  lemma ExampleTopSteps()
    ensures Step(Example(), "id") == Num(1)
    ensures Step(Example(), "category") == ExampleCategory()
    ensures Step(Example(), "flag") == Arr([Str("flag1"), Str("flag2")])
  {
    var ms := Example().members;
    assert |ms[0].0| != |"category"| && |ms[1].0| != |"category"| && |ms[0].0| != |"flag"|;
    assert Member(ms[1..], "flag") == Some(Arr([Str("flag1"), Str("flag2")]));
    assert Member(ms[2..], "category") == Some(ExampleCategory());
    assert Member(ms[1..], "category") == Some(ExampleCategory());
  }

  lemma ExampleInnerSteps()
    ensures Step(ExampleCategory(), "id") == Num(10)
    ensures Step(ExampleCategory(), "name") == Str("category name")
  {
    var cs := ExampleCategory().members;
    assert |cs[0].0| != |"name"|;
    assert Member(cs[1..], "name") == Some(Str("category name"));
  }

  lemma ExampleFlagStep()
    ensures Step(Arr([Str("flag1"), Str("flag2")]), "1") == Str("flag2")
  {
    DecimalRadix("1");
    assert Decode("1") == Some(1);
  }

  /** Walking a path to a value that is not null and not the word "null" makes opt return
      that value. */
  lemma OptReaches(v: Json, path: string, target: Json)
    requires Walk(v, Split(path)) == target
    requires target != Null && !(target.Str? && IsNullWord(target.s))
    ensures OptSpec(JsonUtils(Some(v)), Some(path), None) == Some(target)
  {
    RemoveNullReplaces(Some(target), None);
  }

  lemma WalkTop()
    ensures Walk(Example(), ["id"]) == Num(1)
    ensures Walk(Example(), ["category"]) == ExampleCategory()
  {
    ExampleTopSteps();
    assert ["id"][1..] == [] && ["category"][1..] == [];
    assert Walk(Example(), ["id"]) == Walk(Num(1), []);
    assert Walk(Example(), ["category"]) == Walk(ExampleCategory(), []);
  }

  /** On {'id':1, 'flag':['flag1','flag2'], 'category':{'id':10,'name':'category name'}},
      "id" gives 1. */
  lemma ExampleId()
    ensures OptSpec(JsonUtils(Some(Example())), Some("id"), None) == Some(Num(1))
  {
    ExamplePaths();
    WalkTop();
    OptReaches(Example(), "id", Num(1));
  }

  /** "category" gives the inner object. */
  lemma ExampleCategoryObject()
    ensures OptSpec(JsonUtils(Some(Example())), Some("category"), None) == Some(ExampleCategory())
  {
    ExamplePaths();
    WalkTop();
    OptReaches(Example(), "category", ExampleCategory());
  }

  /** The inner object wrapped again by valueOf and asked for "id" gives 10. */
  lemma ExampleNested()
    ensures OptSpec(ValueOf(OptSpec(JsonUtils(Some(Example())), Some("category"), None)), Some("id"), None) == Some(Num(10))
  {
    ExampleCategoryObject();
    assert Walk(ExampleCategory(), Split("id")) == Num(10) by {
      ExamplePaths();
      ExampleInnerSteps();
      assert Walk(ExampleCategory(), ["id"]) == Walk(Num(10), []);
    }
    OptReaches(ExampleCategory(), "id", Num(10));
  }

  lemma WalkCategoryName()
    ensures Walk(Example(), ["category", "name"]) == Str("category name")
  {
    ExampleTopSteps();
    ExampleInnerSteps();
    assert ["name"][1..] == [];
    assert Walk(Example(), ["category", "name"]) == Walk(ExampleCategory(), ["name"]) == Walk(Str("category name"), []);
  }

  lemma WalkFlag()
    ensures Walk(Example(), ["flag", "1"]) == Str("flag2")
  {
    ExampleTopSteps();
    ExampleFlagStep();
    var flags := Arr([Str("flag1"), Str("flag2")]);
    assert ["1"][1..] == [];
    assert Walk(Example(), ["flag", "1"]) == Walk(flags, ["1"]) == Walk(Str("flag2"), []);
  }

  /** "category.name" gives "category name". */
  lemma ExampleCategoryName()
    ensures AsString(OptSpec(JsonUtils(Some(Example())), Some("category.name"), None), Some("")) == Some("category name")
  {
    ExamplePaths();
    WalkCategoryName();
    OptReaches(Example(), "category.name", Str("category name"));
  }

  /** "flag.1" gives "flag2". */
  lemma ExampleFlag()
    ensures AsString(OptSpec(JsonUtils(Some(Example())), Some("flag.1"), None), Some("")) == Some("flag2")
  {
    ExamplePaths();
    WalkFlag();
    OptReaches(Example(), "flag.1", Str("flag2"));
  }
}
