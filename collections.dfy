/** Collections.deepToString: a collection of name/value pairs rendered as a query string,
    `name=value` pairs joined by '&' in iteration order. */
module Collections {
  import opened Wrappers
  import opened JavaLang

  /** An HTTP name/value pair; either part may be null. */
  datatype NameValuePair = NameValuePair(name: Option<string>, value: Option<string>)

  /** One pair as string concatenation renders it: null parts become "null". */
  function Render(p: NameValuePair): string {
    NullText(p.name) + "=" + NullText(p.value)
  }

  /** The rendered pairs joined by '&', in order. */
  function Joined(ps: seq<NameValuePair>): string {
    if |ps| == 0 then ""
    else if |ps| == 1 then Render(ps[0])
    else Joined(ps[..|ps| - 1]) + "&" + Render(ps[|ps| - 1])
  }

  /** What the loop's buffer holds after the first pairs: each pair preceded by '&'. */
  function Prefixed(ps: seq<NameValuePair>): string {
    if ps == [] then ""
    else Prefixed(ps[..|ps| - 1]) + "&" + NullText(ps[|ps| - 1].name) + "=" + NullText(ps[|ps| - 1].value)
  }

  /** The buffer is '&' followed by the joined pairs, so dropping its first character
      leaves exactly the joined pairs. */
  lemma {:induction false} PrefixedIsJoined(ps: seq<NameValuePair>)
    requires ps != []
    ensures Prefixed(ps) == "&" + Joined(ps)
  {
    var last := ps[|ps| - 1];
    var n, v := NullText(last.name), NullText(last.value);
    if |ps| > 1 {
      var init := ps[..|ps| - 1];
      PrefixedIsJoined(init);
      Regroup("&", Joined(init), "&", n, "=", v);
    } else {
      assert ps[..0] == [];
      Regroup([], [], "&", n, "=", v);
    }
  }

  /** The same five pieces, grouped as the loop appends them and as Joined renders them. */
  lemma Regroup(a: string, j: string, amp: string, n: string, eq: string, v: string)
    ensures a + j + amp + n + eq + v == a + (j + amp + (n + eq + v))
  {
  }

  /** One more pair extends the buffer by '&' and that pair. */
  lemma PrefixedSnoc(ps: seq<NameValuePair>, i: nat)
    requires i < |ps|
    ensures Prefixed(ps[..i + 1]) == Prefixed(ps[..i]) + "&" + NullText(ps[i].name) + "=" + NullText(ps[i].value)
  {
    assert ps[..i + 1][..i] == ps[..i];
  }

  /** deepToString: "" for a null or empty collection; otherwise append '&', the name, '='
      and the value for each pair, and drop the leading '&'. */
  method DeepToString(params: Option<seq<NameValuePair>>) returns (r: string)
    ensures params.None? ==> r == ""
    ensures params.Some? ==> r == Joined(params.value)
  {
    if params.None? || |params.value| < 1 {
      return "";
    }
    var ps := params.value;
    var buffer := "";
    for i := 0 to |ps|
      invariant buffer == Prefixed(ps[..i])
    {
      PrefixedSnoc(ps, i);
      buffer := buffer + "&";
      buffer := buffer + NullText(ps[i].name);
      buffer := buffer + "=";
      buffer := buffer + NullText(ps[i].value);
    }
    assert ps[..|ps|] == ps;
    PrefixedIsJoined(ps);
    assert buffer == "&" + Joined(ps);
    r := buffer[1..];
  }

  /** The joined text starts with the first pair and ends with the last, and a single pair
      gives exactly name=value; the leading separator the loop adds is never part of it. */
  lemma {:induction false} JoinedEnds(ps: seq<NameValuePair>)
    requires ps != []
    ensures var j := Joined(ps);
      && |Render(ps[0])| <= |j| && j[..|Render(ps[0])|] == Render(ps[0])
      && |Render(ps[|ps| - 1])| <= |j| && j[|j| - |Render(ps[|ps| - 1])|..] == Render(ps[|ps| - 1])
    ensures |ps| == 1 ==> Joined(ps) == NullText(ps[0].name) + "=" + NullText(ps[0].value)
  {
    if |ps| > 1 {
      var init := ps[..|ps| - 1];
      JoinedEnds(init);
      assert init[0] == ps[0];
      var j := Joined(ps);
      assert j == Joined(init) + "&" + Render(ps[|ps| - 1]);
      assert j[..|Render(ps[0])|] == Joined(init)[..|Render(ps[0])|];
    }
  }

  /** Each pair contributes its rendering and one '&' separates consecutive pairs, so the
      length is the sum of the renderings plus one less than the number of pairs. */
  lemma {:induction false} JoinedLength(ps: seq<NameValuePair>)
    requires ps != []
    ensures |Joined(ps)| == RenderedLength(ps) + |ps| - 1
  {
    if |ps| > 1 {
      JoinedLength(ps[..|ps| - 1]);
    }
  }

  function RenderedLength(ps: seq<NameValuePair>): nat {
    if ps == [] then 0 else RenderedLength(ps[..|ps| - 1]) + |Render(ps[|ps| - 1])|
  }

  /** The example of a two-pair query. */
  lemma DeepToStringExample()
    ensures Joined([NameValuePair(Some("a"), Some("1")), NameValuePair(Some("b"), None)]) == "a=1&b=null"
  {
    var ps := [NameValuePair(Some("a"), Some("1")), NameValuePair(Some("b"), None)];
    assert ps[..1] == [ps[0]];
  }
}
