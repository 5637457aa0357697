/**
 * The PHP string primitives the application relies on, written out so that
 * their results can be reasoned about: truthiness, bin2hex, integer-to-string
 * casts, implode/explode, trim, str_starts_with, strlen (UTF-8 bytes),
 * urlencode and http_build_query.
 */
module PhpStrings {
  import opened Wrappers

  type byte = b: int | 0 <= b < 256

  /** PHP's truthiness of a string: "" and "0" are the falsy strings. */
  predicate Truthy(s: string) {
    s != "" && s != "0"
  }

  /** array_filter($xs) on strings: the truthy entries, in their order. */
  function ArrayFilter(xs: seq<string>): (r: seq<string>)
    ensures |r| <= |xs|
    ensures forall s :: s in r <==> s in xs && Truthy(s)
    ensures (forall i :: 0 <= i < |xs| ==> Truthy(xs[i])) ==> r == xs
  {
    if xs == [] then []
    else if Truthy(xs[0]) then [xs[0]] + ArrayFilter(xs[1..])
    else ArrayFilter(xs[1..])
  }

  /** array_filter keeps order: filtering a concatenation filters each part. */
  lemma {:induction false} ArrayFilterAppend(xs: seq<string>, ys: seq<string>)
    ensures ArrayFilter(xs + ys) == ArrayFilter(xs) + ArrayFilter(ys)
  {
    if xs == [] {
      assert xs + ys == ys;
    } else {
      assert (xs + ys)[0] == xs[0] && (xs + ys)[1..] == xs[1..] + ys;
      ArrayFilterAppend(xs[1..], ys);
    }
  }

  // ---------------------------------------------------------------- hex

  predicate IsLowerHexChar(c: char) {
    '0' <= c <= '9' || 'a' <= c <= 'f'
  }

  predicate IsLowerHex(s: string) {
    forall i :: 0 <= i < |s| ==> IsLowerHexChar(s[i])
  }

  function HexDigit(n: nat): (c: char)
    requires n < 16
    ensures IsLowerHexChar(c)
  {
    if n < 10 then ('0' as int + n) as char else ('a' as int + n - 10) as char
  }

  /** bin2hex: each byte becomes two lowercase hex digits, high nibble first. */
  function Bin2Hex(bytes: seq<byte>): (r: string)
    ensures |r| == 2 * |bytes| && IsLowerHex(r)
  {
    if bytes == [] then ""
    else [HexDigit(bytes[0] / 16), HexDigit(bytes[0] % 16)] + Bin2Hex(bytes[1..])
  }

  // ---------------------------------------------------------------- integers

  function DigitChar(d: nat): char
    requires d < 10
  {
    ('0' as int + d) as char
  }

  /** The decimal form of a natural number, as PHP's (string) cast writes it. */
  function NatToString(n: nat): (r: string)
    ensures 1 <= |r|
    ensures forall i :: 0 <= i < |r| ==> '0' <= r[i] <= '9'
    ensures n < 10 <==> |r| == 1
  {
    if n < 10 then [DigitChar(n)] else NatToString(n / 10) + [DigitChar(n % 10)]
  }

  lemma {:induction false} NatToStringInjective(a: nat, b: nat)
    requires NatToString(a) == NatToString(b)
    ensures a == b
  {
    if a >= 10 && b >= 10 {
      var sa, sb := NatToString(a), NatToString(b);
      assert sa[..|sa| - 1] == NatToString(a / 10);
      assert sb[..|sb| - 1] == NatToString(b / 10);
      NatToStringInjective(a / 10, b / 10);
      assert DigitChar(a % 10) == sa[|sa| - 1] == sb[|sb| - 1] == DigitChar(b % 10);
    } else if a < 10 && b < 10 {
      assert DigitChar(a) == NatToString(a)[0] == NatToString(b)[0] == DigitChar(b);
    }
  }

  /** PHP's (string) cast of an integer. */
  function IntToString(i: int): (r: string)
    ensures 1 <= |r|
    ensures i >= 0 ==> r == NatToString(i)
  {
    if i < 0 then "-" + NatToString(-i) else NatToString(i)
  }

  // ---------------------------------------------------------------- implode / explode

  /** implode(sep, parts). */
  function Join(sep: string, parts: seq<string>): string
  {
    if |parts| == 0 then ""
    else if |parts| == 1 then parts[0]
    else parts[0] + sep + Join(sep, parts[1..])
  }

  /** explode(sep, s) for a one-character separator: the pieces between separators. */
  function Explode(sep: char, s: string): (r: seq<string>)
    ensures |r| >= 1
    ensures forall i :: 0 <= i < |r| ==> sep !in r[i]
  {
    if |s| == 0 then [""]
    else
      var rest := Explode(sep, s[1..]);
      if s[0] == sep then [""] + rest else [[s[0]] + rest[0]] + rest[1..]
  }

  /** Gluing the pieces back together gives the original string. */
  lemma {:induction false} JoinExplode(sep: char, s: string)
    ensures Join([sep], Explode(sep, s)) == s
  {
    if |s| > 0 {
      var rest := Explode(sep, s[1..]);
      JoinExplode(sep, s[1..]);
      if s[0] == sep {
        assert Explode(sep, s) == [""] + rest;
      } else {
        var r := Explode(sep, s);
        assert r == [[s[0]] + rest[0]] + rest[1..];
        if |rest| == 1 {
          assert Join([sep], r) == [s[0]] + rest[0];
        } else {
          assert r[1..] == rest[1..];
          assert Join([sep], r) == [s[0]] + rest[0] + [sep] + Join([sep], rest[1..]);
        }
        assert s == [s[0]] + s[1..];
      }
    }
  }

  lemma {:induction false} ExplodeNoSeparatorPrefix(sep: char, x: string, y: string)
    requires sep !in x
    ensures Explode(sep, x + y) == [x + Explode(sep, y)[0]] + Explode(sep, y)[1..]
  {
    if |x| > 0 {
      assert (x + y)[1..] == x[1..] + y;
      ExplodeNoSeparatorPrefix(sep, x[1..], y);
      assert [x[0]] + (x[1..] + Explode(sep, y)[0]) == x + Explode(sep, y)[0];
    } else {
      var e := Explode(sep, y);
      assert x + y == y && x + e[0] == e[0];
      assert e == [e[0]] + e[1..];
    }
  }

  /** One separator between two strings splits into the pieces of each. */
  lemma {:induction false} ExplodeAroundSeparator(sep: char, a: string, b: string)
    ensures Explode(sep, a + [sep] + b) == Explode(sep, a) + Explode(sep, b)
  {
    if a == [] {
      assert a + [sep] + b == [sep] + b;
      ExplodeCons(sep, sep, b);
    } else {
      var t := a[1..];
      var u := t + [sep] + b;
      assert a == [a[0]] + t;
      assert a + [sep] + b == [a[0]] + u;
      ExplodeAroundSeparator(sep, t, b);
      ExplodeCons(sep, a[0], u);
      ExplodeCons(sep, a[0], t);
      ConsFirstPiece(a[0], sep, Explode(sep, t), Explode(sep, b));
    }
  }

  /** The sequence step of the lemma above, kept apart from explode. */
  lemma ConsFirstPiece(c: char, sep: char, rt: seq<string>, rb: seq<string>)
    requires |rt| >= 1
    ensures (if c == sep then [""] + (rt + rb) else [[c] + (rt + rb)[0]] + (rt + rb)[1..])
         == (if c == sep then [""] + rt else [[c] + rt[0]] + rt[1..]) + rb
  {
    assert (rt + rb)[0] == rt[0] && (rt + rb)[1..] == rt[1..] + rb;
  }

  /** explode on a string with a known first character. */
  lemma ExplodeCons(sep: char, c: char, t: string)
    ensures Explode(sep, [c] + t) ==
      if c == sep then [""] + Explode(sep, t) else [[c] + Explode(sep, t)[0]] + Explode(sep, t)[1..]
  {
    assert ([c] + t)[0] == c && ([c] + t)[1..] == t;
  }

  /** Splitting a join of separator-free pieces gives back the pieces. */
  lemma {:induction false} ExplodeJoin(sep: char, parts: seq<string>)
    requires |parts| >= 1
    requires forall i :: 0 <= i < |parts| ==> sep !in parts[i]
    ensures Explode(sep, Join([sep], parts)) == parts
  {
    if |parts| == 1 {
      ExplodeNoSeparatorPrefix(sep, parts[0], "");
      assert parts[0] + "" == parts[0];
    } else {
      var tail := Join([sep], parts[1..]);
      ExplodeJoin(sep, parts[1..]);
      assert Join([sep], parts) == parts[0] + ([sep] + tail);
      ExplodeNoSeparatorPrefix(sep, parts[0], [sep] + tail);
      assert ([sep] + tail)[1..] == tail;
      var e := Explode(sep, [sep] + tail);
      assert e == [""] + parts[1..];
      assert e[0] == "" && e[1..] == parts[1..];
      assert parts[0] + e[0] == parts[0];
      assert Explode(sep, parts[0] + ([sep] + tail)) == [parts[0]] + parts[1..];
      assert parts == [parts[0]] + parts[1..];
    }
  }

  /** explode(sep, s, 2): the text before the first separator and, when there is one, everything after it. */
  function SplitOnce(sep: char, s: string): (r: (string, Option<string>))
    ensures r.1.None? ==> r.0 == s && sep !in s
    ensures r.1.Some? ==> s == r.0 + [sep] + r.1.value && sep !in r.0
  {
    if |s| == 0 then ("", None)
    else if s[0] == sep then ("", Some(s[1..]))
    else
      var rest := SplitOnce(sep, s[1..]);
      assert s == [s[0]] + s[1..];
      ([s[0]] + rest.0, rest.1)
  }

  // ---------------------------------------------------------------- trim, prefixes, length

  /** The characters PHP's trim() strips by default: space, \t, \n, \r, \0 and \x0B. */
  predicate IsTrimmable(c: char) {
    c == ' ' || c == '\t' || c == '\n' || c == '\r' || c == '\0' || c == '\U{B}'
  }

  function TrimLeft(s: string): (r: string)
    ensures |r| <= |s| && r == s[|s| - |r|..]
    ensures forall i :: 0 <= i < |s| - |r| ==> IsTrimmable(s[i])
    ensures r == [] || !IsTrimmable(r[0])
  {
    if |s| > 0 && IsTrimmable(s[0]) then TrimLeft(s[1..]) else s
  }

  function TrimRight(s: string): (r: string)
    ensures |r| <= |s| && r == s[..|r|]
    ensures forall i :: |r| <= i < |s| ==> IsTrimmable(s[i])
    ensures r == [] || !IsTrimmable(r[|r| - 1])
  {
    if |s| > 0 && IsTrimmable(s[|s| - 1]) then TrimRight(s[..|s| - 1]) else s
  }

  /** trim(s): s without its leading and trailing whitespace. */
  function Trim(s: string): (r: string)
    ensures |r| <= |s|
    ensures r == [] || (!IsTrimmable(r[0]) && !IsTrimmable(r[|r| - 1]))
    ensures r == [] <==> forall i :: 0 <= i < |s| ==> IsTrimmable(s[i])
  {
    TrimBlank(s);
    TrimRight(TrimLeft(s))
  }

  lemma TrimBlank(s: string)
    ensures TrimRight(TrimLeft(s)) == [] <==> forall i :: 0 <= i < |s| ==> IsTrimmable(s[i])
  {
    var l := TrimLeft(s);
    if TrimRight(l) == [] {
      assert l == [];
    }
  }

  /** A string without leading or trailing whitespace is left as it is. */
  lemma TrimIdentity(s: string)
    requires s == [] || (!IsTrimmable(s[0]) && !IsTrimmable(s[|s| - 1]))
    ensures Trim(s) == s
  {
  }

  predicate StartsWith(s: string, prefix: string) {
    |prefix| <= |s| && s[..|prefix|] == prefix
  }

  /** The UTF-8 encoding of one character. */
  function Utf8Encode(c: char): (r: seq<byte>)
    ensures 1 <= |r| <= 4
    ensures |r| == 1 <==> c as int < 0x80
  {
    var n := c as int;
    if n < 0x80 then [n]
    else if n < 0x800 then [0xC0 + n / 64, 0x80 + n % 64]
    else if n < 0x10000 then [0xE0 + n / 4096, 0x80 + (n / 64) % 64, 0x80 + n % 64]
    else [0xF0 + n / 262144, 0x80 + (n / 4096) % 64, 0x80 + (n / 64) % 64, 0x80 + n % 64]
  }

  /** strlen: the number of bytes in the UTF-8 encoding. */
  function Utf8Length(s: string): (n: nat)
    ensures |s| <= n <= 4 * |s|
    ensures (forall i :: 0 <= i < |s| ==> s[i] as int < 0x80) ==> n == |s|
  {
    if s == [] then 0 else |Utf8Encode(s[0])| + Utf8Length(s[1..])
  }

  // ---------------------------------------------------------------- urlencode, http_build_query

  /** Characters urlencode() leaves as they are. */
  predicate IsUnreserved(c: char) {
    'a' <= c <= 'z' || 'A' <= c <= 'Z' || '0' <= c <= '9' || c == '-' || c == '_' || c == '.'
  }

  /** Characters that can appear in urlencode()'s output. */
  predicate IsEncodedChar(c: char) {
    IsUnreserved(c) || c == '%' || c == '+'
  }

  function UpperHexDigit(n: nat): (c: char)
    requires n < 16
    ensures IsUnreserved(c)
  {
    if n < 10 then ('0' as int + n) as char else ('A' as int + n - 10) as char
  }

  function PercentEncode(bytes: seq<byte>): (r: string)
    ensures |r| == 3 * |bytes|
    ensures forall i :: 0 <= i < |r| ==> IsEncodedChar(r[i])
  {
    if bytes == [] then ""
    else ['%', UpperHexDigit(bytes[0] / 16), UpperHexDigit(bytes[0] % 16)] + PercentEncode(bytes[1..])
  }

  function UrlEncodeChar(c: char): (r: string)
    ensures forall i :: 0 <= i < |r| ==> IsEncodedChar(r[i])
  {
    if IsUnreserved(c) then [c] else if c == ' ' then "+" else PercentEncode(Utf8Encode(c))
  }

  /**
   * urlencode(s): letters, digits and "-_." are kept, a space becomes "+",
   * every other byte of the UTF-8 encoding becomes "%XX".
   */
  function UrlEncode(s: string): (r: string)
    ensures forall i :: 0 <= i < |r| ==> IsEncodedChar(r[i])
  {
    if s == [] then "" else UrlEncodeChar(s[0]) + UrlEncode(s[1..])
  }

  /** A string made only of unreserved characters is its own encoding. */
  lemma {:induction false} UrlEncodeUnreserved(s: string)
    requires forall i :: 0 <= i < |s| ==> IsUnreserved(s[i])
    ensures UrlEncode(s) == s
  {
    if s != [] {
      UrlEncodeUnreserved(s[1..]);
      assert s == [s[0]] + s[1..];
    }
  }

  function QueryPair(p: (string, string)): string {
    UrlEncode(p.0) + "=" + UrlEncode(p.1)
  }

  function QueryPairs(params: seq<(string, string)>): (r: seq<string>)
    ensures |r| == |params|
    ensures forall i :: 0 <= i < |r| ==> r[i] == QueryPair(params[i])
  {
    if params == [] then [] else [QueryPair(params[0])] + QueryPairs(params[1..])
  }

  /** http_build_query(params) for string values, in the order given. */
  function BuildQuery(params: seq<(string, string)>): string {
    Join("&", QueryPairs(params))
  }

  /**
   * The query splits back at "&" into one field per parameter, in order, and
   * each field splits at its first "=" into the encoded name and value.
   */
  lemma QueryFields(params: seq<(string, string)>)
    requires |params| >= 1
    ensures |Explode('&', BuildQuery(params))| == |params|
    ensures forall i :: 0 <= i < |params| ==>
      SplitOnce('=', Explode('&', BuildQuery(params))[i]) == (UrlEncode(params[i].0), Some(UrlEncode(params[i].1)))
  {
    var pairs := QueryPairs(params);
    forall i | 0 <= i < |pairs| ensures '&' !in pairs[i] {
      var k, v := UrlEncode(params[i].0), UrlEncode(params[i].1);
      assert pairs[i] == k + "=" + v;
      EncodedPairChars(k, v);
    }
    ExplodeJoin('&', pairs);
    forall i | 0 <= i < |params|
      ensures SplitOnce('=', pairs[i]) == (UrlEncode(params[i].0), Some(UrlEncode(params[i].1)))
    {
      var k, v := UrlEncode(params[i].0), UrlEncode(params[i].1);
      EncodedPairChars(k, v);
      SplitAtFirst('=', k, v);
      assert pairs[i] == k + ['='] + v;
    }
  }

  lemma EncodedPairChars(k: string, v: string)
    requires forall j :: 0 <= j < |k| ==> IsEncodedChar(k[j])
    requires forall j :: 0 <= j < |v| ==> IsEncodedChar(v[j])
    ensures '&' !in k + "=" + v && '=' !in k
  {
    var p := k + "=" + v;
    forall j | 0 <= j < |p| ensures p[j] != '&' {
      if j < |k| { assert p[j] == k[j]; } else if j > |k| { assert p[j] == v[j - |k| - 1]; }
    }
  }

  lemma {:induction false} SplitAtFirst(sep: char, x: string, y: string)
    requires sep !in x
    ensures SplitOnce(sep, x + [sep] + y) == (x, Some(y))
  {
    if |x| > 0 {
      SplitAtFirst(sep, x[1..], y);
      assert (x + [sep] + y)[1..] == x[1..] + [sep] + y;
      assert [x[0]] + x[1..] == x;
    } else {
      assert x + [sep] + y == [sep] + y;
    }
  }
}
