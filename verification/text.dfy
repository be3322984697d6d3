/** String helpers: prefixes, substring search, last segment, decimal digits, URI encoding. */
module Text {

  /** `p` occurs in `s` starting at index `i`. */
  predicate HasAt(s: string, i: int, p: string)
  {
    0 <= i && i + |p| <= |s| && s[i..i + |p|] == p
  }

  /** `s.startsWith(p)`. */
  predicate StartsWith(s: string, p: string)
  {
    HasAt(s, 0, p)
  }

  /** `s.includes(p)`, scanning from the left. */
  predicate Contains(s: string, p: string)
    decreases |s|
  {
    StartsWith(s, p) || (s != [] && Contains(s[1..], p))
  }

  lemma {:induction false} ContainsAt(s: string, i: nat, p: string)
    requires HasAt(s, i, p)
    ensures Contains(s, p)
    decreases i
  {
    if i > 0 {
      assert s[1..][i - 1..i - 1 + |p|] == s[i..i + |p|];
      ContainsAt(s[1..], i - 1, p);
    }
  }

  lemma {:induction false} ContainsWitness(s: string, p: string)
    requires Contains(s, p)
    ensures exists i :: HasAt(s, i, p)
    decreases |s|
  {
    if !StartsWith(s, p) {
      ContainsWitness(s[1..], p);
      var i :| HasAt(s[1..], i, p);
      assert s[i + 1..i + 1 + |p|] == s[1..][i..i + |p|];
      assert HasAt(s, i + 1, p);
    }
  }

  /** `s.includes(p)` holds exactly when `p` occurs at some index of `s`. */
  lemma ContainsIff(s: string, p: string)
    ensures Contains(s, p) <==> exists i :: HasAt(s, i, p)
  {
    if Contains(s, p) {
      ContainsWitness(s, p);
    }
    if exists i :: HasAt(s, i, p) {
      var i :| HasAt(s, i, p);
      ContainsAt(s, i, p);
    }
  }

  /** A string contains each piece it is built from. */
  lemma ContainsMiddle(a: string, p: string, b: string)
    ensures Contains(a + p + b, p)
  {
    var s := a + p + b;
    assert s[|a|..|a| + |p|] == p;
    ContainsAt(s, |a|, p);
  }

  /** An occurrence inside a prefix is an occurrence in the whole string. */
  lemma ContainsInPrefix(a: string, b: string, p: string)
    requires Contains(a, p)
    ensures Contains(a + b, p)
  {
    ContainsWitness(a, p);
    var i :| HasAt(a, i, p);
    assert (a + b)[i..i + |p|] == a[i..i + |p|];
    ContainsAt(a + b, i, p);
  }

  /**
   * `s.split(sep).pop()`: the text after the last `sep`, or the whole of `s`
   * when `sep` does not occur. It is the longest suffix of `s` free of `sep`.
   */
  function LastSegment(s: string, sep: char): (r: string)
    ensures sep !in r
    ensures |r| <= |s| && r == s[|s| - |r|..]
    ensures |r| < |s| ==> s[|s| - |r| - 1] == sep
    ensures sep !in s ==> r == s
  {
    if s == [] then []
    else if s[|s| - 1] == sep then []
    else
      var t := LastSegment(s[..|s| - 1], sep);
      assert s[..|s| - 1][|s| - 1 - |t|..] + [s[|s| - 1]] == s[|s| - 1 - |t|..];
      t + [s[|s| - 1]]
  }

  /** Whatever precedes a final `sep` does not affect the last segment. */
  lemma {:induction false} LastSegmentAfter(prefix: string, sep: char, name: string)
    requires sep !in name
    ensures LastSegment(prefix + [sep] + name, sep) == name
  {
    var s := prefix + [sep] + name;
    var r := LastSegment(s, sep);
    assert s[|s| - |name|..] == name;
    assert s[|s| - |name| - 1] == sep;
    assert forall k :: |s| - |name| <= k < |s| ==> s[k] in name;
    assert forall k :: |s| - |r| <= k < |s| ==> s[k] in r;
  }

  /** `s.substring(0, n)`. */
  function Take(s: string, n: nat): (r: string)
    ensures |r| == if |s| <= n then |s| else n
    ensures r <= s
  {
    if |s| <= n then s else s[..n]
  }

  predicate IsDigit(c: char)
  {
    '0' <= c <= '9'
  }

  /** Decimal rendering of a natural number, as `String(n)` gives it. */
  function Decimal(n: nat): (r: string)
    ensures r != []
    ensures forall c :: c in r ==> IsDigit(c)
  {
    var d := [(n % 10) as char + '0'];
    if n < 10 then d else Decimal(n / 10) + d
  }

  /** Characters `encodeURIComponent` leaves as they are (ECMAScript's uriUnreserved set). */
  predicate IsUnreserved(c: char)
  {
    ('A' <= c <= 'Z') || ('a' <= c <= 'z') || IsDigit(c)
    || c in {'-', '_', '.', '!', '~', '*', '\'', '(', ')'}
  }

  predicate IsUpperHex(c: char)
  {
    IsDigit(c) || ('A' <= c <= 'F')
  }

  function HexDigit(d: nat): (c: char)
    requires d < 16
    ensures IsUpperHex(c)
  {
    if d < 10 then (d as char) + '0' else ((d - 10) as char) + 'A'
  }

  /** The UTF-8 bytes of one Unicode scalar value. */
  function Utf8(c: char): (bytes: seq<nat>)
    ensures 1 <= |bytes| <= 4
    ensures forall i :: 0 <= i < |bytes| ==> bytes[i] < 256
  {
    var cp := c as int;
    if cp < 0x80 then [cp]
    else if cp < 0x800 then [0xC0 + cp / 0x40, 0x80 + cp % 0x40]
    else if cp < 0x1_0000 then [0xE0 + cp / 0x1000, 0x80 + (cp / 0x40) % 0x40, 0x80 + cp % 0x40]
    else [0xF0 + cp / 0x4_0000, 0x80 + (cp / 0x1000) % 0x40, 0x80 + (cp / 0x40) % 0x40, 0x80 + cp % 0x40]
  }

  /** `%XX` for each byte, with upper-case hexadecimal digits. */
  function PercentBytes(bytes: seq<nat>): (r: string)
    requires forall i :: 0 <= i < |bytes| ==> bytes[i] < 256
    ensures |r| == 3 * |bytes|
    ensures forall i :: 0 <= i < |r| ==> (r[i] == '%' <==> i % 3 == 0)
    ensures forall c :: c in r ==> c == '%' || IsUpperHex(c)
  {
    if bytes == [] then []
    else ['%', HexDigit(bytes[0] / 16), HexDigit(bytes[0] % 16)] + PercentBytes(bytes[1..])
  }

  /** A character the output of `encodeURIComponent` may contain. */
  predicate IsUriSafe(c: char)
  {
    IsUnreserved(c) || c == '%'
  }

  /**
   * `encodeURIComponent(s)`: unreserved characters are copied, every other
   * character becomes the percent-escapes of its UTF-8 bytes.
   */
  function EncodeUriComponent(s: string): (r: string)
    ensures forall c :: c in r ==> IsUriSafe(c)
    ensures (forall c :: c in s ==> IsUnreserved(c)) ==> r == s
    ensures |s| <= |r|
  {
    if s == [] then []
    else
      var head := if IsUnreserved(s[0]) then [s[0]] else PercentBytes(Utf8(s[0]));
      assert forall c :: c in head ==> IsUriSafe(c);
      head + EncodeUriComponent(s[1..])
  }
}
