/** The few string operations of Python that the sync script relies on: the fixed
    regular expressions `^# `, `^```` and `^##+` (all prefix tests), `in` on strings,
    `str.count`, `str.rstrip`, `str.replace('# ', '')`, `re.sub(r"^##+ ", "", ...)`
    and the `str()` of a list of strings. */
module Strings {

  /** `s.startswith(p)` */
  predicate StartsWith(s: string, p: string)
  {
    |p| <= |s| && s[..|p|] == p
  }

  /** `s.startswith(prefixes)` for a tuple of prefixes: true when any of them matches
      (false for the empty tuple). */
  predicate StartsWithAny(s: string, prefixes: seq<string>)
  {
    exists k :: 0 <= k < |prefixes| && StartsWith(s, prefixes[k])
  }

  /** `sub` occurs in `s` starting at index `i`. */
  predicate OccursAt(s: string, sub: string, i: nat)
  {
    i + |sub| <= |s| && s[i..i + |sub|] == sub
  }

  /** `sub in s` */
  predicate Contains(s: string, sub: string)
  {
    exists i: nat :: i <= |s| && OccursAt(s, sub, i)
  }

  /** `s.count(c)` for a one-character argument. */
  function CountChar(s: string, c: char): (n: nat)
    ensures n <= |s|
  {
    if s == [] then 0 else (if s[0] == c then 1 else 0) + CountChar(s[1..], c)
  }

  lemma {:induction false} CountCharAppend(a: string, b: string, c: char)
    ensures CountChar(a + b, c) == CountChar(a, c) + CountChar(b, c)
  {
    if a == [] {
      assert a + b == b;
    } else {
      assert (a + b)[1..] == a[1..] + b;
      CountCharAppend(a[1..], b, c);
    }
  }

  /** A character that does not occur is counted zero times. */
  lemma {:induction false} CountCharAbsent(s: string, c: char)
    requires c !in s
    ensures CountChar(s, c) == 0
  {
    if s != [] {
      assert forall i :: 0 <= i < |s[1..]| ==> s[1..][i] == s[i + 1];
      CountCharAbsent(s[1..], c);
    }
  }

  /** The characters for which Python's `str.isspace()` holds, which `str.rstrip()`
      removes. */
  predicate IsSpace(c: char)
  {
    c == ' ' || ('\t' <= c <= '\r') || ('\U{1C}' <= c <= '\U{1F}') || c == '\U{85}'
    || c == '\U{A0}' || c == '\U{1680}' || ('\U{2000}' <= c <= '\U{200A}')
    || c == '\U{2028}' || c == '\U{2029}' || c == '\U{202F}' || c == '\U{205F}'
    || c == '\U{3000}'
  }

  /** `s.rstrip()`: the longest prefix of `s` that does not end in whitespace. */
  function RStrip(s: string): (r: string)
    ensures |r| <= |s| && r == s[..|r|]
    ensures r == [] || !IsSpace(r[|r| - 1])
    ensures forall i :: |r| <= i < |s| ==> IsSpace(s[i])
  {
    if s == [] || !IsSpace(s[|s| - 1]) then s else RStrip(s[..|s| - 1])
  }

  /** `s.replace('# ', '')`: every occurrence of the two characters `# `, found from
      left to right without overlap, is removed. */
  function RemoveHashSpace(s: string): (r: string)
    ensures |r| <= |s|
  {
    if |s| >= 2 && s[0] == '#' && s[1] == ' ' then RemoveHashSpace(s[2..])
    else if s == [] then []
    else [s[0]] + RemoveHashSpace(s[1..])
  }

  /** A text in which `#` is never followed by a space is left as it is. */
  lemma {:induction false} RemoveHashSpaceNone(s: string)
    requires forall i :: 0 <= i < |s| - 1 ==> !(s[i] == '#' && s[i + 1] == ' ')
    ensures RemoveHashSpace(s) == s
  {
    if s != [] {
      var t := s[1..];
      assert forall i :: 0 <= i < |t| ==> t[i] == s[i + 1];
      RemoveHashSpaceNone(t);
      assert [s[0]] + t == s;
    }
  }

  /** The marker of a header line goes: `# ` followed by a text with no `# ` in it
      gives that text. */
  lemma RemoveHashSpaceHeader(s: string)
    requires forall i :: 0 <= i < |s| - 1 ==> !(s[i] == '#' && s[i + 1] == ' ')
    ensures RemoveHashSpace("# " + s) == s
  {
    var h := "# " + s;
    assert h[2..] == s;
    RemoveHashSpaceNone(s);
  }

  /** The number of `#` characters a string starts with. */
  function LeadingHashes(s: string): (n: nat)
    ensures n <= |s|
    ensures forall i :: 0 <= i < n ==> s[i] == '#'
    ensures n < |s| ==> s[n] != '#'
  {
    if s != [] && s[0] == '#' then 1 + LeadingHashes(s[1..]) else 0
  }

  /** `re.sub(r"^##+ ", "", s)`: two or more `#` followed by a space are removed from
      the front; anything else is left as it is. */
  function StripSubheaderMarker(s: string): (r: string)
    ensures |r| <= |s| && r == s[|s| - |r|..]
    ensures r != s <==> (LeadingHashes(s) >= 2 && LeadingHashes(s) < |s| && s[LeadingHashes(s)] == ' ')
    ensures r != s ==> r == s[LeadingHashes(s) + 1..]
  {
    var n := LeadingHashes(s);
    if n >= 2 && n < |s| && s[n] == ' ' then s[n + 1..] else s
  }

  /** The items of the list, each between single quotes, separated by `, `. */
  function QuotedItems(items: seq<string>): string
  {
    if items == [] then ""
    else if |items| == 1 then "'" + items[0] + "'"
    else QuotedItems(items[..|items| - 1]) + ", '" + items[|items| - 1] + "'"
  }

  /** `str(items)` for a list of strings, with every item in single quotes. */
  function ListRepr(items: seq<string>): string
  {
    "[" + QuotedItems(items) + "]"
  }

}
