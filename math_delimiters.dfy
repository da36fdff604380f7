/** The inline-math rewrite the script applies to every body line of a section
    (joplin-anki-sync.py, lines 154-166): in a line holding a positive, even number of
    `$`, the dollars are replaced in turn by the opening marker `[$]` and the closing
    marker `[/$]`; every other line is kept as it is. */
module MathDelimiters {

  import opened Strings

  const Open: string := "[$]"
  const Close: string := "[/$]"

  /** The text `s` with each `$` replaced by a marker, starting with the closing one
      when `inFormula` holds and alternating afterwards. */
  function Delimit(s: string, inFormula: bool): string
  {
    if s == [] then []
    else if s[0] != '$' then [s[0]] + Delimit(s[1..], inFormula)
    else (if inFormula then Close else Open) + Delimit(s[1..], !inFormula)
  }

  /** The line as it is appended to a section's content. */
  function RewriteMath(line: string): (r: string)
    ensures CountChar(line, '$') % 2 == 1 ==> r == line
    ensures CountChar(line, '$') == 0 ==> r == line
  {
    var n := CountChar(line, '$');
    if n > 0 && n % 2 == 0 then Delimit(line, false) else line
  }

  /** The loop of lines 155-166: characters other than `$` are copied, and each `$`
      becomes the marker chosen by the `in_formula` flag, which it then flips. */
  method RewriteLine(line: string) returns (r: string)
    ensures r == RewriteMath(line)
  {
    var n := CountChar(line, '$');
    if !(n > 0 && n % 2 == 0) {
      return line;
    }
    var builder: string := [];
    var inFormula := false;
    var i := 0;
    while i < |line|
      invariant 0 <= i <= |line|
      invariant builder + Delimit(line[i..], inFormula) == Delimit(line, false)
    {
      assert line[i..][1..] == line[i + 1..];
      if line[i] != '$' {
        builder := builder + [line[i]];
      } else {
        if inFormula {
          builder := builder + Close;
        } else {
          builder := builder + Open;
        }
        inFormula := !inFormula;
      }
      i := i + 1;
    }
    assert line[i..] == [];
    r := builder;
  }

  /** Removes the markers again: `[$]` and `[/$]` each give back one `$`. */
  function Undelimit(t: string): string
  {
    if t == [] then []
    else if StartsWith(t, Open) then "$" + Undelimit(t[3..])
    else if StartsWith(t, Close) then "$" + Undelimit(t[4..])
    else [t[0]] + Undelimit(t[1..])
  }

  /** A rewritten text never starts with a `$`, nor with `/$`: every `$` in it stands
      right after the `[` or the `/` of its marker. */
  lemma {:induction false} DelimitHead(s: string, inFormula: bool)
    ensures var t := Delimit(s, inFormula);
      t != [] ==> t[0] != '$' && (t[0] == '/' ==> |t| == 1 || t[1] != '$')
  {
    if s != [] && s[0] == '/' {
      DelimitHead(s[1..], inFormula);
    }
  }

  /** The markers can be removed again without loss: the rewrite is invertible. */
  lemma {:induction false} DelimitRoundTrip(s: string, inFormula: bool)
    ensures Undelimit(Delimit(s, inFormula)) == s
  {
    if s == [] {
    } else if s[0] != '$' {
      var rest := Delimit(s[1..], inFormula);
      var t := [s[0]] + rest;
      DelimitHead(s[1..], inFormula);
      assert t[1..] == rest;
      assert |t| >= 3 ==> t[1] == rest[0] && t[2] == rest[1];
      assert !StartsWith(t, Open) && !StartsWith(t, Close);
      DelimitRoundTrip(s[1..], inFormula);
    } else {
      var m := if inFormula then Close else Open;
      var rest := Delimit(s[1..], !inFormula);
      var t := m + rest;
      assert t == Delimit(s, inFormula);
      if inFormula {
        assert t[1] == '/';
        assert StartsWith(t, Close) && t[4..] == rest;
      } else {
        assert StartsWith(t, Open) && t[3..] == rest;
      }
      assert Undelimit(t) == "$" + Undelimit(rest);
      DelimitRoundTrip(s[1..], !inFormula);
      assert "$" + s[1..] == s;
    }
  }

  /** A rewritten line gives the original back once its markers are removed. */
  lemma {:induction false} RewriteRoundTrip(line: string)
    requires CountChar(line, '$') > 0 && CountChar(line, '$') % 2 == 0
    ensures RewriteMath(line) != line
    ensures Undelimit(RewriteMath(line)) == line
  {
    DelimitRoundTrip(line, false);
    DelimitLength(line, false);
  }

  /** The rewrite keeps the number of `$`; each opening marker adds two characters and
      each closing one three. */
  lemma {:induction false} DelimitLength(s: string, inFormula: bool)
    ensures CountChar(Delimit(s, inFormula), '$') == CountChar(s, '$')
    ensures var n := CountChar(s, '$');
      |Delimit(s, inFormula)| == |s| + 2 * n + (if inFormula then (n + 1) / 2 else n / 2)
  {
    if s == [] {
    } else if s[0] != '$' {
      DelimitLength(s[1..], inFormula);
      assert ([s[0]] + Delimit(s[1..], inFormula))[1..] == Delimit(s[1..], inFormula);
    } else {
      var m := if inFormula then Close else Open;
      DelimitLength(s[1..], !inFormula);
      CountCharAppend(m, Delimit(s[1..], !inFormula), '$');
    }
  }

  /** A line with `2k` dollars grows by `5k` characters. */
  lemma {:induction false} RewriteLength(line: string)
    requires CountChar(line, '$') > 0 && CountChar(line, '$') % 2 == 0
    ensures CountChar(RewriteMath(line), '$') == CountChar(line, '$')
    ensures |RewriteMath(line)| == |line| + 5 * (CountChar(line, '$') / 2)
  {
    DelimitLength(line, false);
  }

  /** The flag after `n` flips. */
  function Flipped(inFormula: bool, n: nat): bool
  {
    if n % 2 == 0 then inFormula else !inFormula
  }

  /** The rewrite of a text that starts with the character `c`. */
  lemma {:induction false} DelimitCons(c: char, s: string, inFormula: bool)
    ensures Delimit([c] + s, inFormula)
      == (if c != '$' then [c] else if inFormula then Close else Open)
         + Delimit(s, if c == '$' then !inFormula else inFormula)
  {
    assert ([c] + s)[1..] == s;
  }

  /** Rewriting a concatenation: the second part continues with the flag the first part
      leaves behind, flipped once per `$` of the first part. */
  lemma {:induction false} DelimitSplit(a: string, b: string, inFormula: bool)
    ensures Delimit(a + b, inFormula) == Delimit(a, inFormula) + Delimit(b, Flipped(inFormula, CountChar(a, '$')))
  {
    if a == [] {
      assert a + b == b;
    } else {
      var c, t := a[0], a[1..];
      var next := if c == '$' then !inFormula else inFormula;
      DelimitSplit(t, b, next);
      DelimitSplitStep(c, t, b, inFormula, Flipped(next, CountChar(t, '$')));
      assert a == [c] + t;
      assert a + b == [c] + (t + b);
    }
  }

  /** One step of the induction of `DelimitSplit`. */
  lemma {:induction false} DelimitSplitStep(c: char, t: string, b: string, inFormula: bool, after: bool)
    requires var next := if c == '$' then !inFormula else inFormula;
      Delimit(t + b, next) == Delimit(t, next) + Delimit(b, after) && after == Flipped(next, CountChar(t, '$'))
    ensures after == Flipped(inFormula, CountChar([c] + t, '$'))
    ensures Delimit([c] + (t + b), inFormula) == Delimit([c] + t, inFormula) + Delimit(b, after)
  {
    DelimitCons(c, t + b, inFormula);
    DelimitCons(c, t, inFormula);
    assert ([c] + t)[1..] == t;
  }

  /** The position-by-position reading of the rewrite, for a `$`: in a line that is
      rewritten, a `$` with an even number of dollars before it (the 1st, 3rd, ...) becomes
      `[$]` and one with an odd number before it (the 2nd, 4th, ...) becomes `[/$]`. */
  lemma {:induction false} RewriteAtDollar(line: string, i: nat)
    requires CountChar(line, '$') > 0 && CountChar(line, '$') % 2 == 0
    requires i < |line| && line[i] == '$'
    ensures var k := CountChar(line[..i], '$');
      RewriteMath(line)
      == Delimit(line[..i], false) + (if k % 2 == 0 then Open else Close) + Delimit(line[i + 1..], k % 2 == 0)
  {
    var rest := line[i..];
    assert line == line[..i] + rest;
    DelimitSplit(line[..i], rest, false);
    assert rest[0] == '$' && rest[1..] == line[i + 1..];
  }

  /** The same reading for any other character: it is copied, in its place. */
  lemma {:induction false} RewriteAtOther(line: string, i: nat)
    requires CountChar(line, '$') > 0 && CountChar(line, '$') % 2 == 0
    requires i < |line| && line[i] != '$'
    ensures var k := CountChar(line[..i], '$');
      RewriteMath(line) == Delimit(line[..i], false) + [line[i]] + Delimit(line[i + 1..], k % 2 == 1)
  {
    var rest := line[i..];
    assert line == line[..i] + rest;
    DelimitSplit(line[..i], rest, false);
    assert rest[0] == line[i] && rest[1..] == line[i + 1..];
  }

  /** A prefix free of `$` and `[` is seen through the rewrite: the rewritten text starts
      with it exactly when the original does. */
  lemma {:induction false} DelimitPrefix(s: string, inFormula: bool, p: string)
    requires forall i :: 0 <= i < |p| ==> p[i] != '$' && p[i] != '['
    ensures StartsWith(Delimit(s, inFormula), p) <==> StartsWith(s, p)
  {
    if p != [] && s != [] {
      var t := Delimit(s, inFormula);
      if s[0] != '$' {
        var rest := Delimit(s[1..], inFormula);
        assert t == [s[0]] + rest;
        DelimitPrefix(s[1..], inFormula, p[1..]);
        assert StartsWith(t, p) <==> t[0] == p[0] && StartsWith(rest, p[1..]) by {
          if |p| <= |t| {
            assert t[..|p|] == [t[0]] + rest[..|p| - 1];
            assert p == [p[0]] + p[1..];
          }
        }
        assert StartsWith(s, p) <==> s[0] == p[0] && StartsWith(s[1..], p[1..]) by {
          if |p| <= |s| {
            assert s[..|p|] == [s[0]] + s[1..][..|p| - 1];
            assert p == [p[0]] + p[1..];
          }
        }
      } else {
        assert t[0] == '[' && p[0] != '[' && p[0] != '$';
        assert |p| <= |t| ==> t[..|p|][0] == t[0];
        assert |p| <= |s| ==> s[..|p|][0] == s[0];
      }
    }
  }

  /** The header tests of the scan read the same on a line and on its rewritten form. */
  lemma {:induction false} RewritePrefix(line: string, p: string)
    requires forall i :: 0 <= i < |p| ==> p[i] != '$' && p[i] != '['
    ensures StartsWith(RewriteMath(line), p) <==> StartsWith(line, p)
  {
    DelimitPrefix(line, false, p);
  }

  /** The worked example: `a$x$b` becomes `a[$]x[/$]b`. */
  lemma RewriteExample()
    ensures RewriteMath("a$x$b") == "a[$]x[/$]b"
  {
    assert CountChar("a$x$b", '$') == 2;
    assert Delimit("b", false) == "b";
    assert Delimit("$b", true) == Close + "b";
    assert Delimit("x$b", true) == "x[/$]b";
    assert Delimit("$x$b", false) == Open + "x[/$]b";
    assert Delimit("a$x$b", false) == "a" + "[$]x[/$]b";
  }

}
