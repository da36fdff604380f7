/** The markdown sectionizer of `joplin_note_parser` (joplin-anki-sync.py, lines
    128-178), on a note body already split into lines. Every top-level header line
    (`# ...`) that never occurs inside a fenced block becomes one card: its title is the
    note name, the header text and the list of `##` sub-header labels of its body, and its
    content is the rewritten body lines joined without separators. */
module Sectionizer {

  import opened Wrappers
  import opened Strings
  import opened MathDelimiters

  /** `re.search(r"^# .*", line)`: the line starts with `#` and a space. */
  predicate IsTopHeader(line: string)
  {
    |line| >= 2 && line[0] == '#' && line[1] == ' '
  }

  /** `re.search(r"^```", line)`: the line starts with three backticks. */
  predicate IsFence(line: string)
  {
    |line| >= 3 && line[0] == '`' && line[1] == '`' && line[2] == '`'
  }

  /** `re.search(r"^##+", line)`: the line starts with two `#`. */
  predicate IsSubheader(line: string)
  {
    |line| >= 2 && line[0] == '#' && line[1] == '#'
  }

  /** The header test is the prefix test for `# `. */
  lemma {:induction false} TopHeaderPrefix(line: string)
    ensures IsTopHeader(line) <==> StartsWith(line, "# ")
  {
    if |line| >= 2 {
      assert line[..2] == [line[0], line[1]];
    }
  }

  // ---------------------------------------------------------------------------------
  // Fenced blocks (lines 131-139)

  /** How many lines of `lines` start a fence. */
  function FenceCount(lines: seq<string>): nat
  {
    if lines == [] then 0
    else FenceCount(lines[..|lines| - 1]) + (if IsFence(lines[|lines| - 1]) then 1 else 0)
  }

  /** The `check` flag while line `i` is read: the lines up to and including it have
      opened or closed a fence an odd number of times. */
  predicate InFence(lines: seq<string>, i: nat)
    requires i < |lines|
  {
    FenceCount(lines[..i + 1]) % 2 == 1
  }

  /** The header lines of the document (`re.findall(r"^# .*", markdown, re.M)`). */
  function HeaderSet(lines: seq<string>): set<string>
  {
    set x | x in lines && IsTopHeader(x)
  }

  /** The list `comment_headers`: the header lines read while the fence flag is on, in
      document order. */
  function FencedLines(lines: seq<string>): seq<string>
  {
    if lines == [] then []
    else
      var n := |lines| - 1;
      FencedLines(lines[..n]) + (if FenceCount(lines) % 2 == 1 && IsTopHeader(lines[n]) then [lines[n]] else [])
  }

  /** `set(comment_headers)` */
  function FencedSet(lines: seq<string>): set<string>
  {
    set x | x in FencedLines(lines)
  }

  /** `set(headers) - set(comment_headers)`: a header text that occurs inside a fence
      even once is dropped, wherever else it also occurs. */
  function RealHeaders(lines: seq<string>): set<string>
  {
    HeaderSet(lines) - FencedSet(lines)
  }

  /** The fence scan of lines 132-138. */
  method FencedHeaders(lines: seq<string>) returns (comment: seq<string>)
    ensures comment == FencedLines(lines)
  {
    var check := false;
    comment := [];
    var i := 0;
    while i < |lines|
      invariant 0 <= i <= |lines|
      invariant check <==> FenceCount(lines[..i]) % 2 == 1
      invariant comment == FencedLines(lines[..i])
    {
      assert lines[..i + 1][..i] == lines[..i];
      if IsFence(lines[i]) {
        check := !check;
      }
      if check && IsTopHeader(lines[i]) {
        comment := comment + [lines[i]];
      }
      i := i + 1;
    }
    assert lines[..i] == lines;
  }

  /** Line `i` holds the header text `x` and is read inside a fence. */
  predicate FencedAt(lines: seq<string>, i: nat, x: string)
    requires i < |lines|
  {
    lines[i] == x && IsTopHeader(x) && InFence(lines, i)
  }

  /** Whether line `i < n` is a fenced header depends on the first `n` lines only. */
  lemma {:induction false} FencedAtPrefix(lines: seq<string>, n: nat, i: nat, x: string)
    requires i < n <= |lines|
    ensures FencedAt(lines[..n], i, x) <==> FencedAt(lines, i, x)
  {
    assert lines[..n][..i + 1] == lines[..i + 1];
  }

  /** The last line of the document adds itself to `comment_headers` exactly when it is
      a fenced header. */
  lemma {:induction false} FencedLinesLast(lines: seq<string>, x: string)
    requires lines != []
    ensures var n := |lines| - 1;
      x in FencedLines(lines) <==> x in FencedLines(lines[..n]) || FencedAt(lines, n, x)
  {
    var n := |lines| - 1;
    assert lines[..n + 1] == lines;
  }

  /** Every text in `comment_headers` is held by a fenced header line. */
  lemma {:induction false} FencedLinesSound(lines: seq<string>, x: string)
    requires x in FencedLines(lines)
    ensures exists i :: 0 <= i < |lines| && FencedAt(lines, i, x)
  {
    var n := |lines| - 1;
    FencedLinesLast(lines, x);
    if !FencedAt(lines, n, x) {
      FencedLinesSound(lines[..n], x);
      var i :| 0 <= i < n && FencedAt(lines[..n], i, x);
      FencedAtPrefix(lines, n, i, x);
    }
  }

  /** Every fenced header line adds its text to `comment_headers`. */
  lemma {:induction false} FencedLinesComplete(lines: seq<string>, i: nat, x: string)
    requires i < |lines| && FencedAt(lines, i, x)
    ensures x in FencedLines(lines)
  {
    var n := |lines| - 1;
    FencedLinesLast(lines, x);
    if i < n {
      FencedAtPrefix(lines, n, i, x);
      FencedLinesComplete(lines[..n], i, x);
    }
  }

  /** A text is in `comment_headers` exactly when some line holding it is a header line
      read inside a fence. */
  lemma {:induction false} FencedLinesMembers(lines: seq<string>, x: string)
    ensures x in FencedLines(lines) <==> exists i :: 0 <= i < |lines| && FencedAt(lines, i, x)
  {
    if x in FencedLines(lines) {
      FencedLinesSound(lines, x);
    }
    if exists i :: 0 <= i < |lines| && FencedAt(lines, i, x) {
      var i :| 0 <= i < |lines| && FencedAt(lines, i, x);
      FencedLinesComplete(lines, i, x);
    }
  }

  // ---------------------------------------------------------------------------------
  // The body of one section (lines 146-171)

  /** Where the header first occurs. */
  function FirstIndex(lines: seq<string>, header: string): (k: nat)
    requires header in lines
    ensures k < |lines| && lines[k] == header
  {
    if lines[0] == header then 0 else 1 + FirstIndex(lines[1..], header)
  }

  /** No line before the first occurrence is the header. */
  lemma {:induction false} FirstIndexIsFirst(lines: seq<string>, header: string, j: nat)
    requires header in lines && j < FirstIndex(lines, header)
    ensures lines[j] != header
  {
    if j > 0 {
      FirstIndexIsFirst(lines[1..], header, j - 1);
    }
  }

  /** A line that closes a section: a header line that is not a fenced header. */
  predicate IsBoundary(line: string, fenced: set<string>)
  {
    IsTopHeader(line) && line !in fenced
  }

  /** The first boundary line at or after `from`, or the end of the document. */
  function SectionEnd(lines: seq<string>, fenced: set<string>, from: nat): (k: nat)
    requires from <= |lines|
    ensures from <= k <= |lines|
    ensures k < |lines| ==> IsBoundary(lines[k], fenced)
    decreases |lines| - from
  {
    if from == |lines| || IsBoundary(lines[from], fenced) then from
    else SectionEnd(lines, fenced, from + 1)
  }

  /** No line before the end of a section closes it. */
  lemma {:induction false} SectionEndIsFirst(lines: seq<string>, fenced: set<string>, from: nat, j: nat)
    requires from <= |lines| && from <= j < SectionEnd(lines, fenced, from)
    ensures !IsBoundary(lines[j], fenced)
    decreases |lines| - from
  {
    if j > from {
      SectionEndIsFirst(lines, fenced, from + 1, j);
    }
  }

  /** No line of a section closes it. */
  lemma SectionEndClear(lines: seq<string>, fenced: set<string>, from: nat)
    requires from <= |lines|
    ensures forall j :: from <= j < SectionEnd(lines, fenced, from) ==> !IsBoundary(lines[j], fenced)
  {
    forall j | from <= j < SectionEnd(lines, fenced, from)
      ensures !IsBoundary(lines[j], fenced)
    {
      SectionEndIsFirst(lines, fenced, from, j);
    }
  }

  /** Every line as the body scan appends it to a content (line 167). */
  function Rewritten(lines: seq<string>): (rw: seq<string>)
    ensures |rw| == |lines|
  {
    if lines == [] then [] else Rewritten(lines[..|lines| - 1]) + [RewriteMath(lines[|lines| - 1])]
  }

  lemma {:induction false} RewrittenAt(lines: seq<string>, i: nat)
    requires i < |lines|
    ensures Rewritten(lines)[i] == RewriteMath(lines[i])
  {
    if i < |lines| - 1 {
      var init := lines[..|lines| - 1];
      RewrittenAt(init, i);
      assert init[i] == lines[i];
    }
  }

  /** The last line before `upto` at which the content is (re)started: the header's
      first occurrence, or a later line whose rewritten text `rw[j]` equals the header. */
  function LastReset(rw: seq<string>, header: string, first: nat, upto: nat): (j: nat)
    requires first < upto <= |rw|
    ensures first <= j < upto
    ensures j > first ==> rw[j] == header
    decreases upto
  {
    if upto - 1 == first || rw[upto - 1] == header then upto - 1
    else LastReset(rw, header, first, upto - 1)
  }

  /** No line after the last restart restarts the content. */
  lemma {:induction false} LastResetIsLast(rw: seq<string>, header: string, first: nat, upto: nat, k: nat)
    requires first < upto <= |rw|
    requires LastReset(rw, header, first, upto) < k < upto
    ensures rw[k] != header
    decreases upto
  {
    if k < upto - 1 {
      LastResetIsLast(rw, header, first, upto - 1, k);
    }
  }

  /** The lines `lo` to `hi - 1` of `rw`, joined without separators. */
  function Join(rw: seq<string>, lo: nat, hi: nat): string
    requires lo <= hi <= |rw|
    decreases hi
  {
    if hi == lo then "" else Join(rw, lo, hi - 1) + rw[hi - 1]
  }

  /** The label a rewritten line contributes, if it is a sub-header. */
  function LabelOf(rewritten: string): seq<string>
  {
    if IsSubheader(rewritten) then [StripSubheaderMarker(rewritten)] else []
  }

  /** The labels of the lines `lo` to `hi - 1` of `rw` that are sub-headers, in order,
      with their `##+ ` marker removed. */
  function SubheaderLabels(rw: seq<string>, lo: nat, hi: nat): seq<string>
    requires lo <= hi <= |rw|
    decreases hi
  {
    if hi == lo then [] else SubheaderLabels(rw, lo, hi - 1) + LabelOf(rw[hi - 1])
  }

  /** The content of the section headed by `header`: the rewritten lines from the last
      restart up to the section's end. */
  function SectionContent(lines: seq<string>, fenced: set<string>, header: string): string
    requires header in lines
  {
    var rw := Rewritten(lines);
    var first := FirstIndex(lines, header);
    var end := SectionEnd(lines, fenced, first + 1);
    Join(rw, LastReset(rw, header, first, end) + 1, end)
  }

  /** The sub-header labels of the section headed by `header`. */
  function SectionLabels(lines: seq<string>, fenced: set<string>, header: string): seq<string>
    requires header in lines
  {
    var first := FirstIndex(lines, header);
    SubheaderLabels(Rewritten(lines), first + 1, SectionEnd(lines, fenced, first + 1))
  }

  /** The variables of the body scan: `content` (`None` until the header is met), the
      `subheaders` list, and whether the scan has stopped at the next section. */
  datatype ScanState = ScanState(content: Option<string>, labels: seq<string>, stopped: bool)

  /** A line `r` (rewritten) read inside the section: the header line itself restarts
      the content, any other line is appended, and a sub-header adds its label. */
  function Advance(st: ScanState, header: string, r: string): ScanState
    requires st.content.Some?
  {
    ScanState(if header == r then Some("") else Some(st.content.value + r), st.labels + LabelOf(r), false)
  }

  /** What one pass of the loop of lines 149-171 does with `line`, whose rewritten form
      (lines 154-166) is `r`. */
  function ScanStep(st: ScanState, line: string, r: string, header: string, fenced: set<string>): ScanState
  {
    if st.stopped then st
    else if st.content.Some? && IsBoundary(line, fenced) then st.(stopped := true)
    else if st.content.Some? then Advance(st, header, r)
    else if header == line then st.(content := Some(""))
    else st
  }

  /** The variables after the scan has read the first `i` lines, whose rewritten forms
      are given by `rw`. */
  function Scan(lines: seq<string>, rw: seq<string>, header: string, fenced: set<string>, i: nat): ScanState
    requires i <= |lines| == |rw|
  {
    if i == 0 then ScanState(None, [], false)
    else ScanStep(Scan(lines, rw, header, fenced, i - 1), lines[i - 1], rw[i - 1], header, fenced)
  }

  /** Once stopped, the scan reads no further line. */
  lemma {:induction false} ScanStaysStopped(lines: seq<string>, rw: seq<string>, header: string, fenced: set<string>, i: nat, j: nat)
    requires i <= j <= |lines| == |rw| && Scan(lines, rw, header, fenced, i).stopped
    ensures Scan(lines, rw, header, fenced, j).stopped
    ensures Scan(lines, rw, header, fenced, j).content == Scan(lines, rw, header, fenced, i).content
    ensures Scan(lines, rw, header, fenced, j).labels == Scan(lines, rw, header, fenced, i).labels
    decreases j
  {
    if j > i {
      ScanStaysStopped(lines, rw, header, fenced, i, j - 1);
    }
  }

  /** A boundary line met inside a section stops the scan and changes nothing else. */
  lemma {:induction false} ScanStopsAt(lines: seq<string>, rw: seq<string>, header: string, fenced: set<string>, i: nat)
    requires i < |lines| == |rw| && IsBoundary(lines[i], fenced)
    requires !Scan(lines, rw, header, fenced, i).stopped && Scan(lines, rw, header, fenced, i).content.Some?
    ensures Scan(lines, rw, header, fenced, i + 1).stopped
    ensures Scan(lines, rw, header, fenced, i + 1).content == Scan(lines, rw, header, fenced, i).content
    ensures Scan(lines, rw, header, fenced, i + 1).labels == Scan(lines, rw, header, fenced, i).labels
  {
  }

  /** Before the header's first occurrence nothing is collected. */
  lemma {:induction false} ScanBefore(lines: seq<string>, rw: seq<string>, header: string, fenced: set<string>, i: nat)
    requires |lines| == |rw| && header in lines && i <= FirstIndex(lines, header)
    ensures Scan(lines, rw, header, fenced, i) == ScanState(None, [], false)
  {
    if i > 0 {
      ScanBefore(lines, rw, header, fenced, i - 1);
      FirstIndexIsFirst(lines, header, i - 1);
    }
  }

  /** One pass of the loop inside a section, on a line that does not close it. */
  lemma {:induction false} ScanStepInside(lines: seq<string>, rw: seq<string>, header: string, fenced: set<string>, i: nat)
    requires 0 < i <= |lines| == |rw| && !IsBoundary(lines[i - 1], fenced)
    requires !Scan(lines, rw, header, fenced, i - 1).stopped && Scan(lines, rw, header, fenced, i - 1).content.Some?
    ensures Scan(lines, rw, header, fenced, i) == Advance(Scan(lines, rw, header, fenced, i - 1), header, rw[i - 1])
  {
  }

  /** Inside the section that starts at line `first`, the content holds the rewritten
      lines since the last restart and the labels those of all sub-header lines since
      the header. */
  lemma {:induction false} ScanInside(lines: seq<string>, rw: seq<string>, header: string, fenced: set<string>, first: nat, i: nat)
    requires |lines| == |rw| && first < i <= |lines|
    requires Scan(lines, rw, header, fenced, first + 1) == ScanState(Some(""), [], false)
    requires forall j :: first < j < i ==> !IsBoundary(lines[j], fenced)
    ensures Scan(lines, rw, header, fenced, i) == Inside(rw, header, first, i)
    decreases i
  {
    if i > first + 1 {
      ScanInside(lines, rw, header, fenced, first, i - 1);
      assert !IsBoundary(lines[i - 1], fenced);
      ScanInsideStep(lines, rw, header, fenced, first, i);
    } else {
      ScanInsideStart(rw, header, first);
    }
  }

  /** The state of the scan inside the section that starts at line `first`, before
      line `i`. */
  function Inside(rw: seq<string>, header: string, first: nat, i: nat): ScanState
    requires first < i <= |rw|
  {
    ScanState(Some(Join(rw, LastReset(rw, header, first, i) + 1, i)), SubheaderLabels(rw, first + 1, i), false)
  }

  /** Right after the header the content is empty and no label is collected. */
  lemma ScanInsideStart(rw: seq<string>, header: string, first: nat)
    requires first < |rw|
    ensures Inside(rw, header, first, first + 1) == ScanState(Some(""), [], false)
  {
    assert LastReset(rw, header, first, first + 1) == first;
  }

  /** One line more inside the section. */
  lemma ScanInsideStep(lines: seq<string>, rw: seq<string>, header: string, fenced: set<string>, first: nat, i: nat)
    requires |lines| == |rw| && first + 1 < i <= |lines| && !IsBoundary(lines[i - 1], fenced)
    requires Scan(lines, rw, header, fenced, i - 1) == Inside(rw, header, first, i - 1)
    ensures Scan(lines, rw, header, fenced, i) == Inside(rw, header, first, i)
  {
    ScanStepInside(lines, rw, header, fenced, i);
    InsideStep(rw, header, first, i);
  }

  /** The section's state grows by one line as `Advance` says. */
  lemma InsideStep(rw: seq<string>, header: string, first: nat, i: nat)
    requires first + 1 < i <= |rw|
    ensures Inside(rw, header, first, i) == Advance(Inside(rw, header, first, i - 1), header, rw[i - 1])
  {
    var r := rw[i - 1];
    assert SubheaderLabels(rw, first + 1, i) == SubheaderLabels(rw, first + 1, i - 1) + LabelOf(r);
    if header == r {
      assert LastReset(rw, header, first, i) == i - 1;
      assert Join(rw, i, i) == "";
    } else {
      var last := LastReset(rw, header, first, i - 1);
      assert LastReset(rw, header, first, i) == last;
      assert Join(rw, last + 1, i) == Join(rw, last + 1, i - 1) + r;
    }
  }

  /** The scan of a section that starts at line `first` and ends before line `end`,
      with nothing collected before it. */
  lemma {:induction false} ScanSection(lines: seq<string>, rw: seq<string>, header: string, fenced: set<string>, first: nat, end: nat)
    requires |lines| == |rw| && first < end <= |lines| && lines[first] == header
    requires Scan(lines, rw, header, fenced, first) == ScanState(None, [], false)
    requires forall j :: first < j < end ==> !IsBoundary(lines[j], fenced)
    requires end == |lines| || IsBoundary(lines[end], fenced)
    ensures Scan(lines, rw, header, fenced, |lines|).content == Some(Join(rw, LastReset(rw, header, first, end) + 1, end))
    ensures Scan(lines, rw, header, fenced, |lines|).labels == SubheaderLabels(rw, first + 1, end)
  {
    assert Scan(lines, rw, header, fenced, first + 1) == ScanState(Some(""), [], false);
    ScanInside(lines, rw, header, fenced, first, end);
    if end < |lines| {
      ScanStopsAt(lines, rw, header, fenced, end);
      ScanStaysStopped(lines, rw, header, fenced, end + 1, |lines|);
    }
  }

  /** The scan ends with the section's content and labels. */
  lemma {:induction false} ScanResult(lines: seq<string>, rw: seq<string>, header: string, fenced: set<string>, first: nat, end: nat, last: nat)
    requires |rw| == |lines| && header in lines
    requires first == FirstIndex(lines, header) && end == SectionEnd(lines, fenced, first + 1)
    requires last == LastReset(rw, header, first, end)
    ensures Scan(lines, rw, header, fenced, |lines|).content == Some(Join(rw, last + 1, end))
    ensures Scan(lines, rw, header, fenced, |lines|).labels == SubheaderLabels(rw, first + 1, end)
  {
    ScanBefore(lines, rw, header, fenced, first);
    SectionEndClear(lines, fenced, first + 1);
    ScanSection(lines, rw, header, fenced, first, end);
  }

  /** The scan computes the section's content. */
  lemma {:induction false} ScanComputesContent(lines: seq<string>, header: string, fenced: set<string>)
    requires header in lines
    ensures Scan(lines, Rewritten(lines), header, fenced, |lines|).content == Some(SectionContent(lines, fenced, header))
  {
    var rw := Rewritten(lines);
    var first := FirstIndex(lines, header);
    var end := SectionEnd(lines, fenced, first + 1);
    var last := LastReset(rw, header, first, end);
    SectionAt(lines, fenced, header, first, end, last);
    ScanResult(lines, rw, header, fenced, first, end, last);
  }

  /** The scan computes the section's labels. */
  lemma {:induction false} ScanComputesLabels(lines: seq<string>, header: string, fenced: set<string>)
    requires header in lines
    ensures Scan(lines, Rewritten(lines), header, fenced, |lines|).labels == SectionLabels(lines, fenced, header)
  {
    var rw := Rewritten(lines);
    var first := FirstIndex(lines, header);
    var end := SectionEnd(lines, fenced, first + 1);
    var last := LastReset(rw, header, first, end);
    ScanResult(lines, rw, header, fenced, first, end, last);
    SectionAt(lines, fenced, header, first, end, last);
  }

  /** The scan of lines 146-171 for one header. */
  method SectionBody(lines: seq<string>, header: string, fenced: set<string>)
    returns (content: string, subheaders: seq<string>)
    requires header in lines
    ensures content == SectionContent(lines, fenced, header)
    ensures subheaders == SectionLabels(lines, fenced, header)
  {
    var c: Option<string> := None;
    subheaders := [];
    ghost var rw := Rewritten(lines);
    var i := 0;
    while i < |lines|
      invariant 0 <= i <= |lines|
      invariant !Scan(lines, rw, header, fenced, i).stopped
      invariant Scan(lines, rw, header, fenced, i).content == c
      invariant Scan(lines, rw, header, fenced, i).labels == subheaders
    {
      var line := lines[i];
      ghost var next := ScanStep(Scan(lines, rw, header, fenced, i), line, rw[i], header, fenced);
      assert Scan(lines, rw, header, fenced, i + 1) == next;
      if IsTopHeader(line) && c.Some? && line !in fenced {
        ScanStaysStopped(lines, rw, header, fenced, i + 1, |lines|);
        break;
      }
      if c.Some? {
        line := RewriteLine(line);
        RewrittenAt(lines, i);
        c := Some(c.value + line);
        if IsSubheader(line) {
          subheaders := subheaders + [StripSubheaderMarker(line)];
        }
        if header == line {
          c := Some("");
        }
      } else if header == line {
        c := Some("");
      }
      i := i + 1;
    }
    ScanComputesContent(lines, header, fenced);
    ScanComputesLabels(lines, header, fenced);
    content := c.value;
  }

  // ---------------------------------------------------------------------------------
  // The sections of one note (lines 139-178)

  /** The two filters of lines 142-145: the right-stripped header starts with an
      excluded prefix, or the header contains `==`. */
  predicate Excluded(header: string, excluded: seq<string>)
  {
    StartsWithAny(RStrip(header), excluded) || Contains(header, "==")
  }

  /** The card title of lines 172-176. */
  function CardTitle(noteName: string, header: string, labels: seq<string>): string
  {
    if labels != [] then noteName + "  / " + RemoveHashSpace(header) + " " + ListRepr(labels)
    else noteName + " / " + RemoveHashSpace(header)
  }

  /** The title of the card of `header`. */
  function SectionTitle(lines: seq<string>, fenced: set<string>, noteName: string, header: string): string
    requires header in lines
  {
    CardTitle(noteName, header, SectionLabels(lines, fenced, header))
  }

  /** The map `headers_hash` after the headers of `order` have been handled in turn: each
      header for which `skip` does not hold writes `content(h)` under `title(h)`, so that
      a later header overwrites an earlier one with the same title. */
  function Fold(order: seq<string>, skip: string -> bool, title: string -> string, content: string -> string)
    : map<string, string>
  {
    if order == [] then map[]
    else
      var m := Fold(order[..|order| - 1], skip, title, content);
      var h := order[|order| - 1];
      if skip(h) then m else m[title(h) := content(h)]
  }

  /** The filters of the note, as a function of the header. */
  function Skip(excluded: seq<string>): string -> bool
  {
    h => Excluded(h, excluded)
  }

  /** The titles of the note's sections, as a function of the header. */
  function Titles(lines: seq<string>, fenced: set<string>, noteName: string): string -> string
  {
    h => if h in lines then SectionTitle(lines, fenced, noteName, h) else ""
  }

  /** The contents of the note's sections, as a function of the header. */
  function Contents(lines: seq<string>, fenced: set<string>): string -> string
  {
    h => if h in lines then SectionContent(lines, fenced, h) else ""
  }

  /** The cards of the note, when its headers are handled in the order `order`. */
  function Sections(lines: seq<string>, fenced: set<string>, noteName: string, excluded: seq<string>, order: seq<string>)
    : map<string, string>
  {
    Fold(order, Skip(excluded), Titles(lines, fenced, noteName), Contents(lines, fenced))
  }

  /** `order` lists the elements of `s`: it stands for `list(set(headers) -
      set(comment_headers))`, whose order Python leaves unspecified. */
  ghost predicate Enumerates(order: seq<string>, s: set<string>)
  {
    forall h :: h in order <==> h in s
  }

  lemma {:induction false} RealHeadersInLines(lines: seq<string>, h: string)
    requires h in RealHeaders(lines)
    ensures h in lines && IsTopHeader(h) && h !in FencedSet(lines)
  {
  }

  /** `joplin_note_parser` once the body is fetched (lines 128-178). */
  method ParseNote(lines: seq<string>, noteName: string, excluded: seq<string>, order: seq<string>)
    returns (sections: map<string, string>)
    requires Enumerates(order, RealHeaders(lines))
    ensures sections == Sections(lines, FencedSet(lines), noteName, excluded, order)
  {
    var comment := FencedHeaders(lines);
    var fenced := set x | x in comment;
    ghost var skip, title, content := Skip(excluded), Titles(lines, fenced, noteName), Contents(lines, fenced);
    sections := map[];
    var k := 0;
    while k < |order|
      invariant 0 <= k <= |order|
      invariant sections == Fold(order[..k], skip, title, content)
    {
      var header := order[k];
      assert order[..k + 1][..k] == order[..k];
      if Excluded(header, excluded) {
        k := k + 1;
        continue;
      }
      RealHeadersInLines(lines, header);
      var c, subheaders := SectionBody(lines, header, fenced);
      sections := sections[CardTitle(noteName, header, subheaders) := c];
      k := k + 1;
    }
    assert order[..k] == order;
  }

  // ---------------------------------------------------------------------------------
  // What the fold computes

  /** The headers of `heads` that yield a card: those `skip` lets through. */
  function Eligible(heads: set<string>, skip: string -> bool): set<string>
  {
    set h | h in heads && !skip(h)
  }

  /** The header `h` passes the filters and has the title `t`. */
  predicate Yields(skip: string -> bool, title: string -> string, h: string, t: string)
  {
    !skip(h) && title(h) == t
  }

  /** One step of the fold: the last header of `order` adds its title unless it is
      skipped. */
  lemma {:induction false} FoldStep(order: seq<string>, skip: string -> bool, title: string -> string, content: string -> string, t: string)
    requires order != []
    ensures var h := order[|order| - 1];
      t in Fold(order, skip, title, content)
      <==> t in Fold(order[..|order| - 1], skip, title, content) || Yields(skip, title, h, t)
  {
  }

  /** Every key of the fold is the title of a header of `order` that is not skipped. */
  lemma {:induction false} FoldKeysSound(order: seq<string>, skip: string -> bool, title: string -> string, content: string -> string, t: string)
    requires t in Fold(order, skip, title, content)
    ensures exists k :: 0 <= k < |order| && Yields(skip, title, order[k], t)
  {
    var n := |order| - 1;
    var init := order[..n];
    FoldStep(order, skip, title, content, t);
    if !Yields(skip, title, order[n], t) {
      FoldKeysSound(init, skip, title, content, t);
      var k :| 0 <= k < |init| && Yields(skip, title, init[k], t);
      assert order[k] == init[k];
    }
  }

  /** The title of every header of `order` that is not skipped is a key of the fold. */
  lemma {:induction false} FoldKeysComplete(order: seq<string>, skip: string -> bool, title: string -> string, content: string -> string, k: nat, t: string)
    requires k < |order| && Yields(skip, title, order[k], t)
    ensures t in Fold(order, skip, title, content)
  {
    var n := |order| - 1;
    var init := order[..n];
    FoldStep(order, skip, title, content, t);
    if k < n {
      assert order[k] == init[k];
      FoldKeysComplete(init, skip, title, content, k, t);
    }
  }

  /** The value under a key is the content of a header of `order` with that title (the
      last one, since later writes win). */
  lemma {:induction false} FoldValue(order: seq<string>, skip: string -> bool, title: string -> string, content: string -> string, t: string)
    requires t in Fold(order, skip, title, content)
    ensures exists k :: 0 <= k < |order| && Yields(skip, title, order[k], t)
              && Fold(order, skip, title, content)[t] == content(order[k])
  {
    var n := |order| - 1;
    var init := order[..n];
    var h := order[n];
    if !Yields(skip, title, h, t) {
      FoldValue(init, skip, title, content, t);
      var k :| 0 <= k < |init| && Yields(skip, title, init[k], t)
        && Fold(init, skip, title, content)[t] == content(init[k]);
      assert order[k] == init[k];
    }
  }

  /** The keys of the fold are exactly the titles of the eligible headers, when `order`
      lists the headers `heads`. */
  lemma {:induction false} FoldKeySet(order: seq<string>, heads: set<string>, skip: string -> bool, title: string -> string, content: string -> string)
    requires Enumerates(order, heads)
    ensures Fold(order, skip, title, content).Keys == set h | h in Eligible(heads, skip) :: title(h)
  {
    var m := Fold(order, skip, title, content);
    var titles := set h | h in Eligible(heads, skip) :: title(h);
    forall t ensures t in m <==> t in titles {
      if t in titles {
        var h :| h in Eligible(heads, skip) && title(h) == t;
        assert h in order;
        var k :| 0 <= k < |order| && order[k] == h;
        FoldKeysComplete(order, skip, title, content, k, t);
      }
      if t in m {
        FoldKeysSound(order, skip, title, content, t);
        var k :| 0 <= k < |order| && Yields(skip, title, order[k], t);
        assert order[k] in Eligible(heads, skip);
      }
    }
  }

  /** Every card holds the content of an eligible header with its title. */
  lemma {:induction false} FoldSound(order: seq<string>, heads: set<string>, skip: string -> bool, title: string -> string, content: string -> string, t: string)
    requires Enumerates(order, heads) && t in Fold(order, skip, title, content)
    ensures exists h :: h in Eligible(heads, skip) && title(h) == t && Fold(order, skip, title, content)[t] == content(h)
  {
    FoldValue(order, skip, title, content, t);
    var k :| 0 <= k < |order| && Yields(skip, title, order[k], t)
      && Fold(order, skip, title, content)[t] == content(order[k]);
    assert order[k] in Eligible(heads, skip);
  }

  /** Distinct eligible headers give distinct titles. */
  ghost predicate DistinctTitles(eligible: set<string>, title: string -> string)
  {
    forall h1, h2 :: h1 in eligible && h2 in eligible && h1 != h2 ==> title(h1) != title(h2)
  }

  /** When titles do not collide, every eligible header has its own card with its own
      content, whatever the order of the headers. */
  lemma {:induction false} FoldExact(order: seq<string>, heads: set<string>, skip: string -> bool, title: string -> string, content: string -> string, h: string)
    requires Enumerates(order, heads) && DistinctTitles(Eligible(heads, skip), title)
    requires h in Eligible(heads, skip)
    ensures title(h) in Fold(order, skip, title, content)
    ensures Fold(order, skip, title, content)[title(h)] == content(h)
  {
    FoldKeySet(order, heads, skip, title, content);
    FoldSound(order, heads, skip, title, content, title(h));
  }

  /** The order in which the headers are handled does not matter when titles do not
      collide. */
  lemma {:induction false} FoldOrderFree(order1: seq<string>, order2: seq<string>, heads: set<string>, skip: string -> bool, title: string -> string, content: string -> string)
    requires Enumerates(order1, heads) && Enumerates(order2, heads)
    requires DistinctTitles(Eligible(heads, skip), title)
    ensures Fold(order1, skip, title, content) == Fold(order2, skip, title, content)
  {
    FoldKeySet(order1, heads, skip, title, content);
    FoldKeySet(order2, heads, skip, title, content);
    var m1 := Fold(order1, skip, title, content);
    var m2 := Fold(order2, skip, title, content);
    forall t | t in m1
      ensures m1[t] == m2[t]
    {
      FoldSound(order1, heads, skip, title, content, t);
      var h :| h in Eligible(heads, skip) && title(h) == t && m1[t] == content(h);
      FoldExact(order2, heads, skip, title, content, h);
    }
  }

  /** The number of elements of an injective image. */
  lemma {:induction false} InjectiveImageSize(s: set<string>, f: string -> string)
    requires forall x, y :: x in s && y in s && x != y ==> f(x) != f(y)
    ensures |set x | x in s :: f(x)| == |s|
    decreases |s|
  {
    if s != {} {
      var x :| x in s;
      var rest := s - {x};
      InjectiveImageSize(rest, f);
      assert (set y | y in s :: f(y)) == (set y | y in rest :: f(y)) + {f(x)};
    }
  }

  /** When titles do not collide, the fold yields exactly one card per eligible
      header. */
  lemma {:induction false} FoldCount(order: seq<string>, heads: set<string>, skip: string -> bool, title: string -> string, content: string -> string)
    requires Enumerates(order, heads) && DistinctTitles(Eligible(heads, skip), title)
    ensures |Fold(order, skip, title, content)| == |Eligible(heads, skip)|
  {
    FoldKeySet(order, heads, skip, title, content);
    InjectiveImageSize(Eligible(heads, skip), title);
    var m := Fold(order, skip, title, content);
    assert |m| == |m.Keys|;
  }

  // ---------------------------------------------------------------------------------
  // What the cards of a note are

  /** The headers that yield a card: the real headers that no filter excludes. */
  function EligibleHeaders(lines: seq<string>, excluded: seq<string>): set<string>
  {
    Eligible(RealHeaders(lines), Skip(excluded))
  }

  /** The cards `ParseNote` returns: one key per title of a real header that passes
      the filters. */
  lemma {:induction false} NoteCardTitles(lines: seq<string>, noteName: string, excluded: seq<string>, order: seq<string>)
    requires Enumerates(order, RealHeaders(lines))
    ensures forall h :: h in EligibleHeaders(lines, excluded) ==> h in lines
    ensures Sections(lines, FencedSet(lines), noteName, excluded, order).Keys
      == set h | h in EligibleHeaders(lines, excluded) :: SectionTitle(lines, FencedSet(lines), noteName, h)
  {
    var fenced := FencedSet(lines);
    var title := Titles(lines, fenced, noteName);
    FoldKeySet(order, RealHeaders(lines), Skip(excluded), title, Contents(lines, fenced));
    forall h | h in EligibleHeaders(lines, excluded) ensures h in lines {
      RealHeadersInLines(lines, h);
    }
    assert (set h | h in EligibleHeaders(lines, excluded) :: title(h))
      == set h | h in EligibleHeaders(lines, excluded) :: SectionTitle(lines, fenced, noteName, h);
  }

  /** Every card `ParseNote` returns holds the content of an eligible header with its
      title. */
  lemma {:induction false} NoteCardContents(lines: seq<string>, noteName: string, excluded: seq<string>, order: seq<string>, t: string)
    requires Enumerates(order, RealHeaders(lines))
    requires t in Sections(lines, FencedSet(lines), noteName, excluded, order)
    ensures exists h :: h in EligibleHeaders(lines, excluded) && h in lines
              && SectionTitle(lines, FencedSet(lines), noteName, h) == t
              && Sections(lines, FencedSet(lines), noteName, excluded, order)[t] == SectionContent(lines, FencedSet(lines), h)
  {
    var fenced := FencedSet(lines);
    var skip, title, content := Skip(excluded), Titles(lines, fenced, noteName), Contents(lines, fenced);
    var m := Fold(order, skip, title, content);
    FoldSound(order, RealHeaders(lines), skip, title, content, t);
    var h :| h in Eligible(RealHeaders(lines), skip) && title(h) == t && m[t] == content(h);
    RealHeadersInLines(lines, h);
    assert title(h) == SectionTitle(lines, fenced, noteName, h);
    assert content(h) == SectionContent(lines, fenced, h);
  }

  /** When the titles of a note do not collide, the cards do not depend on the order of
      `list(set(...))`. */
  lemma {:induction false} NoteOrderFree(lines: seq<string>, noteName: string, excluded: seq<string>, order1: seq<string>, order2: seq<string>)
    requires Enumerates(order1, RealHeaders(lines)) && Enumerates(order2, RealHeaders(lines))
    requires DistinctTitles(EligibleHeaders(lines, excluded), Titles(lines, FencedSet(lines), noteName))
    ensures Sections(lines, FencedSet(lines), noteName, excluded, order1) == Sections(lines, FencedSet(lines), noteName, excluded, order2)
  {
    var fenced := FencedSet(lines);
    FoldOrderFree(order1, order2, RealHeaders(lines), Skip(excluded), Titles(lines, fenced, noteName), Contents(lines, fenced));
  }

  /** Which headers yield a card, spelled out: a header line of the note, none of whose
      occurrences is read inside a fence, whose right-stripped text starts with no
      excluded prefix and which does not contain `==`. */
  lemma {:induction false} EligibleHeadersExactly(lines: seq<string>, excluded: seq<string>, h: string)
    ensures h in EligibleHeaders(lines, excluded)
      <==> (exists i :: 0 <= i < |lines| && lines[i] == h) && IsTopHeader(h)
           && (forall i :: 0 <= i < |lines| && lines[i] == h ==> !InFence(lines, i))
           && !StartsWithAny(RStrip(h), excluded) && !Contains(h, "==")
  {
    FencedLinesMembers(lines, h);
    assert h in FencedSet(lines) <==> h in FencedLines(lines);
    assert h in HeaderSet(lines) <==> h in lines && IsTopHeader(h);
    assert h in EligibleHeaders(lines, excluded) <==> h in RealHeaders(lines) && !Excluded(h, excluded);
    if exists i :: 0 <= i < |lines| && lines[i] == h && InFence(lines, i) {
      var i :| 0 <= i < |lines| && lines[i] == h && InFence(lines, i);
      if IsTopHeader(h) {
        assert FencedAt(lines, i, h);
      }
    }
  }

  // ---------------------------------------------------------------------------------
  // What the content and the labels of a section are

  /** A header line followed at once by the next section yields an empty card. */
  lemma {:induction false} EmptyWhenHeaderFollows(lines: seq<string>, fenced: set<string>, h: string)
    requires h in lines
    requires FirstIndex(lines, h) + 1 < |lines| && IsBoundary(lines[FirstIndex(lines, h) + 1], fenced)
    ensures SectionContent(lines, fenced, h) == ""
    ensures SectionLabels(lines, fenced, h) == []
  {
  }

  /** The last line of a range adds its label, if any. */
  lemma {:induction false} SubheaderLabelsLast(rw: seq<string>, lo: nat, hi: nat, x: string)
    requires lo < hi <= |rw|
    ensures x in SubheaderLabels(rw, lo, hi) <==> x in SubheaderLabels(rw, lo, hi - 1) || LabelOf(rw[hi - 1]) == [x]
  {
    var l := LabelOf(rw[hi - 1]);
    assert SubheaderLabels(rw, lo, hi) == SubheaderLabels(rw, lo, hi - 1) + l;
    assert x in l <==> l == [x];
  }

  /** Every label comes from a sub-header line of the range. */
  lemma {:induction false} LabelsSound(rw: seq<string>, lo: nat, hi: nat, x: string)
    requires lo <= hi <= |rw| && x in SubheaderLabels(rw, lo, hi)
    ensures exists j :: lo <= j < hi && LabelOf(rw[j]) == [x]
    decreases hi
  {
    SubheaderLabelsLast(rw, lo, hi, x);
    if LabelOf(rw[hi - 1]) != [x] {
      LabelsSound(rw, lo, hi - 1, x);
      var j :| lo <= j < hi - 1 && LabelOf(rw[j]) == [x];
    }
  }

  /** Every sub-header line of the range contributes its label. */
  lemma {:induction false} LabelsComplete(rw: seq<string>, lo: nat, hi: nat, j: nat, x: string)
    requires lo <= j < hi <= |rw| && LabelOf(rw[j]) == [x]
    ensures x in SubheaderLabels(rw, lo, hi)
    decreases hi
  {
    SubheaderLabelsLast(rw, lo, hi, x);
    if j < hi - 1 {
      LabelsComplete(rw, lo, hi - 1, j, x);
    }
  }

  /** The labels are those of the sub-header lines of the range: one per such line. */
  lemma {:induction false} LabelsAreSubheaders(rw: seq<string>, lo: nat, hi: nat, x: string)
    requires lo <= hi <= |rw|
    ensures x in SubheaderLabels(rw, lo, hi) <==> exists j :: lo <= j < hi && LabelOf(rw[j]) == [x]
  {
    if x in SubheaderLabels(rw, lo, hi) {
      LabelsSound(rw, lo, hi, x);
    }
    if exists j :: lo <= j < hi && LabelOf(rw[j]) == [x] {
      var j :| lo <= j < hi && LabelOf(rw[j]) == [x];
      LabelsComplete(rw, lo, hi, j, x);
    }
  }

  /** Inside the section of a header that is not fenced, the content restarts only at a
      fenced header line that carries inline math and whose rewritten text equals the
      header. */
  lemma {:induction false} RestartOnlyAtFencedMath(lines: seq<string>, fenced: set<string>, h: string, j: nat)
    requires h in lines && IsTopHeader(h) && h !in fenced
    requires var first := FirstIndex(lines, h);
      first < j < SectionEnd(lines, fenced, first + 1) && RewriteMath(lines[j]) == h
    ensures lines[j] in fenced && lines[j] != h
    ensures CountChar(lines[j], '$') > 0 && CountChar(lines[j], '$') % 2 == 0
  {
    var first := FirstIndex(lines, h);
    RewritePrefix(lines[j], "# ");
    TopHeaderPrefix(lines[j]);
    TopHeaderPrefix(RewriteMath(lines[j]));
    SectionEndIsFirst(lines, fenced, first + 1, j);
  }

  /** A header that is not fenced and has no `$` keeps every line of its section: its
      content is the rewritten lines after the header's first occurrence up to the next
      section, joined without separators. */
  lemma {:induction false} ContentWithoutDollar(lines: seq<string>, fenced: set<string>, h: string)
    requires h in lines && IsTopHeader(h) && h !in fenced && CountChar(h, '$') == 0
    ensures var first := FirstIndex(lines, h);
      SectionContent(lines, fenced, h) == Join(Rewritten(lines), first + 1, SectionEnd(lines, fenced, first + 1))
  {
    var rw := Rewritten(lines);
    var first := FirstIndex(lines, h);
    var end := SectionEnd(lines, fenced, first + 1);
    var last := LastReset(rw, h, first, end);
    if last > first {
      RewrittenAt(lines, last);
      RestartOnlyAtFencedMath(lines, fenced, h, last);
      RewriteLength(lines[last]);
      assert false;
    }
  }

  // ---------------------------------------------------------------------------------
  // Worked examples

  /** Two different header lines can give one title, since every `# ` of the header is
      removed: the later one then overwrites the earlier. */
  lemma TitlesCanCollide()
    ensures CardTitle("Note", "# a", []) == CardTitle("Note", "# # a", []) == "Note / a"
  {
    assert RemoveHashSpace("# a") == "a";
    assert RemoveHashSpace("# # a") == RemoveHashSpace("# a");
  }

  /** The content and the labels of a section, from the positions of its header, of its
      end and of its last restart. */
  lemma {:induction false} SectionAt(lines: seq<string>, fenced: set<string>, h: string, first: nat, end: nat, last: nat)
    requires h in lines && first == FirstIndex(lines, h)
    requires end == SectionEnd(lines, fenced, first + 1)
    requires last == LastReset(Rewritten(lines), h, first, end)
    ensures SectionContent(lines, fenced, h) == Join(Rewritten(lines), last + 1, end)
    ensures SectionLabels(lines, fenced, h) == SubheaderLabels(Rewritten(lines), first + 1, end)
  {
    var rw := Rewritten(lines);
    assert SectionContent(lines, fenced, h) == Join(rw, LastReset(rw, h, first, end) + 1, end);
  }

  /** The note of the sub-header example. */
  const TopicNote: seq<string> := ["# T", "i", "## A", "b", "## B", "m", "# N"]

  /** The example note has no fence. */
  lemma TopicNoteUnfenced()
    ensures FencedSet(TopicNote) == {}
  {
    var lines := TopicNote;
    TopicNoteNoDollar();
    forall x | x in FencedLines(lines)
      ensures false
    {
      FencedLinesMembers(lines, x);
      var i :| 0 <= i < |lines| && FencedAt(lines, i, x);
      NoFenceCount(lines, i + 1);
    }
  }

  /** The example note has no `$`, so the rewrite leaves it as it is. */
  lemma TopicNoteUnchanged()
    ensures Rewritten(TopicNote) == TopicNote
  {
    var lines := TopicNote;
    TopicNoteNoDollar();
    forall k | 0 <= k < |lines|
      ensures Rewritten(lines)[k] == lines[k]
    {
      RewrittenAt(lines, k);
    }
  }

  lemma TopicNoteNoDollar()
    ensures forall k :: 0 <= k < |TopicNote| ==> !IsFence(TopicNote[k]) && CountChar(TopicNote[k], '$') == 0
  {
    forall k | 0 <= k < |TopicNote|
      ensures !IsFence(TopicNote[k]) && CountChar(TopicNote[k], '$') == 0
    {
      var line := TopicNote[k];
      CountCharAbsent(line, '$');
      assert line[0] != '`';
      assert |line| >= 3 ==> line[..3][0] == line[0];
    }
  }

  lemma {:induction false} NoFenceCount(lines: seq<string>, k: nat)
    requires k <= |lines| && forall i :: 0 <= i < |lines| ==> !IsFence(lines[i])
    ensures FenceCount(lines[..k]) == 0
  {
    if k > 0 {
      NoFenceCount(lines, k - 1);
      assert lines[..k][..k - 1] == lines[..k - 1];
    }
  }

  lemma TopicNoteRange()
    ensures SectionEnd(TopicNote, {}, 1) == 6 && SectionEnd(TopicNote, {}, 7) == 7
    ensures FirstIndex(TopicNote, "# T") == 0 && FirstIndex(TopicNote, "# N") == 6
    ensures LastReset(TopicNote, "# T", 0, 6) == 0
  {
    var lines := TopicNote;
    var none: set<string> := {};
    assert lines[6] == "# N" && lines[0] != "# N";
    assert FirstIndex(lines, "# N") == 6 by {
      assert lines[1..][1..][1..][1..][1..][1..][0] == "# N";
    }
    assert "## A"[..2] != "# " && "## B"[..2] != "# " by {
      assert "## A"[..2][1] == '#' && "## B"[..2][1] == '#';
    }
    assert SectionEnd(lines, none, 6) == 6;
    assert SectionEnd(lines, none, 5) == 6;
    assert SectionEnd(lines, none, 4) == 6;
    assert SectionEnd(lines, none, 3) == 6;
    assert SectionEnd(lines, none, 2) == 6;
  }

  lemma TopicNoteBody()
    ensures Join(TopicNote, 1, 6) == "i## Ab## Bm"
  {
    var lines := TopicNote;
    assert Join(lines, 1, 1) == "";
    assert Join(lines, 1, 2) == "i";
    assert Join(lines, 1, 3) == "i## A";
    assert Join(lines, 1, 4) == "i## Ab";
    assert Join(lines, 1, 5) == "i## Ab## B";
  }

  lemma TopicNoteLabels()
    ensures SubheaderLabels(TopicNote, 1, 6) == ["A", "B"]
  {
    var lines := TopicNote;
    assert LeadingHashes("## A") == 2 by {
      assert "## A"[1..] == "# A" && "# A"[1..] == " A";
    }
    assert LeadingHashes("## B") == 2 by {
      assert "## B"[1..] == "# B" && "# B"[1..] == " B";
    }
    assert StripSubheaderMarker("## A") == "A";
    assert StripSubheaderMarker("## B") == "B";
    assert SubheaderLabels(lines, 1, 2) == [];
    assert SubheaderLabels(lines, 1, 3) == ["A"];
    assert SubheaderLabels(lines, 1, 4) == ["A"];
    assert SubheaderLabels(lines, 1, 5) == ["A", "B"];
  }

  lemma TopicNoteFirstTitle()
    ensures CardTitle("Note", "# T", ["A", "B"])
      == "Note" + "  / " + "T" + " " + "['A', 'B']"
  {
    assert RemoveHashSpace("# T") == "T";
    var items := ["A", "B"];
    assert QuotedItems(items[..1]) == "'A'";
    assert QuotedItems(items) == QuotedItems(items[..1]) + ", '" + "B" + "'";
    TopicNoteLabelList();
  }

  lemma TopicNoteLabelList()
    ensures "'A'" + ", '" + "B" + "'" == "'A', 'B'"
  {
    assert "'A'" + ", '" == "'A', '";
  }

  /** The first section of the example, on a note without fence. */
  lemma TopicNoteFirstUnfenced()
    ensures "# T" in TopicNote
    ensures SectionContent(TopicNote, {}, "# T") == "i## Ab## Bm"
    ensures SectionLabels(TopicNote, {}, "# T") == ["A", "B"]
  {
    TopicNoteUnchanged();
    TopicNoteRange();
    SectionAt(TopicNote, {}, "# T", 0, 6, 0);
    TopicNoteBody();
    TopicNoteLabels();
  }

  /** In the sub-header example, the first section keeps its `##` lines in its content
      and lists their labels in its title (after two spaces and a slash). */
  lemma TopicNoteFirstSection()
    ensures "# T" in TopicNote
    ensures SectionContent(TopicNote, FencedSet(TopicNote), "# T") == "i## Ab## Bm"
    ensures SectionTitle(TopicNote, FencedSet(TopicNote), "Note", "# T")
      == "Note" + "  / " + "T" + " " + "['A', 'B']"
  {
    TopicNoteUnfenced();
    TopicNoteFirstUnfenced();
    TopicNoteFirstTitle();
  }

  /** The last section of the example, on a note without fence. */
  lemma TopicNoteLastUnfenced()
    ensures "# N" in TopicNote
    ensures SectionContent(TopicNote, {}, "# N") == ""
    ensures SectionLabels(TopicNote, {}, "# N") == []
  {
    TopicNoteUnchanged();
    TopicNoteRange();
    SectionAt(TopicNote, {}, "# N", 6, 7, 6);
  }

  /** In the sub-header example, the section of the last header is empty and has no
      labels. */
  lemma TopicNoteLastSection()
    ensures "# N" in TopicNote
    ensures SectionContent(TopicNote, FencedSet(TopicNote), "# N") == ""
    ensures SectionTitle(TopicNote, FencedSet(TopicNote), "Note", "# N") == "Note / N"
  {
    TopicNoteUnfenced();
    TopicNoteLastUnfenced();
    TopicNoteLastTitle();
  }

  lemma TopicNoteLastTitle()
    ensures CardTitle("Note", "# N", []) == "Note / N"
  {
    assert RemoveHashSpace("# N") == "N";
  }

}
