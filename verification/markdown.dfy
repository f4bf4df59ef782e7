/** The Markdown toolbar of the editor as pure transforms of an editor state
    (document text and main selection). `insertFormat` wraps the selection in
    a prefix and a suffix and selects the wrapped text; `insertBlock` toggles
    a block prefix ("# ", "- ", "1. ", ...) at the start of the line holding
    the cursor. The editor keeps line breaks as "\n"; positions count
    characters. */
module Markdown {
  import opened Wrappers

  datatype Selection = Selection(anchor: nat, head: nat) {
    function From(): nat { if anchor <= head then anchor else head }
    function To(): nat { if anchor <= head then head else anchor }
    predicate Empty() { anchor == head }
  }

  datatype Editor = Editor(doc: string, sel: Selection)

  predicate Valid(e: Editor) {
    e.sel.anchor <= |e.doc| && e.sel.head <= |e.doc|
  }

  /** One change: the range [from, to) replaced by `insert`. */
  datatype Change = Change(from: nat, to: nat, insert: string)

  predicate Fits(c: Change, doc: string) {
    c.from <= c.to <= |doc|
  }

  function Apply(doc: string, c: Change): (r: string)
    requires Fits(c, doc)
    ensures |r| == |doc| - (c.to - c.from) + |c.insert|
    ensures r[..c.from] == doc[..c.from]
    ensures r[c.from..c.from + |c.insert|] == c.insert
    ensures r[c.from + |c.insert|..] == doc[c.to..]
  {
    var r := doc[..c.from] + c.insert + doc[c.to..];
    assert r[c.from..c.from + |c.insert|] == c.insert;
    r
  }

  // ---- insertFormat ----

  /** `insertFormat(prefix, suffix)`: the selected text is replaced by
      prefix + text + suffix, and the new selection spans the text, now
      between the two markers. */
  function InsertFormat(e: Editor, prefix: string, suffix: string): (r: Editor)
    requires Valid(e)
    ensures Valid(r) && r.sel.anchor <= r.sel.head
    ensures |r.doc| == |e.doc| + |prefix| + |suffix|
    ensures r.sel.anchor == e.sel.From() + |prefix|
    ensures r.sel.head == r.sel.anchor + (e.sel.To() - e.sel.From())
    ensures r.doc[..e.sel.From()] == e.doc[..e.sel.From()]
    ensures r.doc[r.sel.head + |suffix|..] == e.doc[e.sel.To()..]
    ensures r.doc[e.sel.From()..r.sel.anchor] == prefix
    ensures r.doc[r.sel.anchor..r.sel.head] == e.doc[e.sel.From()..e.sel.To()]
    ensures r.doc[r.sel.head..r.sel.head + |suffix|] == suffix
  {
    var from, to := e.sel.From(), e.sel.To();
    var text := e.doc[from..to];
    var doc := Apply(e.doc, Change(from, to, prefix + text + suffix));
    var anchor := from + |prefix|;
    var head := anchor + |text|;
    assert doc[from..from + |prefix + text + suffix|] == prefix + text + suffix;
    assert doc[from..anchor] == prefix;
    assert doc[anchor..head] == text;
    assert doc[head..head + |suffix|] == suffix;
    Editor(doc, Selection(anchor, head))
  }

  /** Taking away `before` characters in front of the selection and `after`
      characters behind it. */
  function Unwrap(e: Editor, before: nat, after: nat): (r: Editor)
    requires Valid(e) && before <= e.sel.From() && e.sel.To() + after <= |e.doc|
    ensures Valid(r)
  {
    var from, to := e.sel.From(), e.sel.To();
    Editor(e.doc[..from - before] + e.doc[from..to] + e.doc[to + after..],
           Selection(from - before, to - before))
  }

  /** Unwrapping the markers undoes `insertFormat`: the document comes back,
      and so does the selection, read from its start to its end. */
  lemma {:induction false} FormatUnwraps(e: Editor, prefix: string, suffix: string)
    requires Valid(e)
    ensures var r := InsertFormat(e, prefix, suffix);
      && |prefix| <= r.sel.From() && r.sel.To() + |suffix| <= |r.doc|
      && Unwrap(r, |prefix|, |suffix|) == Editor(e.doc, Selection(e.sel.From(), e.sel.To()))
  {
    var r := InsertFormat(e, prefix, suffix);
    var from, to := e.sel.From(), e.sel.To();
    assert r.sel.From() == r.sel.anchor && r.sel.To() == r.sel.head;
    var u := Unwrap(r, |prefix|, |suffix|);
    var before, text, after := r.doc[..from], r.doc[r.sel.anchor..r.sel.head], r.doc[r.sel.head + |suffix|..];
    assert u.doc == before + text + after;
    assert before == e.doc[..from] && text == e.doc[from..to] && after == e.doc[to..];
    ThreeParts(e.doc, from, to);
    assert u.sel == Selection(from, to);
  }

  lemma {:induction false} ThreeParts(s: string, i: nat, j: nat)
    requires i <= j <= |s|
    ensures s[..i] + s[i..j] + s[j..] == s
  {
    assert s[..i] + s[i..j] == s[..j];
  }

  // ---- insertBlock ----

  /** The line breaks of the document between `i` and `j`: none. */
  predicate NoBreak(doc: string, i: nat, j: nat)
    requires i <= j <= |doc|
  {
    forall k :: i <= k < j ==> doc[k] != '\n'
  }

  /** Start of the line holding `pos`. */
  function LineStart(doc: string, pos: nat): (r: nat)
    requires pos <= |doc|
    ensures r <= pos && NoBreak(doc, r, pos)
    ensures r == 0 || doc[r - 1] == '\n'
  {
    if pos == 0 || doc[pos - 1] == '\n' then pos else LineStart(doc, pos - 1)
  }

  /** End of the line holding `pos` (before its line break). */
  function LineEnd(doc: string, pos: nat): (r: nat)
    requires pos <= |doc|
    ensures pos <= r <= |doc| && NoBreak(doc, pos, r)
    ensures r == |doc| || doc[r] == '\n'
    decreases |doc| - pos
  {
    if pos == |doc| || doc[pos] == '\n' then pos else LineEnd(doc, pos + 1)
  }

  /** A line is determined by any position on it. */
  lemma {:induction false} LineOf(doc: string, pos: nat, s: nat, t: nat)
    requires s <= pos <= t <= |doc| && NoBreak(doc, s, t)
    requires s == 0 || doc[s - 1] == '\n'
    requires t == |doc| || doc[t] == '\n'
    ensures LineStart(doc, pos) == s && LineEnd(doc, pos) == t
  {
  }

  /** JavaScript's `\s`: the white space and line terminator characters. */
  predicate IsSpace(c: char) {
    c == '\t' || c == '\n' || c == '\U{000B}' || c == '\U{000C}' || c == '\r' || c == ' '
    || c == '\U{00A0}' || c == '\U{1680}' || '\U{2000}' <= c <= '\U{200A}'
    || c == '\U{2028}' || c == '\U{2029}' || c == '\U{202F}' || c == '\U{205F}'
    || c == '\U{3000}' || c == '\U{FEFF}'
  }

  predicate IsDigit(c: char) {
    '0' <= c <= '9'
  }

  /** The first `n` characters of `s` are all `c`. */
  predicate RunOf(s: string, n: nat, c: char) {
    n <= |s| && forall i :: 0 <= i < n ==> s[i] == c
  }

  /** The first `n` characters of `s` are all digits. */
  predicate DigitsUpTo(s: string, n: nat) {
    n <= |s| && forall i :: 0 <= i < n ==> IsDigit(s[i])
  }

  /** The number of leading characters of `s` equal to `c`. */
  function LeadingRun(s: string, c: char): (n: nat)
    ensures n <= |s| && (forall i :: 0 <= i < n ==> s[i] == c)
    ensures n == |s| || s[n] != c
    decreases |s|
  {
    if |s| > 0 && s[0] == c then 1 + LeadingRun(s[1..], c) else 0
  }

  /** The number of leading ASCII digits of `s`. */
  function LeadingDigits(s: string): (n: nat)
    ensures n <= |s| && (forall i :: 0 <= i < n ==> IsDigit(s[i]))
    ensures n == |s| || !IsDigit(s[n])
    decreases |s|
  {
    if |s| > 0 && IsDigit(s[0]) then 1 + LeadingDigits(s[1..]) else 0
  }

  /** The regular expression `^(#{1,3}\s|[-]\s|\d+\.\s|>\s)` matches the
      first `n` characters of `line`, alternative by alternative. */
  predicate BlockPrefix(line: string, n: nat) {
    || (2 <= n <= 4 && n <= |line| && RunOf(line, n - 1, '#') && IsSpace(line[n - 1]))
    || (n == 2 && |line| >= 2 && line[0] == '-' && IsSpace(line[1]))
    || (3 <= n <= |line| && DigitsUpTo(line, n - 2) && line[n - 2] == '.' && IsSpace(line[n - 1]))
    || (n == 2 && |line| >= 2 && line[0] == '>' && IsSpace(line[1]))
  }

  /** `line.match(/^(#{1,3}\s|[-]\s|\d+\.\s|>\s)/)`: the length of the
      recognised block prefix. The alternatives begin with different
      characters, so at most one applies; `#{1,3}` backtracks, but a shorter
      run of '#' is followed by '#', never by white space. */
  function PrefixMatch(line: string): (r: Option<nat>)
    ensures r.Some? ==> 2 <= r.value <= |line| && IsSpace(line[r.value - 1])
    ensures r.Some? && line[0] == '#' ==> r.value <= 4 && forall i :: 0 <= i < r.value - 1 ==> line[i] == '#'
    ensures r.Some? && line[0] != '#' && line[0] != '-' && line[0] != '>' ==>
      line[r.value - 2] == '.' && forall i :: 0 <= i < r.value - 2 ==> IsDigit(line[i])
    ensures r.Some? ==> line[0] == '#' || line[0] == '-' || line[0] == '>' || IsDigit(line[0])
    ensures r.Some? && (line[0] == '-' || line[0] == '>') ==> r.value == 2
    ensures forall k :: 1 <= k <= 3 && k < |line| && RunOf(line, k, '#') && IsSpace(line[k]) ==>
      r == Some(k + 1)
    ensures |line| >= 2 && line[0] == '-' && IsSpace(line[1]) ==> r == Some(2)
    ensures forall d :: 1 <= d && d + 1 < |line| && DigitsUpTo(line, d) && line[d] == '.' && IsSpace(line[d + 1]) ==>
      r == Some(d + 2)
    ensures |line| >= 2 && line[0] == '>' && IsSpace(line[1]) ==> r == Some(2)
  {
    var hashes := LeadingRun(line, '#');
    var digits := LeadingDigits(line);
    if 1 <= hashes <= 3 && hashes < |line| && IsSpace(line[hashes]) then Some(hashes + 1)
    else if |line| >= 2 && line[0] == '-' && IsSpace(line[1]) then Some(2)
    else if digits >= 1 && digits + 1 < |line| && line[digits] == '.' && IsSpace(line[digits + 1])
    then Some(digits + 2)
    else if |line| >= 2 && line[0] == '>' && IsSpace(line[1]) then Some(2)
    else None
  }

  /** The change `insertBlock(prefix)` makes to the line [start, end). */
  function BlockChange(line: string, start: nat, prefix: string): (c: Change)
    ensures c.from == start
    ensures PrefixMatch(line).None? ==> c == Change(start, start, prefix)
    ensures PrefixMatch(line).Some? ==> c.to == start + PrefixMatch(line).value
    ensures PrefixMatch(line).Some? && line[..PrefixMatch(line).value] == prefix ==> c.insert == ""
    ensures PrefixMatch(line).Some? && line[..PrefixMatch(line).value] != prefix ==> c.insert == prefix
  {
    match PrefixMatch(line)
    case None => Change(start, start, prefix)
    case Some(k) =>
      if line[..k] == prefix then Change(start, start + k, "")
      else Change(start, start + k, prefix)
  }

  /** `ChangeDesc.mapPos` for one change: positions before it stay, positions
      after it move by the change in length; a position at the start of a
      replaced range stays at its start; one inside it, or at an insertion
      point, goes to the start or the end of the inserted text as `assoc`
      asks. */
  function MapPos(pos: nat, c: Change, assoc: int): (r: nat)
    requires c.from <= c.to
    ensures pos < c.from ==> r == pos
    ensures c.from <= pos <= c.to ==> c.from <= r <= c.from + |c.insert|
    ensures pos >= c.to && (pos > c.from || assoc >= 0) ==> r + (c.to - c.from) == pos + |c.insert|
    ensures pos == c.from && (c.to > c.from || assoc < 0) ==> r == c.from
  {
    if pos < c.from then pos
    else if pos == c.from && (c.to > c.from || assoc < 0) then c.from
    else if pos < c.to then (if assoc < 0 then c.from else c.from + |c.insert|)
    else pos - (c.to - c.from) + |c.insert|
  }

  /** `SelectionRange.map`: a cursor maps with the change's left side; a
      range maps its start with the right side and its end with the left,
      and puts the mapped ends back as anchor and head in the original order.
      A range inside a replaced span can come out with its mapped start past
      its mapped end, so no ordering of the ends is promised. */
  function MapSelection(sel: Selection, c: Change): (r: Selection)
    requires c.from <= c.to
    ensures sel.Empty() ==> r.Empty()
    ensures sel.Empty() && sel.head == c.from ==> r == sel
    ensures sel.To() < c.from ==> r == sel
    ensures sel.From() > c.to ==>
      && r.anchor + (c.to - c.from) == sel.anchor + |c.insert|
      && r.head + (c.to - c.from) == sel.head + |c.insert|
  {
    if sel.Empty() then
      var p := MapPos(sel.head, c, -1);
      Selection(p, p)
    else
      var from := MapPos(sel.From(), c, 1);
      var to := MapPos(sel.To(), c, -1);
      if sel.anchor < sel.head then Selection(from, to) else Selection(to, from)
  }

  /** The change `insertBlock(prefix)` makes in an editor state. */
  function BlockEdit(e: Editor, prefix: string): (c: Change)
    requires Valid(e)
    ensures Fits(c, e.doc)
    ensures c.from == LineStart(e.doc, e.sel.head)
    ensures c.to <= LineEnd(e.doc, e.sel.head)
  {
    var s := LineStart(e.doc, e.sel.head);
    var t := LineEnd(e.doc, e.sel.head);
    BlockChange(e.doc[s..t], s, prefix)
  }

  /** `insertBlock(prefix)`: on the line of the cursor, a recognised prefix
      equal to `prefix` is removed, a different one is replaced by `prefix`,
      and without one `prefix` is inserted at the start of the line. Nothing
      before the line start and nothing after the old prefix changes; the
      selection is mapped through the change. */
  function InsertBlock(e: Editor, prefix: string): (r: Editor)
    requires Valid(e)
    ensures Valid(r)
    ensures var c := BlockEdit(e, prefix);
      && |r.doc| == |e.doc| - (c.to - c.from) + |c.insert|
      && r.doc[..c.from] == e.doc[..c.from]
      && r.doc[c.from..c.from + |c.insert|] == c.insert
      && r.doc[c.from + |c.insert|..] == e.doc[c.to..]
  {
    var c := BlockEdit(e, prefix);
    var sel := MapSelection(e.sel, c);
    MappedWithin(e.sel, c, |e.doc|);
    Editor(Apply(e.doc, c), sel)
  }

  /** A selection inside a document stays inside it after a change. */
  lemma {:induction false} MappedWithin(sel: Selection, c: Change, n: nat)
    requires c.from <= c.to <= n && sel.anchor <= n && sel.head <= n
    ensures var m := MapSelection(sel, c);
      m.anchor <= n - (c.to - c.from) + |c.insert| && m.head <= n - (c.to - c.from) + |c.insert|
  {
  }

  /** The block prefixes of the toolbar buttons. */
  const ToolbarPrefixes: seq<string> := ["# ", "## ", "### ", "- ", "1. ", "> "]

  /** Every toolbar prefix is recognised at the start of a line, whatever
      follows it, and is exactly the part recognised. */
  lemma {:induction false} ToolbarPrefixRecognised(p: string, rest: string)
    requires p in ToolbarPrefixes
    ensures PrefixMatch(p + rest) == Some(|p|)
  {
    var line := p + rest;
    assert line[..|p|] == p;
    if p == "# " || p == "## " || p == "### " {
      var n := |p| - 1;
      assert line[n] == ' ' && forall i :: 0 <= i < n ==> line[i] == '#';
      assert LeadingRun(line, '#') == n;
    } else if p == "1. " {
      assert line[0] == '1' && line[1] == '.' && line[2] == ' ';
      assert LeadingRun(line, '#') == 0;
      assert LeadingDigits(line) == 1;
    } else {
      assert line[1] == ' ';
      assert LeadingRun(line, '#') == 0;
    }
  }

  /** The cursor stays on its line, which keeps its start and changes its
      length by the change. */
  lemma {:induction false} HeadStaysOnLine(e: Editor, prefix: string)
    requires Valid(e) && forall i :: 0 <= i < |prefix| ==> prefix[i] != '\n'
    ensures var c := BlockEdit(e, prefix);
      var r := InsertBlock(e, prefix);
      && LineStart(r.doc, r.sel.head) == c.from
      && LineEnd(r.doc, r.sel.head) + (c.to - c.from) == LineEnd(e.doc, e.sel.head) + |c.insert|
  {
    var c := BlockEdit(e, prefix);
    var s, t := LineStart(e.doc, e.sel.head), LineEnd(e.doc, e.sel.head);
    assert c.insert == "" || c.insert == prefix;
    MappedOnLine(e, c, s, t);
    LineAfterChange(e.doc, c, s, t, MapSelection(e.sel, c).head);
  }

  /** A change at the start of a line that inserts no line break leaves a
      line with the same start, shorter or longer by the change. */
  lemma {:induction false} LineAfterChange(doc: string, c: Change, s: nat, t: nat, h: nat)
    requires s <= t <= |doc| && NoBreak(doc, s, t)
    requires (s == 0 || doc[s - 1] == '\n') && (t == |doc| || doc[t] == '\n')
    requires c.from == s <= c.to <= t
    requires forall i :: 0 <= i < |c.insert| ==> c.insert[i] != '\n'
    requires s <= h <= t - (c.to - c.from) + |c.insert|
    ensures var d := Apply(doc, c);
      LineStart(d, h) == s && LineEnd(d, h) == t - (c.to - c.from) + |c.insert|
  {
    var d := Apply(doc, c);
    var t2 := t - (c.to - c.from) + |c.insert|;
    NoBreakAfterChange(doc, c, s, t);
    EndsAfterChange(doc, c, s, t);
    LineOf(d, h, s, t2);
  }

  lemma {:induction false} NoBreakAfterChange(doc: string, c: Change, s: nat, t: nat)
    requires s <= t <= |doc| && NoBreak(doc, s, t)
    requires c.from == s <= c.to <= t
    requires forall i :: 0 <= i < |c.insert| ==> c.insert[i] != '\n'
    ensures NoBreak(Apply(doc, c), s, t - (c.to - c.from) + |c.insert|)
  {
    var d := Apply(doc, c);
    var n := |c.insert|;
    var t2 := t - (c.to - c.from) + n;
    forall k | s <= k < t2
      ensures d[k] != '\n'
    {
      if k < s + n {
        assert d[s..s + n][k - s] == d[k];
      } else {
        assert d[s + n..][k - s - n] == d[k];
        assert doc[c.to..][k - s - n] == doc[k - n + (c.to - c.from)];
      }
    }
  }

  lemma {:induction false} EndsAfterChange(doc: string, c: Change, s: nat, t: nat)
    requires s <= t <= |doc|
    requires (s == 0 || doc[s - 1] == '\n') && (t == |doc| || doc[t] == '\n')
    requires c.from == s <= c.to <= t
    ensures var d := Apply(doc, c);
      var t2 := t - (c.to - c.from) + |c.insert|;
      && t2 <= |d|
      && (s == 0 || d[s - 1] == '\n') && (t2 == |d| || d[t2] == '\n')
  {
    var d := Apply(doc, c);
    var n := |c.insert|;
    var t2 := t - (c.to - c.from) + n;
    if s > 0 {
      assert d[..s][s - 1] == doc[..s][s - 1];
    }
    if t2 < |d| {
      assert d[s + n..][t2 - s - n] == doc[c.to..][t - c.to];
    }
  }

  /** Both ends of a selection whose head is on the line [s, t] map into
      the line after the change; in particular the head does. */
  lemma {:induction false} MappedOnLine(e: Editor, c: Change, s: nat, t: nat)
    requires Valid(e) && c.from == s <= c.to <= t && s <= e.sel.head <= t
    ensures s <= MapSelection(e.sel, c).head <= t - (c.to - c.from) + |c.insert|
  {
  }

  /** The text of the line holding the cursor. */
  function CurrentLine(e: Editor): string
    requires Valid(e)
  {
    e.doc[LineStart(e.doc, e.sel.head)..LineEnd(e.doc, e.sel.head)]
  }

  /** The three outcomes of `insertBlock`, in terms of the current line. */
  lemma {:induction false} BlockOutcome(e: Editor, p: string)
    requires Valid(e)
    ensures var s := LineStart(e.doc, e.sel.head);
      var m := PrefixMatch(CurrentLine(e));
      var d := InsertBlock(e, p).doc;
      && (m.None? ==> d == e.doc[..s] + p + e.doc[s..])
      && (m.Some? && CurrentLine(e)[..m.value] == p ==> d == e.doc[..s] + e.doc[s + m.value..])
      && (m.Some? && CurrentLine(e)[..m.value] != p ==> d == e.doc[..s] + p + e.doc[s + m.value..])
  {
    var m := PrefixMatch(CurrentLine(e));
    if m.None? {
      PrefixAdded(e, p);
    } else if CurrentLine(e)[..m.value] == p {
      PrefixRemoved(e, p);
    } else {
      PrefixReplaced(e, p);
    }
  }

  lemma {:induction false} PrefixAdded(e: Editor, p: string)
    requires Valid(e) && PrefixMatch(CurrentLine(e)).None?
    ensures var s := LineStart(e.doc, e.sel.head);
      InsertBlock(e, p).doc == e.doc[..s] + p + e.doc[s..]
  {
    BlockEditOf(e, p);
    ApplyShape(e.doc, BlockEdit(e, p));
  }

  lemma {:induction false} PrefixRemoved(e: Editor, p: string)
    requires Valid(e)
    requires var m := PrefixMatch(CurrentLine(e)); m.Some? && CurrentLine(e)[..m.value] == p
    ensures var s := LineStart(e.doc, e.sel.head);
      InsertBlock(e, p).doc == e.doc[..s] + e.doc[s + PrefixMatch(CurrentLine(e)).value..]
  {
    var s := LineStart(e.doc, e.sel.head);
    var n := PrefixMatch(CurrentLine(e)).value;
    BlockEditOf(e, p);
    ApplyShape(e.doc, BlockEdit(e, p));
    EmptyMiddle(e.doc[..s], e.doc[s + n..]);
  }

  lemma {:induction false} PrefixReplaced(e: Editor, p: string)
    requires Valid(e)
    requires var m := PrefixMatch(CurrentLine(e)); m.Some? && CurrentLine(e)[..m.value] != p
    ensures var s := LineStart(e.doc, e.sel.head);
      InsertBlock(e, p).doc == e.doc[..s] + p + e.doc[s + PrefixMatch(CurrentLine(e)).value..]
  {
    var s := LineStart(e.doc, e.sel.head);
    var k := PrefixMatch(CurrentLine(e)).value;
    BlockEditOf(e, p);
    var c := BlockEdit(e, p);
    assert c == Change(s, s + k, p);
    ApplyShape(e.doc, c);
  }

  lemma {:induction false} EmptyMiddle(x: string, y: string)
    ensures x + "" + y == x + y
  {
  }

  lemma {:induction false} BlockEditOf(e: Editor, p: string)
    requires Valid(e)
    ensures var s := LineStart(e.doc, e.sel.head);
      var m := PrefixMatch(CurrentLine(e));
      var c := BlockEdit(e, p);
      && InsertBlock(e, p).doc == Apply(e.doc, c)
      && (m.None? ==> c == Change(s, s, p))
      && (m.Some? && CurrentLine(e)[..m.value] == p ==> c == Change(s, s + m.value, ""))
      && (m.Some? && CurrentLine(e)[..m.value] != p ==> c == Change(s, s + m.value, p))
  {
  }

  lemma {:induction false} ApplyShape(doc: string, c: Change)
    requires Fits(c, doc)
    ensures Apply(doc, c) == doc[..c.from] + c.insert + doc[c.to..]
  {
    var d := Apply(doc, c);
    assert d == d[..c.from] + d[c.from..c.from + |c.insert|] + d[c.from + |c.insert|..];
  }

  /** On a line without a recognised prefix, pressing the same toolbar
      button twice gives the document back. */
  lemma {:induction false} ToggleTwice(e: Editor, p: string)
    requires Valid(e) && p in ToolbarPrefixes
    requires PrefixMatch(CurrentLine(e)).None?
    ensures InsertBlock(InsertBlock(e, p), p).doc == e.doc
  {
    var s, t := LineStart(e.doc, e.sel.head), LineEnd(e.doc, e.sel.head);
    var r1 := InsertBlock(e, p);
    FirstPress(e, p);
    ToolbarPrefixRecognised(p, CurrentLine(e));
    assert (p + CurrentLine(e))[..|p|] == p;
    SecondPress(r1, p);
    Spliced(e.doc, p, s, t);
  }

  /** The first press inserts the prefix at the start of the cursor's line
      and leaves the cursor on that line. */
  lemma {:induction false} FirstPress(e: Editor, p: string)
    requires Valid(e) && p in ToolbarPrefixes
    requires PrefixMatch(CurrentLine(e)).None?
    ensures var r := InsertBlock(e, p);
      var s := LineStart(e.doc, e.sel.head);
      && r.doc == e.doc[..s] + p + e.doc[s..]
      && LineStart(r.doc, r.sel.head) == s
      && CurrentLine(r) == p + CurrentLine(e)
  {
    var s, t := LineStart(e.doc, e.sel.head), LineEnd(e.doc, e.sel.head);
    var r := InsertBlock(e, p);
    BlockOutcome(e, p);
    BlockEditOf(e, p);
    assert BlockEdit(e, p) == Change(s, s, p);
    PrefixOnOneLine(p);
    HeadStaysOnLine(e, p);
    assert LineEnd(r.doc, r.sel.head) == t + |p|;
    LineOfSplice(r, e.doc, p, s, t);
  }

  /** The line around an inserted prefix is the prefix and the old line. */
  lemma {:induction false} LineOfSplice(r: Editor, a: string, p: string, s: nat, t: nat)
    requires Valid(r) && s <= t <= |a| && r.doc == a[..s] + p + a[s..]
    requires LineStart(r.doc, r.sel.head) == s && LineEnd(r.doc, r.sel.head) == t + |p|
    ensures CurrentLine(r) == p + a[s..t]
  {
    Spliced(a, p, s, t);
  }

  lemma {:induction false} PrefixOnOneLine(p: string)
    requires p in ToolbarPrefixes
    ensures forall i :: 0 <= i < |p| ==> p[i] != '\n'
  {
  }

  /** The second press finds the prefix it would add and removes it. */
  lemma {:induction false} SecondPress(r: Editor, p: string)
    requires Valid(r)
    requires PrefixMatch(CurrentLine(r)) == Some(|p|) && CurrentLine(r)[..|p|] == p
    ensures var s := LineStart(r.doc, r.sel.head);
      InsertBlock(r, p).doc == r.doc[..s] + r.doc[s + |p|..]
  {
    BlockOutcome(r, p);
  }

  /** Inserting `p` at `s` and then removing it again. */
  lemma {:induction false} Spliced(a: string, p: string, s: nat, t: nat)
    requires s <= t <= |a|
    ensures var b := a[..s] + p + a[s..];
      && b[s..t + |p|] == p + a[s..t]
      && b[..s] + b[s + |p|..] == a
  {
    var b := a[..s] + p + a[s..];
    assert b[..s] == a[..s] && b[s + |p|..] == a[s..];
    assert a[..s] + a[s..] == a;
  }

  /** On a line that already has another prefix the second press does not
      restore it: "- x" becomes "# x" and then "x". */
  lemma {:induction false} ToggleReplacesOtherPrefix()
    ensures InsertBlock(Editor("- x", Selection(0, 0)), "# ") == Editor("# x", Selection(0, 0))
    ensures InsertBlock(InsertBlock(Editor("- x", Selection(0, 0)), "# "), "# ").doc == "x"
  {
    ReplaceDash();
    HeadingRemoved();
  }

  lemma {:induction false} HeadingRemoved()
    ensures InsertBlock(Editor("# x", Selection(0, 0)), "# ").doc == "x"
  {
    var r1 := Editor("# x", Selection(0, 0));
    WholeLine(r1.doc);
    ToolbarPrefixRecognised("# ", "x");
    assert "# x"[..2] == "# ";
    SecondPress(r1, "# ");
    assert r1.doc[2..] == "x";
  }

  lemma {:induction false} ReplaceDash()
    ensures InsertBlock(Editor("- x", Selection(0, 0)), "# ") == Editor("# x", Selection(0, 0))
  {
    var e := Editor("- x", Selection(0, 0));
    WholeLine(e.doc);
    assert LeadingRun("- x", '#') == 0;
    assert PrefixMatch("- x") == Some(2);
    assert "- x"[..2] != "# ";
    BlockEditOf(e, "# ");
    assert BlockEdit(e, "# ") == Change(0, 2, "# ");
    BlockOutcome(e, "# ");
    assert "- x"[2..] == "x";
  }

  /** `PrefixMatch` finds a prefix of length `n` exactly when the regular
      expression matches the first `n` characters. */
  lemma {:induction false} PrefixMatchIsRegex(line: string, n: nat)
    ensures PrefixMatch(line) == Some(n) <==> BlockPrefix(line, n)
  {
    var r := PrefixMatch(line);
    if BlockPrefix(line, n) {
      if 2 <= n <= 4 && n <= |line| && RunOf(line, n - 1, '#') && IsSpace(line[n - 1]) {
        assert r == Some((n - 1) + 1);
      } else if 3 <= n <= |line| && DigitsUpTo(line, n - 2) && line[n - 2] == '.' && IsSpace(line[n - 1]) {
        assert r == Some((n - 2) + 2);
      }
    }
    if r == Some(n) {
      if line[0] == '#' {
        assert RunOf(line, n - 1, '#');
      } else if line[0] != '-' && line[0] != '>' {
        assert line[0] != '.';
        assert DigitsUpTo(line, n - 2);
      }
    }
  }

  /** No prefix is recognised exactly when the regular expression matches
      no prefix of the line. */
  lemma {:induction false} NoPrefixIsNoMatch(line: string)
    ensures PrefixMatch(line).None? <==> forall n: nat :: !BlockPrefix(line, n)
  {
    if PrefixMatch(line).Some? {
      PrefixMatchIsRegex(line, PrefixMatch(line).value);
    } else {
      forall n: nat
        ensures !BlockPrefix(line, n)
      {
        PrefixMatchIsRegex(line, n);
      }
    }
  }

  /** Prefixes beyond the toolbar's are recognised too: any number, one to
      three hashes, and any white space after the marker; four hashes are
      not a heading. */
  lemma {:induction false} OtherPrefixesRecognised()
    ensures PrefixMatch("12. x") == Some(4)
    ensures PrefixMatch("#\tx") == Some(2)
    ensures PrefixMatch(">\U{00A0}x") == Some(2)
    ensures PrefixMatch("#### x") == None
  {
    NumberRecognised();
    TabRecognised();
    QuoteRecognised();
    FourHashes();
  }

  lemma {:induction false} NumberRecognised()
    ensures PrefixMatch("12. x") == Some(4)
  {
    assert DigitsUpTo("12. x", 2);
  }

  lemma {:induction false} TabRecognised()
    ensures PrefixMatch("#\tx") == Some(2)
  {
    assert RunOf("#\tx", 1, '#') && IsSpace('\t');
  }

  lemma {:induction false} QuoteRecognised()
    ensures PrefixMatch(">\U{00A0}x") == Some(2)
  {
    assert IsSpace('\U{00A0}');
  }

  lemma {:induction false} FourHashes()
    ensures PrefixMatch("#### x") == None
  {
    var h := "#### x";
    assert h[4] == ' ';
    assert RunOf(h, 4, '#');
    assert LeadingRun(h, '#') == 4;
    assert LeadingDigits(h) == 0;
  }

  /** A numbered line pressed with the heading button becomes a heading. */
  lemma {:induction false} NumberedReplaced()
    ensures InsertBlock(Editor("12. x", Selection(0, 0)), "# ").doc == "# x"
  {
    var e := Editor("12. x", Selection(0, 0));
    LineOf(e.doc, 0, 0, 5);
    assert CurrentLine(e) == e.doc;
    OtherPrefixesRecognised();
    assert e.doc[..4] != "# ";
    BlockOutcome(e, "# ");
    assert e.doc[4..] == "x";
  }

  /** A three-character document without a line break is one line. */
  lemma {:induction false} WholeLine(doc: string)
    requires |doc| == 3 && doc[0] != '\n' && doc[1] != '\n' && doc[2] != '\n'
    ensures LineStart(doc, 0) == 0 && LineEnd(doc, 0) == 3
    ensures CurrentLine(Editor(doc, Selection(0, 0))) == doc
  {
    LineOf(doc, 0, 0, 3);
  }

  /** A cursor behind the old prefix keeps pointing at the same character:
      the mapping moves it by exactly the change in length. */
  lemma {:induction false} CursorFollowsText(e: Editor, p: string)
    requires Valid(e) && e.sel.Empty()
    requires e.sel.head > BlockEdit(e, p).from && e.sel.head >= BlockEdit(e, p).to
    ensures var c := BlockEdit(e, p);
      var r := InsertBlock(e, p);
      && r.sel.head + (c.to - c.from) == e.sel.head + |c.insert|
      && (e.sel.head < |e.doc| ==> r.doc[r.sel.head] == e.doc[e.sel.head])
  {
    var c := BlockEdit(e, p);
    var r := InsertBlock(e, p);
    assert r.sel.head == MapPos(e.sel.head, c, -1);
    if e.sel.head < |e.doc| {
      SameCharAfter(e.doc, r.doc, c, e.sel.head, r.sel.head);
    }
  }

  /** Past the change, the new text is the old text shifted. */
  lemma {:induction false} SameCharAfter(a: string, b: string, c: Change, x: nat, y: nat)
    requires c.from <= c.to <= x < |a|
    requires |b| == |a| - (c.to - c.from) + |c.insert| && b[c.from + |c.insert|..] == a[c.to..]
    requires y + (c.to - c.from) == x + |c.insert|
    ensures y < |b| && b[y] == a[x]
  {
    assert b[c.from + |c.insert|..][y - c.from - |c.insert|] == a[c.to..][x - c.to];
  }
}
