/** Document slugs: a title reduced to lower-case letters, digits and single
    dashes, capped at 40 characters, followed by a dash and six random
    characters. The random bytes are a parameter. */
module Slug {
  import opened Wrappers
  import Codec
  import Gate
  import Hook

  const Alphabet: string := "abcdefghijklmnopqrstuvwxyz0123456789"

  function AlphabetChar(k: int): (c: char)
    ensures 0 <= k < 26 ==> c as int == 'a' as int + k
    ensures 26 <= k < 36 ==> c as int == '0' as int + k - 26
  {
    if 0 <= k < 26 then ('a' as int + k) as char
    else if 26 <= k < 36 then ('0' as int + k - 26) as char
    else '?'
  }
  const SuffixLength: nat := 6
  const MaxBaseLength: nat := 40
  const Fallback: string := "doc"

  /** The characters `[a-z0-9]` the title keeps. */
  predicate IsAlnum(c: char) {
    'a' <= c <= 'z' || '0' <= c <= '9'
  }

  /** `toLowerCase` on one character, exact wherever the result can contain
      a kept character: ASCII capitals, the dotted capital I (which lowers to
      "i" and a combining dot) and the Kelvin sign (which lowers to "k").
      Every other character is kept as it is: it and its lower case are both
      outside `[a-z0-9]`, so the next step treats them alike. */
  function LowerChar(c: char): string {
    if 'A' <= c <= 'Z' then [(c as int + 32) as char]
    else if c == '\U{0130}' then "i\U{0307}"
    else if c == '\U{212A}' then "k"
    else [c]
  }

  function Lower(s: string): string
    decreases |s|
  {
    if |s| == 0 then [] else LowerChar(s[0]) + Lower(s[1..])
  }

  /** The kept characters of `s`, in order. */
  function Alnums(s: string): (r: string)
    ensures forall i :: 0 <= i < |r| ==> IsAlnum(r[i])
    decreases |s|
  {
    if |s| == 0 then [] else (if IsAlnum(s[0]) then [s[0]] else []) + Alnums(s[1..])
  }

  /** No dash follows another. */
  predicate SingleDashes(s: string) {
    forall i :: 0 <= i < |s| - 1 ==> !(s[i] == '-' && s[i + 1] == '-')
  }

  /** `s` with its leading run of characters outside `[a-z0-9]` removed. */
  function SkipSeparators(s: string): (r: string)
    ensures |r| <= |s| && r == s[|s| - |r|..]
    ensures r == [] || IsAlnum(r[0])
    ensures forall i :: 0 <= i < |s| - |r| ==> !IsAlnum(s[i])
    decreases |s|
  {
    if |s| == 0 || IsAlnum(s[0]) then s else SkipSeparators(s[1..])
  }

  /** `.replace(/[^a-z0-9]+/g, '-')`: every maximal run of characters outside
      `[a-z0-9]` becomes one dash. */
  function Collapse(s: string): (r: string)
    ensures Gate.SlugSafe(r) && SingleDashes(r)
    ensures Alnums(r) == Alnums(s)
    ensures |r| <= |s|
    ensures r != [] && r[0] == '-' ==> s != [] && !IsAlnum(s[0])
    decreases |s|
  {
    if |s| == 0 then []
    else if IsAlnum(s[0]) then
      var rest := Collapse(s[1..]);
      [s[0]] + rest
    else
      var after := SkipSeparators(s);
      var rest := Collapse(after);
      SkipKeepsAlnums(s);
      ['-'] + rest
  }

  lemma {:induction false} SkipKeepsAlnums(s: string)
    ensures Alnums(SkipSeparators(s)) == Alnums(s)
    decreases |s|
  {
    if |s| > 0 && !IsAlnum(s[0]) {
      SkipKeepsAlnums(s[1..]);
    }
  }

  /** A maximal run of other characters, followed by a kept character or by
      nothing, becomes one dash. */
  lemma {:induction false} SeparatorRun(sep: string, b: string)
    requires |sep| > 0 && forall i :: 0 <= i < |sep| ==> !IsAlnum(sep[i])
    requires b == [] || IsAlnum(b[0])
    ensures Collapse(sep + b) == "-" + Collapse(b)
  {
    var s := sep + b;
    assert s[0] == sep[0];
    SkipExactly(s, |sep|);
    assert s[|sep|..] == b;
  }

  /** Skipping stops exactly after a run of other characters that is
      followed by a kept character or by the end. */
  lemma {:induction false} SkipExactly(s: string, n: nat)
    requires n <= |s| && forall i :: 0 <= i < n ==> !IsAlnum(s[i])
    requires n == |s| || IsAlnum(s[n])
    ensures SkipSeparators(s) == s[n..]
    decreases n
  {
    if n > 0 {
      assert !IsAlnum(s[0]);
      SkipExactly(s[1..], n - 1);
      assert s[1..][n - 1..] == s[n..];
    }
  }

  /** The two cases of `Collapse` together pin it down: kept characters stay,
      and the maximal run of other characters after them becomes one dash in
      front of the collapsed rest. Dropping the run, or keeping it, breaks
      this equation. */
  lemma {:induction false} CollapseJoin(a: string, sep: string, b: string)
    requires forall i :: 0 <= i < |a| ==> IsAlnum(a[i])
    requires |sep| > 0 && forall i :: 0 <= i < |sep| ==> !IsAlnum(sep[i])
    requires b == [] || IsAlnum(b[0])
    ensures Collapse(a + sep + b) == a + "-" + Collapse(b)
  {
    Regroup(a, sep, b);
    CollapseAppend(a, sep + b);
    SeparatorRun(sep, b);
    Regroup(a, "-", Collapse(b));
  }

  lemma {:induction false} Regroup(x: string, y: string, z: string)
    ensures x + y + z == x + (y + z)
  {
  }

  /** `.replace(/^-+|-+$/g, '')`. */
  function TrimDashes(s: string): (r: string)
  {
    DropTrailing(DropLeading(s))
  }

  function DropLeading(s: string): (r: string)
    ensures |r| <= |s| && r == s[|s| - |r|..]
    ensures r == [] || r[0] != '-'
    ensures forall i :: 0 <= i < |s| - |r| ==> s[i] == '-'
    decreases |s|
  {
    if |s| > 0 && s[0] == '-' then DropLeading(s[1..]) else s
  }

  function DropTrailing(s: string): (r: string)
    ensures |r| <= |s| && r == s[..|r|]
    ensures r == [] || r[|r| - 1] != '-'
    ensures forall i :: |r| <= i < |s| ==> s[i] == '-'
    decreases |s|
  {
    if |s| > 0 && s[|s| - 1] == '-' then DropTrailing(s[..|s| - 1]) else s
  }

  /** `.slice(0, 40)`. */
  function Take(s: string, n: nat): (r: string)
    ensures r == s[..if |s| <= n then |s| else n]
  {
    if |s| <= n then s else s[..n]
  }

  /** `slugify(text)`. */
  function Slugify(text: string): (r: string)
    ensures |r| <= MaxBaseLength
    ensures r == [] || r[0] != '-'
    ensures |r| < MaxBaseLength ==> r == [] || r[|r| - 1] != '-'
  {
    var lead := DropLeading(Collapse(Lower(text)));
    var t := DropTrailing(lead);
    assert |t| > 0 ==> t[0] == lead[0];
    var r := Take(t, MaxBaseLength);
    assert |r| < MaxBaseLength ==> r == t;
    assert |r| > 0 ==> r[0] == t[0];
    r
  }

  /** `randomSuffix()` over the bytes `randomBytes` returned: each byte picks
      the alphabet character at its value modulo 36. */
  function RandomSuffix(bytes: seq<Codec.Byte>): (r: string)
    ensures |r| == |bytes|
    ensures forall i :: 0 <= i < |r| ==> r[i] == Alphabet[bytes[i] % |Alphabet|]
  {
    seq(|bytes|, i requires 0 <= i < |bytes| => Alphabet[bytes[i] % |Alphabet|])
  }

  /** `generateSlug(title)`: the slugified title, or "doc" when the title is
      missing or empty, then a dash and the random suffix. */
  function GenerateSlug(title: Option<string>, bytes: seq<Codec.Byte>): (r: string)
    requires |bytes| == SuffixLength
    ensures SuffixLength + 1 <= |r| <= MaxBaseLength + 1 + SuffixLength
    ensures Gate.SlugSafe(r) && r != []
    ensures r[|r| - SuffixLength..] == RandomSuffix(bytes) && r[|r| - SuffixLength - 1] == '-'
    ensures title.None? || title == Some("") ==> r[..4] == "doc-"
    ensures title.Some? && title.value != "" ==> r[..|r| - SuffixLength - 1] == Slugify(title.value)
  {
    var suffix := RandomSuffix(bytes);
    AlphabetSafe(suffix);
    if title.None? || title.value == "" then
      FallbackSafe();
      Joined(Fallback, suffix);
      Fallback + "-" + suffix
    else
      SlugShape(title.value);
      Joined(Slugify(title.value), suffix);
      Slugify(title.value) + "-" + suffix
  }

  lemma {:induction false} FallbackSafe()
    ensures Gate.SlugSafe(Fallback) && |Fallback| == 3
  {
  }

  lemma {:induction false} Joined(base: string, suffix: string)
    requires Gate.SlugSafe(base) && Gate.SlugSafe(suffix)
    ensures var r := base + "-" + suffix;
      && Gate.SlugSafe(r) && r[..|base|] == base && r[|base|] == '-'
      && r[|base| + 1..] == suffix
  {
    var r := base + "-" + suffix;
    forall i | 0 <= i < |r|
      ensures r[i] == '-' || 'a' <= r[i] <= 'z' || '0' <= r[i] <= '9'
    {
      if i < |base| {
        assert r[i] == base[i];
      } else if i > |base| {
        assert r[i] == suffix[i - |base| - 1];
      }
    }
  }

  lemma {:induction false} AlphabetSafe(s: string)
    requires forall i :: 0 <= i < |s| ==> s[i] in Alphabet
    ensures Gate.SlugSafe(s)
  {
    AlphabetOrder();
    forall i | 0 <= i < |s|
      ensures s[i] == '-' || 'a' <= s[i] <= 'z' || '0' <= s[i] <= '9'
    {
      var k: nat :| k < |Alphabet| && Alphabet[k] == s[i];
      assert s[i] == AlphabetChar(k);
    }
  }

  /** What every slugified title looks like: only `[a-z0-9-]`, at most 40
      characters, no leading dash, no two dashes in a row, and its letters
      and digits are those of the lower-cased title, in order, cut short only
      by the length cap. */
  lemma {:induction false} SlugShape(text: string)
    ensures var r := Slugify(text);
      && Gate.SlugSafe(r) && |r| <= MaxBaseLength
      && (r == [] || r[0] != '-') && SingleDashes(r)
      && Alnums(r) <= Alnums(Lower(text))
      && (|TrimDashes(Collapse(Lower(text)))| <= MaxBaseLength ==> Alnums(r) == Alnums(Lower(text)))
  {
    var c := Collapse(Lower(text));
    var lead := DropLeading(c);
    var t := DropTrailing(lead);
    var n := if |t| <= MaxBaseLength then |t| else MaxBaseLength;
    SliceKeepsShape(c, |c| - |lead|, |c|);
    SliceKeepsShape(lead, 0, |t|);
    SliceKeepsShape(t, 0, n);
    LeadingDashes(c, |c| - |lead|);
    TrailingDashes(lead, |t|);
    AlnumsPrefix(t, n);
    assert Slugify(text) == t[..n];
  }

  /** A slice of a string of `[a-z0-9-]` with single dashes is one too. */
  lemma {:induction false} SliceKeepsShape(s: string, i: nat, j: nat)
    requires i <= j <= |s| && Gate.SlugSafe(s) && SingleDashes(s)
    ensures Gate.SlugSafe(s[i..j]) && SingleDashes(s[i..j])
  {
    var t := s[i..j];
    assert forall k :: 0 <= k < |t| ==> t[k] == s[i + k];
  }

  /** Cutting off dashes keeps the letters and digits. */
  lemma {:induction false} LeadingDashes(s: string, k: nat)
    requires k <= |s| && forall i :: 0 <= i < k ==> s[i] == '-'
    ensures Alnums(s[k..]) == Alnums(s)
  {
    var a, b := s[..k], s[k..];
    assert a + b == s;
    AllDashes(a);
    AlnumsAppend(a, b);
  }

  lemma {:induction false} TrailingDashes(s: string, k: nat)
    requires k <= |s| && forall i :: k <= i < |s| ==> s[i] == '-'
    ensures Alnums(s[..k]) == Alnums(s)
  {
    var a, b := s[..k], s[k..];
    assert a + b == s;
    AllDashes(b);
    AlnumsAppend(a, b);
    assert Alnums(a) + [] == Alnums(a);
  }

  lemma {:induction false} AllDashes(s: string)
    requires forall i :: 0 <= i < |s| ==> s[i] == '-'
    ensures Alnums(s) == []
    decreases |s|
  {
    if |s| > 0 {
      AllDashes(s[1..]);
    }
  }

  lemma {:induction false} AlnumsAppend(a: string, b: string)
    ensures Alnums(a + b) == Alnums(a) + Alnums(b)
    decreases |a|
  {
    if |a| > 0 {
      assert (a + b)[1..] == a[1..] + b;
      AlnumsAppend(a[1..], b);
      assert (a + b)[0] == a[0];
    } else {
      assert a + b == b;
    }
  }

  lemma {:induction false} AlnumsPrefix(s: string, k: nat)
    requires k <= |s|
    ensures Alnums(s[..k]) <= Alnums(s)
  {
    var a, b := s[..k], s[k..];
    assert a + b == s;
    AlnumsAppend(a, b);
    PrefixOfConcat(Alnums(a), Alnums(b));
  }

  lemma {:induction false} PrefixOfConcat(x: string, y: string)
    ensures x <= x + y
  {
    assert (x + y)[..|x|] == x;
  }

  /** Every string over the alphabet is a possible suffix: the random bytes
      can pick any character at any position. */
  lemma {:induction false} SuffixReachable(t: string)
    requires forall i :: 0 <= i < |t| ==> IsAlnum(t[i])
    ensures exists bytes: seq<Codec.Byte> :: |bytes| == |t| && RandomSuffix(bytes) == t
  {
    var bytes := seq(|t|, i requires 0 <= i < |t| => IndexIn(t[i]));
    assert RandomSuffix(bytes) == t;
  }

  /** The position of an alphabet character. */
  function IndexIn(c: char): (k: Codec.Byte)
    requires IsAlnum(c)
    ensures Alphabet[k % |Alphabet|] == c
  {
    AlphabetOrder();
    if 'a' <= c <= 'z' then c as int - 'a' as int else 26 + c as int - '0' as int
  }

  /** The alphabet is the letters in order, then the digits in order. */
  lemma {:induction false} AlphabetOrder()
    ensures |Alphabet| == 36
    ensures forall k :: 0 <= k < 36 ==> Alphabet[k] == AlphabetChar(k)
  {
    assert Alphabet == seq(36, AlphabetChar);
  }

  /** A slug that is already clean (letters, digits and single inner dashes,
      at most 40 characters) is left as it is. */
  lemma {:induction false} SlugifyFixpoint(t: string)
    requires Gate.SlugSafe(t) && SingleDashes(t) && |t| <= MaxBaseLength
    requires t == [] || (t[0] != '-' && t[|t| - 1] != '-')
    ensures Slugify(t) == t
  {
    assert forall i :: 0 <= i < |t| ==> Lowered(t[i]);
    LowerKeeps(t);
    CollapseKeeps(t);
    assert DropLeading(t) == t;
    assert DropTrailing(t) == t;
  }

  /** Characters `toLowerCase` leaves alone. */
  predicate Lowered(c: char) {
    !('A' <= c <= 'Z') && c != '\U{0130}' && c != '\U{212A}'
  }

  lemma {:induction false} LowerKeeps(t: string)
    requires forall i :: 0 <= i < |t| ==> Lowered(t[i])
    ensures Lower(t) == t
    decreases |t|
  {
    if |t| > 0 {
      LowerKeeps(t[1..]);
      assert LowerChar(t[0]) == [t[0]];
      assert [t[0]] + t[1..] == t;
    }
  }

  lemma {:induction false} CollapseKeeps(t: string)
    requires Gate.SlugSafe(t) && SingleDashes(t)
    ensures Collapse(t) == t
    decreases |t|
  {
    if |t| > 0 {
      SliceKeepsShape(t, 1, |t|);
      CollapseKeeps(t[1..]);
      if IsAlnum(t[0]) {
        assert Collapse(t) == [t[0]] + t[1..];
      } else {
        assert |t| > 1 ==> IsAlnum(t[1]);
        assert SkipSeparators(t) == t[1..];
        assert Collapse(t) == ['-'] + t[1..];
      }
      assert [t[0]] + t[1..] == t;
    }
  }

  /** Trimming happens before the cut, so a cut that lands just after a dash
      leaves it at the end: a 39-letter word followed by another word gives
      a base ending in a dash. */
  lemma {:induction false} TrailingDashSurvives(word: string, next: string)
    requires |word| == MaxBaseLength - 1 && |next| > 0
    requires forall i :: 0 <= i < |word| ==> 'a' <= word[i] <= 'z'
    requires forall i :: 0 <= i < |next| ==> 'a' <= next[i] <= 'z'
    ensures var r := Slugify(word + (" " + next));
      |r| == MaxBaseLength && r[MaxBaseLength - 1] == '-'
  {
    var c := word + ("-" + next);
    SpacedLower(word, next);
    SpacedCollapse(word, next);
    JoinedTrimmed(word, next);
    assert c[MaxBaseLength - 1] == '-';
  }

  /** Two words joined by a dash have no dash to trim. */
  lemma {:induction false} JoinedTrimmed(word: string, next: string)
    requires |word| > 0 && word[0] != '-'
    requires |next| > 0 && next[|next| - 1] != '-'
    ensures TrimDashes(word + ("-" + next)) == word + ("-" + next)
  {
    var c := word + ("-" + next);
    assert c[0] == word[0];
    assert DropLeading(c) == c;
    assert c[|c| - 1] == next[|next| - 1];
  }

  /** Two words of lower-case letters around a space lower to themselves. */
  lemma {:induction false} SpacedLower(word: string, next: string)
    requires forall i :: 0 <= i < |word| ==> 'a' <= word[i] <= 'z'
    requires forall i :: 0 <= i < |next| ==> 'a' <= next[i] <= 'z'
    ensures Lower(word + (" " + next)) == word + (" " + next)
  {
    LowerKeeps(word);
    LowerKeeps(next);
    LowerKeeps(" ");
    LowerAppend(" ", next);
    LowerAppend(word, " " + next);
  }

  /** ... and the space between them collapses to one dash. */
  lemma {:induction false} SpacedCollapse(word: string, next: string)
    requires forall i :: 0 <= i < |word| ==> 'a' <= word[i] <= 'z'
    requires |next| > 0 && forall i :: 0 <= i < |next| ==> 'a' <= next[i] <= 'z'
    ensures Collapse(word + (" " + next)) == word + ("-" + next)
  {
    SpaceCollapse(next);
    CollapseAppend(word, " " + next);
  }

  lemma {:induction false} SpaceCollapse(next: string)
    requires |next| > 0 && forall i :: 0 <= i < |next| ==> 'a' <= next[i] <= 'z'
    ensures Collapse(" " + next) == "-" + next
  {
    assert Gate.SlugSafe(next) && SingleDashes(next);
    CollapseKeeps(next);
    assert (" " + next)[1..] == next;
    assert SkipSeparators(" " + next) == next;
  }

  lemma {:induction false} LowerAppend(a: string, b: string)
    ensures Lower(a + b) == Lower(a) + Lower(b)
    decreases |a|
  {
    if |a| > 0 {
      assert (a + b)[1..] == a[1..] + b;
      LowerAppend(a[1..], b);
      assert (a + b)[0] == a[0];
    } else {
      assert a + b == b;
    }
  }

  lemma {:induction false} Recons(a: string, t: string)
    requires |a| > 0
    ensures [a[0]] + (a[1..] + t) == a + t
  {
    assert a == [a[0]] + a[1..];
  }

  /** A run of kept characters collapses to itself in front of whatever
      follows. */
  lemma {:induction false} CollapseAppend(a: string, b: string)
    requires forall i :: 0 <= i < |a| ==> IsAlnum(a[i])
    ensures Collapse(a + b) == a + Collapse(b)
    decreases |a|
  {
    if |a| > 0 {
      var ab := a + b;
      assert ab[0] == a[0] && IsAlnum(a[0]);
      assert ab[1..] == a[1..] + b;
      CollapseAppend(a[1..], b);
      assert Collapse(ab) == [a[0]] + (a[1..] + Collapse(b));
      Recons(a, Collapse(b));
    } else {
      assert a + b == b;
    }
  }

  /** A title made only of punctuation slugifies to nothing, so the generated
      slug starts with the dash before the suffix. */
  lemma {:induction false} PunctuationTitle(bytes: seq<Codec.Byte>)
    requires |bytes| == SuffixLength
    ensures GenerateSlug(Some("!?"), bytes)[0] == '-'
  {
    assert Lower("!?") == "!?";
    assert SkipSeparators("!?") == "";
    assert Collapse("!?") == "-";
    assert Slugify("!?") == "";
  }

  /** A generated slug is a valid room: the server reads it back as the
      document name from the client's request target. */
  lemma {:induction false} GeneratedSlugRoundTrip(title: Option<string>, bytes: seq<Codec.Byte>, token: string)
    requires |bytes| == SuffixLength && Gate.TokenSafe(token)
    ensures var target := Hook.RequestTarget(Hook.RoomName(GenerateSlug(title, bytes)), token);
      Gate.DocName(target) == GenerateSlug(title, bytes) && Gate.TokenOf(target) == Some(token)
  {
    Hook.RoomRoundTrip(GenerateSlug(title, bytes), token);
  }
}
