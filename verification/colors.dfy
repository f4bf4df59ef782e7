/** The presence colour of a user in the chat and avatar lists: the sum of
    the first UTF-16 code unit of every code point of the id, modulo the
    eight palette entries. */
module Colors {
  import opened Wrappers
  import Strings

  const Palette: seq<string> := [
    "#f472b6", "#c084fc", "#60a5fa", "#34d399",
    "#fcd34d", "#fb7185", "#f97316", "#a3e635"]

  const DefaultId: string := "anonymous"

  /** `char.charCodeAt(0)` for one element of `Array.from(id)`, which is a
      whole code point: the code point itself, or its high surrogate. */
  function FirstUnit(c: char): (u: nat)
    ensures u < 0x1_0000
    ensures c as int < 0x1_0000 ==> u == c as int
    ensures u == Strings.Utf16(c)[0]
  {
    if c as int < 0x1_0000 then c as int else 0xD800 + (c as int - 0x1_0000) / 0x400
  }

  /** The `reduce` of the id: the sum of the first units. */
  function UnitSum(s: string): nat
    decreases |s|
  {
    if |s| == 0 then 0 else FirstUnit(s[0]) + UnitSum(s[1..])
  }

  /** `getColorForUser(id)`: the id defaults to "anonymous" only when it is
      not given at all; an empty id is used as it is. */
  function ColorForUser(id: Option<string>): (r: string)
    ensures r in Palette
    ensures id == Some("") ==> r == Palette[0]
  {
    var s := id.GetOr(DefaultId);
    Palette[UnitSum(s) % |Palette|]
  }

  /** The sum over a concatenation is the sum of the parts. */
  lemma {:induction false} UnitSumAppend(a: string, b: string)
    ensures UnitSum(a + b) == UnitSum(a) + UnitSum(b)
    decreases |a|
  {
    if |a| == 0 {
      assert a + b == b;
    } else {
      assert (a + b)[1..] == a[1..] + b;
      UnitSumAppend(a[1..], b);
    }
  }

  /** Taking one character out of a string takes its unit out of the sum. */
  lemma {:induction false} UnitSumRemove(b: string, k: nat)
    requires k < |b|
    ensures UnitSum(b) == FirstUnit(b[k]) + UnitSum(b[..k] + b[k + 1..])
  {
    var tail := [b[k]] + b[k + 1..];
    assert b == b[..k] + tail;
    UnitSumAppend(b[..k], tail);
    UnitSumAppend(b[..k], b[k + 1..]);
    assert tail[1..] == b[k + 1..];
  }

  lemma {:induction false} MultisetRemove(b: string, k: nat)
    requires k < |b|
    ensures multiset(b[..k] + b[k + 1..]) == multiset(b) - multiset{b[k]}
  {
    assert b == b[..k] + [b[k]] + b[k + 1..];
  }

  lemma {:induction false} MultisetTail(a: string)
    requires |a| > 0
    ensures multiset(a[1..]) == multiset(a) - multiset{a[0]}
  {
    assert a == [a[0]] + a[1..];
  }

  lemma {:induction false} Locate(b: string, x: char) returns (k: nat)
    requires x in multiset(b)
    ensures k < |b| && b[k] == x
  {
    assert x in b;
    k :| 0 <= k < |b| && b[k] == x;
  }

  /** The sum depends only on which characters occur how often. */
  lemma {:induction false} UnitSumPermutation(a: string, b: string)
    requires multiset(a) == multiset(b)
    ensures UnitSum(a) == UnitSum(b)
    decreases |a|
  {
    if |a| > 0 {
      var k := Locate(b, a[0]);
      var rest := b[..k] + b[k + 1..];
      UnitSumRemove(b, k);
      MultisetRemove(b, k);
      MultisetTail(a);
      assert multiset(a) - multiset{a[0]} == multiset(b) - multiset{b[k]};
      UnitSumPermutation(a[1..], rest);
    }
  }

  /** Any rearrangement of the same characters gets the same colour. */
  lemma {:induction false} OrderIndependent(a: string, b: string)
    requires multiset(a) == multiset(b)
    ensures ColorForUser(Some(a)) == ColorForUser(Some(b))
  {
    UnitSumPermutation(a, b);
  }

  /** A missing id is coloured as "anonymous", whose units sum to 1001. */
  lemma {:induction false} AnonymousColor()
    ensures ColorForUser(None) == ColorForUser(Some(DefaultId)) == Palette[1]
  {
    var s := DefaultId;
    assert s == ['a'] + "nonymous";
    assert UnitSum("s") == 115;
    assert UnitSum("us") == 117 + 115 by { assert "us"[1..] == "s"; }
    assert UnitSum("ous") == 111 + 232 by { assert "ous"[1..] == "us"; }
    assert UnitSum("mous") == 109 + 343 by { assert "mous"[1..] == "ous"; }
    assert UnitSum("ymous") == 121 + 452 by { assert "ymous"[1..] == "mous"; }
    assert UnitSum("nymous") == 110 + 573 by { assert "nymous"[1..] == "ymous"; }
    assert UnitSum("onymous") == 111 + 683 by { assert "onymous"[1..] == "nymous"; }
    assert UnitSum("nonymous") == 110 + 794 by { assert "nonymous"[1..] == "onymous"; }
    assert UnitSum(s) == 97 + 904 by { assert s[1..] == "nonymous"; }
    assert |Palette| == 8;
    assert 1001 % 8 == 1;
    assert ColorForUser(Some(s)) == Palette[UnitSum(s) % 8];
  }

  /** Repeating one character adds its unit once per copy. */
  lemma {:induction false} UnitSumRepeat(n: nat, c: char)
    ensures UnitSum(seq(n, _ => c)) == n * FirstUnit(c)
  {
    var copies := seq(n, _ => c);
    if n > 0 {
      var fewer := seq(n - 1, _ => c);
      assert copies[0] == c && copies[1..] == fewer;
      UnitSumRepeat(n - 1, c);
      assert UnitSum(copies) == FirstUnit(c) + (n - 1) * FirstUnit(c);
      assert FirstUnit(c) + (n - 1) * FirstUnit(c) == n * FirstUnit(c);
    }
  }

  /** Appending eight copies of any character leaves the colour as it is. */
  lemma {:induction false} EightCopiesInvisible(a: string, c: char)
    ensures ColorForUser(Some(a + seq(8, _ => c))) == ColorForUser(Some(a))
  {
    var eight := seq(8, _ => c);
    UnitSumAppend(a, eight);
    UnitSumRepeat(8, c);
    ShiftByEight(UnitSum(a), FirstUnit(c));
    assert UnitSum(a + eight) % 8 == UnitSum(a) % 8;
    assert |Palette| == 8;
  }

  lemma {:induction false} ShiftByEight(x: nat, y: nat)
    ensures (x + 8 * y) % 8 == x % 8
  {
  }
}
