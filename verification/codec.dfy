/** Byte strings and a stand-in for the binary encoding of replica state.

    Yjs serialises a state or a delta with `Y.encodeStateAsUpdate` and parses it
    back in `Y.applyUpdate`, which throws on malformed input. The real format
    belongs to a library outside this model; it is replaced here by the
    simplest format built from the same primitive (lib0's unsigned varint):
    the number of ids, then each id in ascending order. What the collaboration
    service relies on is kept: decoding an encoding gives the state back, and
    decoding arbitrary bytes can fail. */
module Codec {
  import opened Wrappers
  import Crdt

  type Byte = b: int | 0 <= b < 256
  type Bytes = seq<Byte>

  /** lib0 `writeVarUint`: seven bits per byte, least significant group first,
      high bit set on every byte but the last. */
  function EncodeVarUint(n: nat): (r: Bytes)
    ensures |r| > 0 && r[|r| - 1] < 128
    ensures forall i :: 0 <= i < |r| - 1 ==> r[i] >= 128
    decreases n
  {
    if n < 128 then [n] else [128 + n % 128] + EncodeVarUint(n / 128)
  }

  /** lib0 `readVarUint`: the value and the number of bytes it occupied, or
      `None` when the input ends inside the number. */
  function DecodeVarUint(b: Bytes): (r: Option<(nat, nat)>)
    ensures r.Some? ==> 0 < r.value.1 <= |b|
    decreases |b|
  {
    if |b| == 0 then None
    else if b[0] < 128 then Some((b[0], 1))
    else match DecodeVarUint(b[1..])
      case None => None
      case Some((v, k)) => Some((b[0] - 128 + 128 * v, k + 1))
  }

  lemma {:induction false} VarUintRoundTrip(n: nat, rest: Bytes)
    ensures DecodeVarUint(EncodeVarUint(n) + rest) == Some((n, |EncodeVarUint(n)|))
    decreases n
  {
    var e := EncodeVarUint(n);
    if n >= 128 {
      assert (e + rest)[1..] == EncodeVarUint(n / 128) + rest;
      VarUintRoundTrip(n / 128, rest);
    }
  }

  /** Smallest element of a non-empty set of ids. */
  function Min(s: set<nat>): (m: nat)
    requires s != {}
    ensures m in s && forall y :: y in s ==> m <= y
  {
    MinExists(s);
    var m :| m in s && forall y :: y in s ==> m <= y;
    m
  }

  lemma {:induction false} MinExists(s: set<nat>)
    requires s != {}
    ensures exists m :: m in s && forall y :: y in s ==> m <= y
  {
    var x :| x in s;
    MinBelow(s, x);
  }

  /** Descending from any element reaches a least one. */
  lemma {:induction false} MinBelow(s: set<nat>, x: nat)
    requires x in s
    ensures exists m :: m in s && forall y :: y in s ==> m <= y
    decreases x
  {
    if exists y :: y in s && y < x {
      var y :| y in s && y < x;
      MinBelow(s, y);
    } else {
      assert forall y :: y in s ==> x <= y;
    }
  }

  /** The ids of a state in strictly ascending order. */
  function Ascending(s: set<nat>): (r: seq<nat>)
    ensures |r| == |s|
    ensures forall x :: x in r <==> x in s
    ensures forall i, j :: 0 <= i < j < |r| ==> r[i] < r[j]
    decreases |s|
  {
    if s == {} then []
    else
      var m := Min(s);
      var rest := Ascending(s - {m});
      assert forall i :: 0 <= i < |rest| ==> m < rest[i] by {
        forall i | 0 <= i < |rest| ensures m < rest[i] {
          assert rest[i] in s - {m};
        }
      }
      var r := [m] + rest;
      assert forall i, j :: 0 <= i < j < |r| ==> r[i] < r[j] by {
        forall i, j | 0 <= i < j < |r| ensures r[i] < r[j] {
          assert r[j] == rest[j - 1];
          if i > 0 {
            assert r[i] == rest[i - 1];
          }
        }
      }
      assert forall x :: x in r <==> x in s by {
        forall x ensures x in r <==> x in s {
          assert x in r <==> x == m || x in rest;
        }
      }
      r
  }

  function EncodeIds(ids: seq<nat>): Bytes
    decreases |ids|
  {
    if |ids| == 0 then [] else EncodeVarUint(ids[0]) + EncodeIds(ids[1..])
  }

  /** Reads `n` varints; the values and the number of bytes consumed. */
  function DecodeIds(n: nat, b: Bytes): (r: Option<(seq<nat>, nat)>)
    ensures r.Some? ==> |r.value.0| == n && r.value.1 <= |b|
    decreases n
  {
    if n == 0 then Some(([], 0))
    else
      var first := DecodeVarUint(b);
      if first.None? then None
      else
        var rest := DecodeIds(n - 1, b[first.value.1..]);
        if rest.None? then None
        else Some(([first.value.0] + rest.value.0, first.value.1 + rest.value.1))
  }

  /** One step of `DecodeIds`: a leading varint, then the remaining ones. */
  lemma {:induction false} DecodeIdsStep(n: nat, b: Bytes, v: nat, k: nat, tail: seq<nat>, used: nat)
    requires n > 0 && DecodeVarUint(b) == Some((v, k))
    requires DecodeIds(n - 1, b[k..]) == Some((tail, used))
    ensures DecodeIds(n, b) == Some(([v] + tail, k + used))
  {
  }

  lemma {:induction false} IdsRoundTrip(ids: seq<nat>, rest: Bytes)
    ensures DecodeIds(|ids|, EncodeIds(ids) + rest) == Some((ids, |EncodeIds(ids)|))
    decreases |ids|
  {
    if |ids| > 0 {
      var head := EncodeVarUint(ids[0]);
      var tail := EncodeIds(ids[1..]);
      var b := head + (tail + rest);
      assert EncodeIds(ids) + rest == b;
      VarUintRoundTrip(ids[0], tail + rest);
      assert b[|head|..] == tail + rest;
      IdsRoundTrip(ids[1..], rest);
      DecodeIdsStep(|ids|, b, ids[0], |head|, ids[1..], |tail|);
      assert [ids[0]] + ids[1..] == ids;
      assert DecodeIds(|ids|, b) == Some((ids, |head| + |tail|));
    } else {
      assert EncodeIds(ids) + rest == rest;
    }
  }

  /** Stand-in for `Y.encodeStateAsUpdate`. */
  function EncodeState(s: Crdt.State): Bytes {
    var ids := Ascending(s);
    EncodeVarUint(|ids|) + EncodeIds(ids)
  }

  /** Stand-in for the parsing half of `Y.applyUpdate`: `None` where Yjs throws
      (empty input, truncated input, trailing bytes). */
  function DecodeState(b: Bytes): (r: Option<Crdt.State>)
    ensures r.Some? ==> |b| > 0
  {
    var count := DecodeVarUint(b);
    if count.None? then None
    else
      var k := count.value.1;
      var ids := DecodeIds(count.value.0, b[k..]);
      if ids.None? || k + ids.value.1 != |b| then None
      else Some(Elements(ids.value.0))
  }

  function Elements(ids: seq<nat>): (r: set<nat>)
    ensures forall x :: x in r <==> x in ids
  {
    set x | x in ids
  }

  /** Decoding an encoded state gives the state back. */
  lemma {:induction false} StateRoundTrip(s: Crdt.State)
    ensures DecodeState(EncodeState(s)) == Some(s)
  {
    var ids := Ascending(s);
    var e := EncodeState(s);
    var head := EncodeVarUint(|ids|);
    var body := EncodeIds(ids);
    assert e == head + body;
    VarUintRoundTrip(|ids|, body);
    assert DecodeVarUint(e) == Some((|ids|, |head|));
    assert e[|head|..] == body + [];
    IdsRoundTrip(ids, []);
    assert DecodeIds(|ids|, e[|head|..]) == Some((ids, |body|));
    assert |head| + |body| == |e|;
    assert Elements(ids) == s;
  }
}
