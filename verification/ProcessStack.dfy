/** What a new process finds above its stack pointer (section 3.4 of the System V AMD64 psABI), and
    how it is laid out in bytes. Memory is read as the bytes from the stack pointer upward. */
module ProcessStack {
  import opened Sequences
  import opened MachineWords
  import opened Wrappers

  type Bytes = seq<int>

  /** Bytes of a C string, without the terminator. */
  predicate CString(s: Bytes) {
    forall i :: 0 <= i < |s| ==> 0 < s[i] < 256
  }

  // ---- words ------------------------------------------------------------------------------------

  function Pow256(n: nat): (p: nat)
    ensures p > 0
  {
    if n == 0 then 1 else 256 * Pow256(n - 1)
  }

  /** Little-endian bytes of `v`. */
  function Le(v: nat, n: nat): (r: Bytes)
    ensures |r| == n
  {
    if n == 0 then [] else [v % 256] + Le(v / 256, n - 1)
  }

  function Value(bs: Bytes): int {
    if bs == [] then 0 else bs[0] + 256 * Value(bs[1..])
  }

  lemma {:induction false} LeValue(v: nat, n: nat)
    requires v < Pow256(n)
    ensures Value(Le(v, n)) == v
  {
    if n > 0 {
      LeValue(v / 256, n - 1);
      assert Le(v, n)[1..] == Le(v / 256, n - 1);
    }
  }

  lemma WordValue(v: int)
    requires Word64(v)
    ensures Value(Le(v, 8)) == v
  {
    assert Pow256(8) == 0x1_0000_0000_0000_0000 by {
      assert Pow256(4) == 0x1_0000_0000;
    }
    LeValue(v, 8);
  }

  predicate Words64(ws: seq<int>) {
    forall i :: 0 <= i < |ws| ==> Word64(ws[i])
  }

  /** The bytes of a table of words. */
  function Words(ws: seq<int>): (r: Bytes)
    requires Words64(ws)
    ensures |r| == 8 * |ws|
  {
    if ws == [] then [] else Le(ws[0], 8) + Words(ws[1..])
  }

  lemma {:induction false} WordsJoin(a: seq<int>, b: seq<int>)
    requires Words64(a) && Words64(b)
    ensures Words64(a + b) && Words(a + b) == Words(a) + Words(b)
  {
    hide Le;
    if a == [] {
      assert a + b == b;
    } else {
      WordsJoin(a[1..], b);
      assert (a + b)[1..] == a[1..] + b;
      Joined(Le(a[0], 8), Words(a[1..]), Words(b));
    }
  }

  // ---- reading ----------------------------------------------------------------------------------

  function WordAt(m: Bytes, i: nat): int
    requires i + 8 <= |m|
  {
    Value(m[i..i + 8])
  }

  /** Words from `i` up to the first zero word. */
  function ReadTable(m: Bytes, i: nat): seq<int>
    decreases |m| - i
  {
    if i + 8 > |m| || WordAt(m, i) == 0 then [] else [WordAt(m, i)] + ReadTable(m, i + 8)
  }

  /** Auxiliary vector entries from `i` up to AT_NULL. */
  function ReadAuxv(m: Bytes, i: nat): seq<(int, int)>
    decreases |m| - i
  {
    if i + 16 > |m| || WordAt(m, i) == 0 then [] else [(WordAt(m, i), WordAt(m, i + 8))] + ReadAuxv(m, i + 16)
  }

  /** The string at `i`. */
  function ReadString(m: Bytes, i: nat): Bytes
    decreases |m| - i
  {
    if i >= |m| || m[i] == 0 then [] else [m[i]] + ReadString(m, i + 1)
  }

  lemma WordIs(m: Bytes, i: nat, v: int)
    requires Word64(v) && At(m, i, Le(v, 8))
    ensures i + 8 <= |m| && WordAt(m, i) == v
  {
    WordValue(v);
  }

  /** A table of nonzero words followed by a zero word reads back. */
  lemma {:induction false} TableIs(m: Bytes, i: nat, ws: seq<int>)
    requires Words64(ws) && (forall k :: 0 <= k < |ws| ==> ws[k] != 0)
    requires Words64(ws + [0]) && At(m, i, Words(ws + [0]))
    ensures ReadTable(m, i) == ws
    decreases |ws|
  {
    var t := ws + [0];
    AtJoin(m, i, Le(t[0], 8), Words(t[1..]));
    WordIs(m, i, t[0]);
    if ws != [] {
      assert t[1..] == ws[1..] + [0];
      TableIs(m, i + 8, ws[1..]);
    }
  }

  /** Entries as words, closed by AT_NULL. */
  function AuxWords(es: seq<(int, int)>): seq<int> {
    if es == [] then [0, 0] else [es[0].0, es[0].1] + AuxWords(es[1..])
  }

  predicate AuxOk(es: seq<(int, int)>) {
    forall k :: 0 <= k < |es| ==> Word64(es[k].0) && es[k].0 != 0 && Word64(es[k].1)
  }

  lemma {:induction false} AuxWords64(es: seq<(int, int)>)
    requires AuxOk(es)
    ensures Words64(AuxWords(es)) && |AuxWords(es)| == 2 * |es| + 2
  {
    if es != [] {
      AuxWords64(es[1..]);
    }
  }

  /** The value of the first entry with the key. */
  function Lookup(es: seq<(int, int)>, key: int): Option<int> {
    if es == [] then None else if es[0].0 == key then Some(es[0].1) else Lookup(es[1..], key)
  }

  /** Each key occurs at most once. */
  predicate Once(es: seq<(int, int)>) {
    forall i, j :: 0 <= i < j < |es| ==> es[i].0 != es[j].0
  }

  lemma {:induction false} LookupIs(es: seq<(int, int)>, key: int, v: int)
    requires Once(es) && (key, v) in es
    ensures Lookup(es, key) == Some(v)
  {
    if es[0] != (key, v) {
      LookupIs(es[1..], key, v);
    }
  }

  predicate Missing(es: seq<(int, int)>, key: int) {
    forall e :: e in es ==> e.0 != key
  }

  lemma {:induction false} LookupNone(es: seq<(int, int)>, key: int)
    requires Missing(es, key)
    ensures Lookup(es, key) == None
  {
    if es != [] {
      LookupNone(es[1..], key);
    }
  }

  lemma MissingJoin(a: seq<(int, int)>, b: seq<(int, int)>, key: int)
    requires Missing(a, key) && Missing(b, key)
    ensures Missing(a + b, key)
  {
  }

  lemma {:induction false} AuxvIs(m: Bytes, i: nat, es: seq<(int, int)>)
    requires AuxOk(es) && Words64(AuxWords(es)) && At(m, i, Words(AuxWords(es)))
    ensures ReadAuxv(m, i) == es
    decreases |es|
  {
    var t := AuxWords(es);
    AuxWords64(es);
    assert Words(t) == Le(t[0], 8) + (Le(t[1], 8) + Words(t[2..])) by {
      assert t[1..][1..] == t[2..];
    }
    AtJoin(m, i, Le(t[0], 8), Le(t[1], 8) + Words(t[2..]));
    AtJoin(m, i + 8, Le(t[1], 8), Words(t[2..]));
    WordIs(m, i, t[0]);
    WordIs(m, i + 8, t[1]);
    if es != [] {
      AuxWords64(es[1..]);
      assert t[2..] == AuxWords(es[1..]);
      AuxvIs(m, i + 16, es[1..]);
    }
  }

  /** A terminated string reads back. */
  lemma {:induction false} StringIs(m: Bytes, i: nat, s: Bytes)
    requires CString(s) && At(m, i, s + [0])
    ensures ReadString(m, i) == s
    decreases |s|
  {
    assert m[i..i + |s| + 1][0] == m[i];
    if s != [] {
      assert s + [0] == [s[0]] + (s[1..] + [0]);
      AtJoin(m, i, [s[0]], s[1..] + [0]);
      StringIs(m, i + 1, s[1..]);
    }
  }

  /** A string without a terminator is read on past its end. */
  lemma {:induction false} StringGoesOn(m: Bytes, i: nat, s: Bytes)
    requires CString(s) && At(m, i, s)
    ensures ReadString(m, i) == s + ReadString(m, i + |s|)
    decreases |s|
  {
    if s != [] {
      AtHead(m, i, s);
      assert s == [s[0]] + s[1..];
      AtJoin(m, i, [s[0]], s[1..]);
      StringGoesOn(m, i + 1, s[1..]);
      Joined([s[0]], s[1..], ReadString(m, i + |s|));
    }
  }
}
