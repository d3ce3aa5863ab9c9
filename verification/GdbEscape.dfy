/** Escaping of binary data for the GDB remote protocol (km/km_gdb_stub.c). */
module GdbEscape {

  type Bytes = seq<int>

  const ESCAPE: int := 0x7d // '}'

  /** '}', '$', '#' and '*'. */
  predicate Special(b: int) {
    b == 0x7d || b == 0x24 || b == 0x23 || b == 0x2a
  }

  /** b ^ 0x20 */
  function Flip(b: int): int {
    if b / 32 % 2 == 0 then b + 32 else b - 32
  }

  lemma FlipIs(b: bv8)
    ensures Flip(b as int) == (b ^ 0x20) as int
  {
  }

  lemma FlipTwice(b: int)
    ensures Flip(Flip(b)) == b
  {
  }

  function EscapeByte(b: int): Bytes {
    if Special(b) then [ESCAPE, Flip(b)] else [b]
  }

  function Escape(s: Bytes): Bytes {
    if s == [] then [] else EscapeByte(s[0]) + Escape(s[1..])
  }

  /** What the receiver makes of escaped data. */
  function Unescape(s: Bytes): Bytes {
    if s == [] then []
    else if s[0] == ESCAPE && |s| > 1 then [Flip(s[1])] + Unescape(s[2..])
    else [s[0]] + Unescape(s[1..])
  }

  function Specials(s: Bytes): nat {
    if s == [] then 0 else (if Special(s[0]) then 1 else 0) + Specials(s[1..])
  }

  /** The receiver recovers the data. */
  lemma {:induction false} UnescapeInverts(s: Bytes)
    ensures Unescape(Escape(s)) == s
  {
    if s != [] {
      UnescapeInverts(s[1..]);
      var e, rest := Escape(s), Escape(s[1..]);
      if Special(s[0]) {
        FlipTwice(s[0]);
        assert e[0] == ESCAPE && e[1] == Flip(s[0]) && e[2..] == rest;
      } else {
        assert e[0] == s[0] && e[1..] == rest;
      }
      assert s == [s[0]] + s[1..];
    }
  }

  /** No packet delimiter and no run-length marker remains, and the length grows by the special bytes. */
  lemma {:induction false} EscapeClean(s: Bytes)
    ensures |Escape(s)| == |s| + Specials(s)
    ensures forall k :: 0 <= k < |Escape(s)| ==> Escape(s)[k] != 0x24 && Escape(s)[k] != 0x23 && Escape(s)[k] != 0x2a
  {
    if s != [] {
      EscapeClean(s[1..]);
      assert EscapeByte(s[0])[0] != 0x24 && EscapeByte(s[0])[0] != 0x23 && EscapeByte(s[0])[0] != 0x2a;
    }
  }

  lemma {:induction false} EscapeJoin(a: Bytes, b: Bytes)
    ensures Escape(a + b) == Escape(a) + Escape(b) && Specials(a + b) == Specials(a) + Specials(b)
  {
    hide EscapeByte, Special;
    if a == [] {
      assert a + b == b;
    } else {
      EscapeJoin(a[1..], b);
      assert (a + b)[1..] == a[1..] + b && (a + b)[0] == a[0];
      assert EscapeByte(a[0]) + (Escape(a[1..]) + Escape(b)) == (EscapeByte(a[0]) + Escape(a[1..])) + Escape(b);
    }
  }

  lemma EscapeOne(s: Bytes, i: nat)
    requires i < |s|
    ensures Escape(s[..i + 1]) == Escape(s[..i]) + EscapeByte(s[i])
    ensures Specials(s[i..]) == (if Special(s[i]) then 1 else 0) + Specials(s[i + 1..])
  {
    EscapeJoin(s[..i], [s[i]]);
    assert s[..i + 1] == s[..i] + [s[i]] && [s[i]][1..] == [];
    assert s[i..][1..] == s[i + 1..];
  }

  // gdb_char_counter
  method CharCounter(s: Bytes) returns (count: nat)
    ensures count == Specials(s)
  {
    count := 0;
    var i := 0;
    assert s[0..] == s;
    while i < |s|
      invariant i <= |s| && count + Specials(s[i..]) == Specials(s)
    {
      EscapeOne(s, i);
      if Special(s[i]) {
        count := count + 1;
      }
      i := i + 1;
    }
  }

  // gdb_add_escapes: escapes the first `len` bytes in place; fails when the buffer is too small
  method AddEscapes(buffer: array<int>, len: nat) returns (ok: bool, buflen: nat)
    requires len <= buffer.Length
    modifies buffer
    ensures ok <==> len + Specials(old(buffer[..len])) <= buffer.Length
    ensures ok ==> buflen == len + Specials(old(buffer[..len])) && buffer[..buflen] == Escape(old(buffer[..len]))
  {
    ghost var s := buffer[..len];
    ghost var done := 0;
    var i := 0;
    buflen := len;
    EscapeClean(s);
    assert s[..0] == [] && s[0..] == s;
    hide Escape, Specials, EscapeByte;
    while i < buflen
      invariant 0 <= done <= len && 0 <= i <= buflen <= buffer.Length && buflen - i == len - done
      invariant buffer[..i] == Escape(s[..done]) && buffer[i..buflen] == s[done..]
      invariant buflen + Specials(s[done..]) == len + Specials(s)
      decreases len - done
    {
      EscapeOne(s, done);
      EscapeByteSize(s[done]);
      assert s[done + 1..] == s[done..][1..];
      ok, i, buflen := EscapeAt(buffer, i, buflen, Escape(s[..done]), s[done..]);
      if !ok {
        return;
      }
      done := done + 1;
    }
    assert s[..done] == s && s[done..] == [];
    assert Specials([]) == 0 by {
      SpecialsNone();
    }
    ok := true;
  }

  lemma SpecialsNone()
    ensures Specials([]) == 0
  {
  }

  lemma EscapeByteSize(b: int)
    ensures |EscapeByte(b)| == if Special(b) then 2 else 1
  {
  }

  // one turn of its loop
  method EscapeAt(buffer: array<int>, i: nat, len: nat, ghost head: Bytes, ghost rest: Bytes)
    returns (ok: bool, next: nat, buflen: nat)
    requires i < len <= buffer.Length && buffer[..i] == head && buffer[i..len] == rest
    modifies buffer
    ensures ok <==> !Special(rest[0]) || len < buffer.Length
    ensures ok ==> next == i + |EscapeByte(rest[0])| && buflen == len + |EscapeByte(rest[0])| - 1 &&
                   next <= buflen <= buffer.Length
    ensures ok ==> buffer[..next] == head + EscapeByte(rest[0]) && buffer[next..buflen] == rest[1..]
  {
    next, buflen := i + 1, len;
    assert buffer[i] == rest[0];
    if Special(buffer[i]) {
      if buffer.Length - buflen == 0 {
        return false, i, len;
      }
      Shift(buffer, i, buflen);
      assert buffer[i + 1..len + 1][0] == buffer[i + 1] == rest[0];
      buffer[i + 1] := Flip(buffer[i + 1]);
      next, buflen := i + 2, len + 1;
    }
    ok := true;
  }

  // memmove of the rest by one, and the escape character before it
  method Shift(buffer: array<int>, i: nat, buflen: nat)
    requires i < buflen < buffer.Length
    modifies buffer
    ensures buffer[..i] == old(buffer[..i]) && buffer[i] == ESCAPE &&
            buffer[i + 1..buflen + 1] == old(buffer[i..buflen])
  {
    var k := buflen;
    while k > i
      invariant i <= k <= buflen
      invariant forall j :: 0 <= j <= k ==> buffer[j] == old(buffer[j])
      invariant forall j :: k < j <= buflen ==> buffer[j] == old(buffer[j - 1])
    {
      buffer[k] := buffer[k - 1];
      k := k - 1;
    }
    buffer[i] := ESCAPE;
    ghost var was := old(buffer[i..buflen]);
    forall j | 0 <= j < buflen - i
      ensures buffer[i + 1..buflen + 1][j] == was[j]
    {
      assert buffer[i + 1 + j] == old(buffer[i + j]);
    }
  }

  /** The counted size is always enough. */
  method EscapeCounted(buffer: array<int>, len: nat) returns (buflen: nat)
    requires len <= buffer.Length == len + Specials(buffer[..len])
    modifies buffer
    ensures buflen == buffer.Length && buffer[..] == Escape(old(buffer[..len]))
  {
    var ok;
    ok, buflen := AddEscapes(buffer, len);
  }

  // gdb_binary_escape_add: the escape of the longest prefix that fits
  method BinaryEscapeAdd(input: Bytes, outputl: nat) returns (output: Bytes, consumed: nat)
    ensures consumed <= |input| && output == Escape(input[..consumed]) && |output| <= outputl
    ensures forall n :: consumed < n <= |input| ==> |Escape(input[..n])| > outputl
  {
    hide Escape;
    var i := 0;
    output := [];
    EscapeNone(input);
    while i < |input|
      invariant i <= |input| && output == Escape(input[..i]) && |output| <= outputl
    {
      EscapeOne(input, i);
      if Special(input[i]) {
        if |output| + 2 > outputl {
          break;
        }
        output := output + [ESCAPE, Flip(input[i])];
      } else {
        if |output| + 1 > outputl {
          break;
        }
        output := output + [input[i]];
      }
      i := i + 1;
    }
    consumed := i;
    forall n | consumed < n <= |input|
      ensures |Escape(input[..n])| > outputl
    {
      EscapeOne(input, i);
      EscapeGrows(input, i + 1, n);
    }
  }

  lemma EscapeNone(s: Bytes)
    ensures Escape(s[..0]) == []
  {
  }

  lemma EscapeGrows(s: Bytes, m: nat, n: nat)
    requires m <= n <= |s|
    ensures |Escape(s[..m])| <= |Escape(s[..n])|
  {
    assert s[..n] == s[..m] + s[m..n];
    EscapeJoin(s[..m], s[m..n]);
  }
}
