/** Packet framing of the GDB remote serial protocol (km/km_gdb_stub.c).

    Input is what the connection will deliver, all of it printable characters or ^C; the end of the
    input is a lost connection. The receive buffer is static: it keeps what earlier packets left.
 */
module GdbPacket {
  import opened HexDigits
  import opened Sequences

  const BUFMAX: nat := 16 * 1024

  /** Sum of the characters, modulo 256. */
  function Checksum(p: string): (c: int)
    ensures 0 <= c < 256
  {
    if p == "" then 0 else (Checksum(p[..|p| - 1]) + p[|p| - 1] as int) % 256
  }

  /** The checksum is a sum: of a character its code, of a text that of its parts. */
  lemma {:induction false} ChecksumAdds(a: string, b: string)
    ensures Checksum(a + b) == (Checksum(a) + Checksum(b)) % 256
    ensures |b| == 1 ==> Checksum(b) == b[0] as int % 256
  {
    if b == "" {
      assert a + b == a;
    } else {
      var init, last := b[..|b| - 1], b[|b| - 1] as int;
      ChecksumAdds(a, init);
      ChecksumLast(a + b);
      ChecksumLast(b);
      assert (a + b)[..|a + b| - 1] == a + init && (a + b)[|a + b| - 1] == b[|b| - 1];
      assert |b| == 1 ==> init == "" && Checksum(init) == 0;
      hide Checksum;
      Modulo(Checksum(a), Checksum(init), last);
    }
  }

  lemma ChecksumLast(p: string)
    requires p != ""
    ensures Checksum(p) == (Checksum(p[..|p| - 1]) + p[|p| - 1] as int) % 256
  {
  }

  lemma Modulo(x: int, y: int, z: int)
    ensures ((x + y) % 256 + z) % 256 == (x + (y + z) % 256) % 256
  {
  }

  /** The checksum two characters stand for; a character that is no hex digit counts as -1. */
  function Sent(c1: char, c2: char): int {
    (DigitOf(c1) * 16 + DigitOf(c2)) % 256
  }

  // ---- the receiver as a function of its input -----------------------------------------------------------

  /** Where the receiver stands: hunting for '$', filling the buffer, or at the checksum. */
  datatype Mode = Hunt | Body(p: string) | First(p: string) | Second(p: string, c1: char)

  /** `offset` is where the packet starts in the buffer, `rest` the input that is left. */
  datatype Outcome = Lost | TooLong | Packet(offset: nat, buf: string, rest: string)

  type Buffer = s: string | |s| == BUFMAX witness seq(BUFMAX, _ => '\0')

  /** The buffer after `p` has been put at its start. */
  function Fill(buf: Buffer, p: string): Buffer
    requires |p| < BUFMAX
  {
    p + buf[|p|..]
  }

  function Terminate(buf: Buffer, p: string): Buffer
    requires |p| < BUFMAX - 1
  {
    Fill(Fill(buf, p), p + "\0")
  }

  /** What the receiver returns, and what it sends. */
  function Receive(mode: Mode, s: string, buf: Buffer): (Outcome, string)
    decreases |s|, mode.Body?
  {
    match mode
    case Hunt =>
      if s == "" then (Lost, "") else Receive(if s[0] == '$' then Body("") else Hunt, s[1..], buf)
    case Body(p) =>
      if |p| >= BUFMAX - 1 then (TooLong, "")
      else if s == "" then (Lost, "")
      else if s[0] == '$' then Receive(Body(""), s[1..], Fill(buf, p))
      else if s[0] == '#' then Receive(First(p), s[1..], Terminate(buf, p))
      else Receive(Body(p + [s[0]]), s[1..], buf)
    case First(p) =>
      if s == "" then (Lost, "") else Receive(Second(p, s[0]), s[1..], buf)
    case Second(p, c1) =>
      if s == "" then (Lost, "")
      else if Checksum(p) != Sent(c1, s[0]) then
        var (out, sent) := Receive(Hunt, s[1..], buf);
        (out, "-" + sent)
      else if buf[2] == ':' then (Packet(3, buf, s[1..]), "+" + [buf[0], buf[1]])
      else (Packet(0, buf, s[1..]), "+")
  }

  // ---- frames ------------------------------------------------------------------------------------------------

  /** A frame on the line: noise, a start, aborted starts, then payload and checksum characters. */
  datatype Frame = Frame(noise: string, aborted: seq<string>, payload: string, c1: char, c2: char)

  predicate Clean(p: string) {
    |p| < BUFMAX - 1 && '$' !in p && '#' !in p
  }

  predicate FrameOk(f: Frame) {
    '$' !in f.noise && Clean(f.payload) && forall k :: 0 <= k < |f.aborted| ==> Clean(f.aborted[k])
  }

  predicate Good(f: Frame) {
    Checksum(f.payload) == Sent(f.c1, f.c2)
  }

  function AbortedText(aborted: seq<string>): string {
    if aborted == [] then "" else aborted[0] + "$" + AbortedText(aborted[1..])
  }

  function FrameText(f: Frame): string {
    f.noise + ("$" + (AbortedText(f.aborted) + (f.payload + ("#" + [f.c1, f.c2]))))
  }

  function Frames(fs: seq<Frame>): string {
    if fs == [] then "" else FrameText(fs[0]) + Frames(fs[1..])
  }

  /** The buffer after a frame. */
  function AfterAborted(buf: Buffer, aborted: seq<string>): Buffer
    requires forall k :: 0 <= k < |aborted| ==> Clean(aborted[k])
    decreases |aborted|
  {
    if aborted == [] then buf else assert Clean(aborted[0]); AfterAborted(Fill(buf, aborted[0]), aborted[1..])
  }

  function AfterFrame(buf: Buffer, f: Frame): Buffer
    requires FrameOk(f)
  {
    Terminate(AfterAborted(buf, f.aborted), f.payload)
  }

  predicate AllOk(fs: seq<Frame>) {
    forall k :: 0 <= k < |fs| ==> FrameOk(fs[k])
  }

  function AfterFrames(buf: Buffer, fs: seq<Frame>): Buffer
    requires AllOk(fs)
    decreases |fs|
  {
    if fs == [] then buf else AfterFrames(AfterFrame(buf, fs[0]), fs[1..])
  }

  lemma {:induction false} HuntSkips(noise: string, t: string, buf: Buffer)
    requires '$' !in noise
    ensures Receive(Hunt, noise + ("$" + t), buf) == Receive(Body(""), t, buf)
    decreases |noise|
  {
    var s := noise + ("$" + t);
    if noise == "" {
      assert s == "$" + t && s[1..] == t;
    } else {
      assert s[0] == noise[0] && s[0] != '$' && s[1..] == noise[1..] + ("$" + t);
      HuntSkips(noise[1..], t, buf);
    }
  }

  lemma {:induction false} BodyCollects(a: string, p: string, t: string, buf: Buffer)
    requires |a| + |p| < BUFMAX - 1 && '$' !in p && '#' !in p
    ensures Receive(Body(a), p + t, buf) == Receive(Body(a + p), t, buf)
    decreases |p|
  {
    if p == "" {
      assert p + t == t && a + p == a;
    } else {
      var s := p + t;
      assert s[0] == p[0] && s[1..] == p[1..] + t;
      assert a + p == (a + [p[0]]) + p[1..];
      BodyCollects(a + [p[0]], p[1..], t, buf);
    }
  }

  lemma {:induction false} AbortedSkipped(aborted: seq<string>, t: string, buf: Buffer)
    requires forall k :: 0 <= k < |aborted| ==> Clean(aborted[k])
    ensures Receive(Body(""), AbortedText(aborted) + t, buf) == Receive(Body(""), t, AfterAborted(buf, aborted))
    decreases |aborted|
  {
    if aborted == [] {
      assert "" + t == t;
    } else {
      var p, rest := aborted[0], AbortedText(aborted[1..]) + t;
      assert AbortedText(aborted) + t == p + ("$" + rest);
      BodyCollects("", p, "$" + rest, buf);
      assert "" + p == p && ("$" + rest)[1..] == rest;
      AbortedSkipped(aborted[1..], t, Fill(buf, p));
    }
  }

  /** A whole frame: acknowledged and returned when good, refused and skipped when not. */
  lemma FrameReceived(f: Frame, t: string, buf: Buffer)
    requires FrameOk(f)
    ensures var b := AfterFrame(buf, f);
            Receive(Hunt, FrameText(f) + t, buf) ==
            if !Good(f) then (Receive(Hunt, t, b).0, "-" + Receive(Hunt, t, b).1)
            else if b[2] == ':' then (Packet(3, b, t), "+" + [b[0], b[1]]) else (Packet(0, b, t), "+")
  {
    hide Receive, Terminate, Fill, AfterAborted;
    var tail := "#" + ([f.c1, f.c2] + t);
    var body := AbortedText(f.aborted) + (f.payload + tail);
    FrameSplit(f, t);
    HuntSkips(f.noise, body, buf);
    AbortedSkipped(f.aborted, f.payload + tail, buf);
    var b := AfterAborted(buf, f.aborted);
    BodyCollects("", f.payload, tail, b);
    assert "" + f.payload == f.payload;
    TailReceived(f.payload, f.c1, f.c2, t, b);
  }

  lemma FrameSplit(f: Frame, t: string)
    ensures FrameText(f) + t == f.noise + ("$" + (AbortedText(f.aborted) + (f.payload + ("#" + ([f.c1, f.c2] + t)))))
  {
  }

  lemma TailReceived(p: string, c1: char, c2: char, t: string, buf: Buffer)
    requires |p| < BUFMAX - 1
    ensures var b := Terminate(buf, p);
            Receive(Body(p), "#" + ([c1, c2] + t), buf) ==
            if Checksum(p) != Sent(c1, c2) then (Receive(Hunt, t, b).0, "-" + Receive(Hunt, t, b).1)
            else if b[2] == ':' then (Packet(3, b, t), "+" + [b[0], b[1]]) else (Packet(0, b, t), "+")
  {
    hide Terminate, Fill, Checksum, Sent;
    var b := Terminate(buf, p);
    var s0 := "#" + ([c1, c2] + t);
    var s1, s2 := [c1] + ([c2] + t), [c2] + t;
    assert s0[0] == '#' && s0[1..] == s1;
    assert s1[0] == c1 && s1[1..] == s2;
    assert s2[0] == c2 && s2[1..] == t;
    assert Receive(Body(p), s0, buf) == Receive(First(p), s1, b);
    assert Receive(First(p), s1, b) == Receive(Second(p, c1), s2, b);
  }

  function Naks(n: nat): string {
    seq(n, _ => '-')
  }

  /** Any number of bad frames, then a good one: one '-' for each bad frame, then '+', and the buffer
      holds the good payload. */
  lemma {:induction false} GoodFrameReceived(bad: seq<Frame>, good: Frame, t: string, buf: Buffer)
    requires AllOk(bad) && (forall k :: 0 <= k < |bad| ==> !Good(bad[k])) && FrameOk(good) && Good(good)
    ensures var b := AfterFrame(AfterFrames(buf, bad), good);
            Receive(Hunt, Frames(bad) + (FrameText(good) + t), buf) ==
            if b[2] == ':' then (Packet(3, b, t), Naks(|bad|) + ("+" + [b[0], b[1]]))
            else (Packet(0, b, t), Naks(|bad|) + "+")
    decreases |bad|
  {
    hide FrameText, Receive, AfterFrame;
    var last := FrameText(good) + t;
    if bad == [] {
      var b := AfterFrame(buf, good);
      assert "" + last == last && Naks(0) + "+" == "+" && Naks(0) + ("+" + [b[0], b[1]]) == "+" + [b[0], b[1]];
      FrameReceived(good, t, buf);
    } else {
      var rest := Frames(bad[1..]) + last;
      assert Frames(bad) + last == FrameText(bad[0]) + rest;
      FrameReceived(bad[0], rest, buf);
      GoodFrameReceived(bad[1..], good, t, AfterFrame(buf, bad[0]));
      var b := AfterFrame(AfterFrames(buf, bad), good);
      assert Naks(|bad|) == "-" + Naks(|bad| - 1);
      assert Naks(|bad|) + "+" == "-" + (Naks(|bad| - 1) + "+");
      assert Naks(|bad|) + ("+" + [b[0], b[1]]) == "-" + (Naks(|bad| - 1) + ("+" + [b[0], b[1]]));
    }
  }

  /** The C string in the buffer. */
  function CString(buf: string, i: nat): string
    decreases |buf| - i
  {
    if i >= |buf| || buf[i] == '\0' then "" else [buf[i]] + CString(buf, i + 1)
  }

  lemma {:induction false} CStringIs(buf: string, i: nat, p: string)
    requires i + |p| < |buf| && buf[i..i + |p|] == p && '\0' !in p && buf[i + |p|] == '\0'
    ensures CString(buf, i) == p
    decreases |p|
  {
    if p != "" {
      assert buf[i] == buf[i..i + |p|][0] == p[0];
      assert buf[i + 1..i + |p|] == p[1..];
      CStringIs(buf, i + 1, p[1..]);
      assert p == [p[0]] + p[1..];
    }
  }

  /** What the buffer's third character is after a frame: from the payload if it reaches that far, the
      terminator after two characters, otherwise whatever was there. */
  lemma ThirdCharacter(buf: Buffer, f: Frame)
    requires FrameOk(f)
    ensures AfterFrame(buf, f)[2] ==
            if |f.payload| > 2 then f.payload[2] else if |f.payload| == 2 then '\0' else AfterAborted(buf, f.aborted)[2]
    ensures '\0' !in f.payload ==> CString(AfterFrame(buf, f), 0) == f.payload
  {
    var b := AfterFrame(buf, f);
    assert b[..|f.payload|] == f.payload && b[|f.payload|] == '\0';
    if '\0' !in f.payload {
      CStringIs(b, 0, f.payload);
    }
  }

  // ---- sending -----------------------------------------------------------------------------------------------

  /** A packet on the line. */
  function PacketText(p: string): string {
    "$" + p + "#" + [DigitChar(Checksum(p) / 16), DigitChar(Checksum(p) % 16)]
  }

  /** A reply as the protocol's manual prints it. */
  lemma ReplyIs()
    ensures PacketText("OK") == "$OK#9a"
  {
    assert "OK"[..1] == "O" && "O"[..0] == "";
    assert Checksum("O") == 79 && Checksum("OK") == 154;
    hide Checksum;
  }

  // send_packet_no_ack
  method SendPacketNoAck(buffer: string) returns (sent: string)
    ensures sent == PacketText(buffer)
  {
    var checksum := 0;
    var count := 0;
    assert buffer[..0] == "";
    while count < |buffer|
      invariant count <= |buffer| && checksum == Checksum(buffer[..count])
    {
      assert buffer[..count + 1][..count] == buffer[..count];
      checksum := (checksum + buffer[count] as int) % 256;
      count := count + 1;
    }
    assert buffer[..count] == buffer;
    sent := "$" + buffer + "#" + [DigitChar(checksum / 16), DigitChar(checksum % 16)];
  }

  /** The frame a packet is. */
  function FrameOf(p: string): Frame {
    Frame("", [], p, DigitChar(Checksum(p) / 16), DigitChar(Checksum(p) % 16))
  }

  lemma FrameOfText(p: string)
    ensures FrameText(FrameOf(p)) == PacketText(p)
  {
    hide DigitChar, Checksum;
    var c := [DigitChar(Checksum(p) / 16), DigitChar(Checksum(p) % 16)];
    assert AbortedText([]) + (p + ("#" + c)) == p + ("#" + c);
    assert "" + ("$" + (p + ("#" + c))) == "$" + p + "#" + c;
  }

  lemma FrameOfGood(p: string)
    ensures Good(FrameOf(p))
  {
    DigitIs(Checksum(p) / 16);
    DigitIs(Checksum(p) % 16);
    hide DigitChar, DigitOf, Checksum;
  }

  /** What is sent is received: the buffer holds exactly the payload, and it is returned from the start
      of the buffer exactly when no ':' stands third there. */
  lemma ReceiveInvertsSend(p: string, t: string, buf: Buffer)
    requires Clean(p) && '\0' !in p
    ensures var b := AfterFrame(buf, FrameOf(p));
            && CString(b, 0) == p
            && (b[2] == ':' <==> if |p| > 2 then p[2] == ':' else |p| < 2 && buf[2] == ':')
            && Receive(Hunt, PacketText(p) + t, buf) ==
               if b[2] == ':' then (Packet(3, b, t), "+" + [b[0], b[1]]) else (Packet(0, b, t), "+")
  {
    var f := FrameOf(p);
    FrameOfText(p);
    FrameOfGood(p);
    ThirdCharacter(buf, f);
    FrameReceived(f, t, buf);
    hide DigitChar, Receive, FrameText, PacketText, Terminate, CString, Good, Checksum;
  }

  /** After a packet with ':' as its third character, a packet of one character is taken to carry a
      sequence id, and what is returned is a rest of the packet before. */
  lemma StaleColon(buf: Buffer, t: string)
    ensures var b := AfterFrame(buf, FrameOf("ab:c"));
            Receive(Hunt, PacketText("?") + t, b).0 == Packet(3, AfterFrame(b, FrameOf("?")), t)
  {
    hide Receive, AfterFrame, PacketText;
    ReceiveInvertsSend("ab:c", t, buf);
    ReceiveInvertsSend("?", t, AfterFrame(buf, FrameOf("ab:c")));
  }

  // ---- the receiver ----------------------------------------------------------------------------------------

  class Connection {
    const buffer: array<char> // in_buffer
    var input: string // what the connection will still deliver
    var sent: string

    constructor (input': string)
      ensures buffer.Length == BUFMAX && fresh(buffer) && input == input' && sent == ""
    {
      buffer := new char[BUFMAX](_ => '\0');
      input, sent := input', "";
    }

    // recv_char
    method RecvChar() returns (ok: bool, ch: char)
      modifies `input
      ensures ok <==> old(input) != ""
      ensures ok ==> ch == old(input)[0] && input == old(input)[1..]
      ensures !ok ==> input == old(input)
    {
      if input == "" {
        return false, '\0';
      }
      ok, ch := true, input[0];
      input := input[1..];
    }

    /** What remains to be received gives the outcome, after what has been sent. */
    ghost predicate Leads(result: (Outcome, string), mode: Mode, before: string)
      reads this, buffer
      requires buffer.Length == BUFMAX
    {
      && before <= sent
      && result == (Receive(mode, input, buffer[..]).0, sent[|before|..] + Receive(mode, input, buffer[..]).1)
    }

    // the loop that fills the buffer; '$' starts it over
    method FillBuffer(ghost result: (Outcome, string), ghost before: string)
      returns (ok: bool, count: nat, checksum: int, ghost p: string)
      requires buffer.Length == BUFMAX && Leads(result, Body(""), before)
      modifies `input, buffer
      ensures |input| <= |old(input)|
      ensures ok ==> count == |p| < BUFMAX - 1 && checksum == Checksum(p) && Leads(result, First(p), before)
      ensures !ok ==> result == (if count == BUFMAX - 1 then TooLong else Lost, sent[|before|..])
    {
      hide Receive, Fill, Checksum, Terminate;
      ChecksumStep("", 'x');
      count, checksum, p := 0, 0, "";
      ghost var start: Buffer := buffer[..];
      FillNothing(start);
      while count < BUFMAX - 1
        invariant count == |p| <= BUFMAX - 1 && checksum == Checksum(p) && buffer[..] == Fill(start, p) &&
                  before <= sent
        invariant result == (Receive(Body(p), input, start).0, sent[|before|..] + Receive(Body(p), input, start).1)
        invariant |input| <= |old(input)|
        decreases |input|
      {
        BodyStep(p, input, start);
        var got, ch := RecvChar();
        if !got {
          assert sent[|before|..] + "" == sent[|before|..];
          return false, count, checksum, p;
        }
        if ch == '$' {
          start := Fill(start, p);
          count, checksum, p := 0, 0, "";
          FillNothing(start);
        } else if ch == '#' {
          FillNext(start, p, '\0');
          buffer[count] := '\0';
          return true, count, checksum, p;
        } else {
          FillNext(start, p, ch);
          ChecksumStep(p, ch);
          buffer[count] := ch;
          count, checksum, p := count + 1, (checksum + ch as int) % 256, p + [ch];
        }
      }
      BodyFull(p, input, start);
      assert sent[|before|..] + "" == sent[|before|..];
      ok := false;
    }

    // recv_packet; -1 for a lost connection or a message that is too long
    method RecvPacket() returns (offset: int)
      requires buffer.Length == BUFMAX
      modifies this, buffer
      ensures old(sent) <= sent
      ensures var (out, reply) := Receive(Hunt, old(input), old(buffer[..]));
              && sent == old(sent) + reply && (offset >= 0 <==> out.Packet?)
              && (out.Packet? ==> out.offset == offset && out.buf == buffer[..] && out.rest == input)
    {
      hide Receive, Checksum;
      ghost var before := sent;
      ghost var result := Receive(Hunt, input, buffer[..]);
      assert sent[|before|..] + result.1 == result.1;
      assert Leads(result, Hunt, before);
      hide Leads, Fill, Terminate, Sent;
      while true
        invariant Leads(result, Hunt, before) && before <= sent
        decreases |input|
      {
        var ok := WaitForStart(result, before);
        if !ok {
          return -1;
        }
        var count, checksum;
        ghost var p;
        ok, count, checksum, p := FillBuffer(result, before);
        if !ok {
          return -1;
        }
        var again;
        again, offset := CheckFrame(result, before, p, checksum);
        if !again {
          return;
        }
      }
    }

    /** The outcome `result` is what was sent since `before`, the offset and the buffer. */
    ghost predicate Ends(result: (Outcome, string), before: string, offset: int)
      reads this, buffer
      requires buffer.Length == BUFMAX
    {
      && before <= sent && sent[|before|..] == result.1 && (offset >= 0 <==> result.0.Packet?)
      && (result.0.Packet? ==> result.0.offset == offset && result.0.buf == buffer[..] && result.0.rest == input)
    }

    // the two digits of the checksum, and the answer
    method CheckFrame(ghost result: (Outcome, string), ghost before: string, ghost p: string, checksum: int)
      returns (again: bool, offset: int)
      requires buffer.Length == BUFMAX && Leads(result, First(p), before) && checksum == Checksum(p)
      modifies `input, `sent
      ensures old(sent) <= sent
      ensures if again then Leads(result, Hunt, before) && |input| < |old(input)| else Ends(result, before, offset)
    {
      hide Receive, Checksum;
      again, offset := false, -1;
      ghost var i1 := input;
      var ok, ch1 := RecvChar();
      if !ok {
        LostAt(First(p), i1, buffer[..]);
        return;
      }
      ghost var i2 := input;
      var ch2;
      ok, ch2 := RecvChar();
      CheckStep(p, i1, buffer[..]);
      if !ok {
        LostAt(Second(p, ch1), i2, buffer[..]);
        return;
      }
      ghost var replied := sent[|before|..];
      if checksum != Sent(ch1, ch2) {
        sent := sent + "-";
        assert sent[|before|..] == replied + "-";
        Joined(replied, "-", Receive(Hunt, input, buffer[..]).1);
        again := true;
      } else {
        sent := sent + "+";
        offset := 0;
        if buffer[2] == ':' {
          sent := sent + [buffer[0], buffer[1]];
          offset := 3;
        }
      }
    }

    // the loop that skips to '$'
    method WaitForStart(ghost result: (Outcome, string), ghost before: string) returns (ok: bool)
      requires buffer.Length == BUFMAX && Leads(result, Hunt, before)
      modifies `input
      ensures |input| <= |old(input)| && (ok ==> |input| < |old(input)| && Leads(result, Body(""), before))
      ensures !ok ==> result == (Lost, sent[|before|..])
    {
      while true
        invariant Leads(result, Hunt, before) && |input| <= |old(input)|
        decreases |input|
      {
        var got, ch := RecvChar();
        if !got {
          assert sent[|before|..] + "" == sent[|before|..];
          return false;
        }
        if ch == '$' {
          return true;
        }
      }
    }
  }

  lemma FillNothing(buf: Buffer)
    ensures Fill(buf, "") == buf
  {
  }

  /** One more character in the buffer. */
  lemma FillNext(buf: Buffer, p: string, c: char)
    requires |p| < BUFMAX - 1
    ensures Fill(buf, p)[|p| := c] == Fill(buf, p + [c])
    ensures Fill(buf, p)[|p| := '\0'] == Terminate(buf, p)
  {
  }

  lemma ChecksumStep(p: string, c: char)
    ensures Checksum("") == 0 && Checksum(p + [c]) == (Checksum(p) + c as int) % 256
  {
    assert (p + [c])[..|p|] == p;
  }

  lemma BodyStep(p: string, s: string, buf: Buffer)
    requires |p| < BUFMAX - 1
    ensures Receive(Body(p), s, buf) ==
            if s == "" then (Lost, "")
            else if s[0] == '$' then Receive(Body(""), s[1..], Fill(buf, p))
            else if s[0] == '#' then Receive(First(p), s[1..], Terminate(buf, p))
            else Receive(Body(p + [s[0]]), s[1..], buf)
  {
  }

  lemma BodyFull(p: string, s: string, buf: Buffer)
    requires |p| >= BUFMAX - 1
    ensures Receive(Body(p), s, buf) == (TooLong, "")
  {
  }

  lemma LostAt(mode: Mode, s: string, buf: Buffer)
    requires s == "" && !mode.Body?
    ensures Receive(mode, s, buf) == (Lost, "")
  {
  }

  /** The two checksum characters. */
  lemma CheckStep(p: string, s: string, buf: Buffer)
    requires s != ""
    ensures Receive(First(p), s, buf) == Receive(Second(p, s[0]), s[1..], buf)
    ensures |s| > 1 ==> Receive(First(p), s, buf) ==
                        if Checksum(p) != Sent(s[0], s[1]) then
                          (Receive(Hunt, s[2..], buf).0, "-" + Receive(Hunt, s[2..], buf).1)
                        else if buf[2] == ':' then (Packet(3, buf, s[2..]), "+" + [buf[0], buf[1]])
                        else (Packet(0, buf, s[2..]), "+")
  {
    if |s| > 1 {
      assert s[1..][0] == s[1] && s[1..][1..] == s[2..];
    }
  }
}
