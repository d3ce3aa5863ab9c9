/** The text that carries the open descriptors of a payload across execve
    (km/km_exec_fd_save_recover.c). */
module ExecState {
  import opened HexDigits
  import opened Sequences
  import opened Wrappers
  import opened TextFormat

  datatype Event = Event(fd: int, mask: int, data: int)

  /** One descriptor as it is printed and restored. Flags and masks are 32-bit words. */
  datatype Entry =
    | FileEntry(fd: int, how: int, flags: int, index: int)
    | PipeEntry(fd: int, how: int, flags: int, ofd: int)
    | SocketPairEntry(fd: int, how: int, ofd: int)
    | SocketEntry(fd: int, how: int, state: int, backlog: int, ofd: int, addr: seq<int>)
    | EventEntry(fd: int, flags: int, events: seq<Event>)

  predicate EventOk(e: Event) {
    InRange(Dec, e.fd) && InRange(Hex, e.mask) && InRange(LongHex, e.data)
  }

  predicate EventsOk(es: seq<Event>) {
    forall k :: 0 <= k < |es| ==> EventOk(es[k])
  }

  predicate BytesOk(b: seq<int>) {
    forall k :: 0 <= k < |b| ==> 0 <= b[k] < 256
  }

  /** The fields fit their C types. */
  predicate Ok(e: Entry) {
    match e
    case FileEntry(fd, how, flags, index) => Int32(fd) && Int32(how) && InRange(Hex, flags) && Int32(index)
    case PipeEntry(fd, how, flags, ofd) => Int32(fd) && Int32(how) && InRange(Hex, flags) && Int32(ofd)
    case SocketPairEntry(fd, how, ofd) => Int32(fd) && Int32(how) && Int32(ofd)
    case SocketEntry(fd, how, state, backlog, ofd, addr) =>
      Int32(fd) && Int32(how) && Int32(state) && Int32(backlog) && Int32(ofd) && BytesOk(addr)
    case EventEntry(fd, flags, events) =>
      Int32(fd) && InRange(Hex, flags) && EventsOk(events)
  }

  // ---- printing ------------------------------------------------------------------------------------

  const TAG: Format := [(Hex, ',')]
  const FOUR: Format := [(Dec, ','), (Dec, ','), (Hex, ','), (Dec, '}')]
  const PAIR: Format := [(Dec, ','), (Dec, ','), (Dec, '}')]
  const SOCKET: Format := [(Dec, ','), (Dec, ','), (Dec, ','), (Dec, ','), (Dec, ',')]
  const EPOLL: Format := [(Dec, ','), (Hex, ',')]
  const EVENT: Format := [(Dec, ','), (Hex, ','), (LongHex, '}')]

  // km_bin2hex
  function Bin2Hex(b: seq<int>): string
    requires BytesOk(b)
  {
    if b == [] then "" else [DigitChar(b[0] / 16), DigitChar(b[0] % 16)] + Bin2Hex(b[1..])
  }

  function EventText(e: Event): string
    requires EventOk(e)
  {
    ",{" + Printf(EVENT, [e.fd, e.mask, e.data])
  }

  function EventsText(es: seq<Event>): string
    requires EventsOk(es)
  {
    if es == [] then "" else EventText(es[0]) + EventsText(es[1..])
  }

  function EpollText(fd: int, flags: int): string
    requires Int32(fd) && InRange(Hex, flags)
  {
    PrintNumber(Dec, fd) + "," + PrintNumber(Hex, flags)
  }

  /** An entry after its tag. */
  function Body(e: Entry): string
    requires Ok(e)
  {
    match e
    case FileEntry(fd, how, flags, index) => Printf(FOUR, [fd, how, flags, index])
    case PipeEntry(fd, how, flags, ofd) => Printf(FOUR, [fd, how, flags, ofd])
    case SocketPairEntry(fd, how, ofd) => Printf(PAIR, [fd, how, ofd])
    case SocketEntry(fd, how, state, backlog, ofd, addr) =>
      Printf(SOCKET, [fd, how, state, backlog, ofd]) + (Bin2Hex(addr) + "}")
    case EventEntry(fd, flags, events) =>
      EpollText(fd, flags) + (EventsText(events) + (if events == [] then "" else "}"))
  }

  function Tag(e: Entry): int {
    match e
    case FileEntry(_, _, _, _) => 0
    case PipeEntry(_, _, _, _) => 1
    case SocketPairEntry(_, _, _) => 2
    case SocketEntry(_, _, _, _, _, _) => 3
    case EventEntry(_, _, _) => 4
  }

  // A socket pair's tag is printed with %d and the others with %x, which is the same for one digit.
  function EntryText(e: Entry): string
    requires Ok(e)
  {
    "{" + Printf(TAG, [Tag(e)]) + Body(e)
  }

  predicate AllOk(xs: seq<Entry>) {
    forall k :: 0 <= k < |xs| ==> Ok(xs[k])
  }

  /** The entries, joined by commas. */
  function Text(xs: seq<Entry>): string
    requires AllOk(xs)
  {
    if xs == [] then "" else if |xs| == 1 then EntryText(xs[0]) else EntryText(xs[0]) + "," + Text(xs[1..])
  }

  // ---- parsing -------------------------------------------------------------------------------------

  // km_hex2bin
  function Hex2Bin(s: string, i: nat): seq<int>
    decreases |s| - i
  {
    var h, l := DigitOf(CharAt(s, i)), DigitOf(CharAt(s, i + 1));
    if h < 0 || l < 0 || i >= |s| then [] else [16 * h + l] + Hex2Bin(s, i + 2)
  }

  /** From the closing brace at `k` back to just after the last comma. */
  function BackToComma(s: string, q: nat, k: nat): (r: nat)
    requires q < k <= |s|
    ensures q <= r <= k && (forall j :: r <= j < k ==> s[j] != ',') && (r == q || s[r - 1] == ',')
    decreases k
  {
    if s[k - 1] == ',' then k else if k - 1 == q then q else BackToComma(s, q, k - 1)
  }

  /** The events from `q` on, and where they end. */
  function ParseEvents(s: string, q: nat): (r: Option<(seq<Event>, nat)>)
    requires q <= |s|
    ensures r.Some? ==> q <= r.value.1 <= |s|
    ensures r.Some? && CharAt(s, q) == ',' ==> r.value.0 != []
    decreases |s| - q
  {
    if CharAt(s, q) != ',' then Some(([], q))
    else
      var vals := if CharAt(s, q + 1) == '{' then Sscanf(s, q + 2, EVENT) else [];
      if |vals| != 3 then None
      else
        var k := Strchr(s, q + 1, '}');
        if k == |s| then None
        else
          match ParseEvents(s, k + 1)
          case None => None
          case Some((es, end)) => Some(([Event(vals[0], vals[1], vals[2])] + es, end))
  }

  /** The entry at `p`, and the position from which its closing brace is looked for. */
  function ParseEntry(s: string, p: nat): (r: Option<(Entry, nat)>)
    requires p < |s|
    ensures r.Some? ==> p <= r.value.1 <= |s|
  {
    var tags := if s[p] == '{' then Sscanf(s, p + 1, TAG) else [];
    var c := Strchr(s, p, ',');
    if |tags| != 1 || c == |s| then None else ParseBody(s, p, tags[0], c + 1)
  }

  function ParseBody(s: string, p: nat, tag: int, q: nat): (r: Option<(Entry, nat)>)
    requires p < q <= |s|
    ensures r.Some? ==> p <= r.value.1 <= |s|
  {
    if tag == 0 || tag == 1 then
      var v := Sscanf(s, q, FOUR);
      if |v| != 4 then None
      else Some((if tag == 0 then FileEntry(v[0], v[1], v[2], v[3]) else PipeEntry(v[0], v[1], v[2], v[3]), p))
    else if tag == 2 then
      var v := Sscanf(s, q, PAIR);
      if |v| != 3 then None else Some((SocketPairEntry(v[0], v[1], v[2]), p))
    else if tag == 3 then
      var v := Sscanf(s, q, SOCKET);
      var k := Strchr(s, q, '}');
      if |v| != 5 || k == |s| || k == q then None
      else Some((SocketEntry(v[0], v[1], v[2], v[3], v[4], Hex2Bin(s, BackToComma(s, q, k))), p))
    else if tag == 4 then ParseEpoll(s, q)
    else None
  }

  function ParseEpoll(s: string, q: nat): (r: Option<(Entry, nat)>)
    requires 0 < q <= |s|
    ensures r.Some? ==> q - 1 <= r.value.1 <= |s|
  {
    var v := Sscanf(s, q, EPOLL);
    var k := FindBrace(s, q);
    if |v| != 2 || k == |s| then None
    else
      match ParseEvents(s, if s[k] == '{' then k - 1 else k)
      case None => None
      case Some((es, end)) => if CharAt(s, end) != '}' then None else Some((EventEntry(v[0], v[1], es), end))
  }

  /** Where the next entry starts: past the closing brace, and a comma. */
  function NextEntry(s: string, from: nat): (n: nat)
    requires from <= |s|
    ensures from <= n
  {
    var k := Strchr(s, from, '}');
    if CharAt(s, k + 1) == ',' then k + 2 else k + 1
  }

  // km_exec_restore_fd
  function Parse(s: string, p: nat): Option<seq<Entry>>
    decreases |s| - p
  {
    if p >= |s| then Some([])
    else
      match ParseEntry(s, p)
      case None => None
      case Some((e, from)) =>
        if Strchr(s, from, '}') == |s| then None
        else
          match Parse(s, NextEntry(s, from))
          case None => None
          case Some(rest) => Some([e] + rest)
  }

  // ---- parsing what was printed ----------------------------------------------------------------------

  lemma TagText(t: int)
    requires 0 <= t < 16
    ensures Fits(TAG, [t]) && Printf(TAG, [t]) == [DigitChar(t), ','] && Delimited(TAG)
  {
    assert TAG[1..] == [] && [t][1..] == [];
  }

  /** Tag and first comma of a printed entry. */
  lemma HeadParsed(s: string, p: nat, e: Entry)
    requires Ok(e) && At(s, p, EntryText(e))
    ensures p + 3 <= |s| && s[p] == '{' && Sscanf(s, p + 1, TAG) == [Tag(e)]
    ensures Strchr(s, p, ',') == p + 2 && At(s, p + 3, Body(e))
  {
    hide Body, Sscanf, Digits, DigitChar;
    var t := Tag(e);
    TagText(t);
    hide Printf;
    var head := Printf(TAG, [t]);
    AtJoin(s, p, "{" + head, Body(e));
    AtJoin(s, p, "{", head);
    AtHead(s, p, "{");
    ScanPrinted(s, p + 1, TAG, [t]);
    DigitIs(t);
    assert "{" + head == ['{', DigitChar(t)] + [','];
    StrchrIs(s, p, ['{', DigitChar(t)], ',');
  }

  lemma Formats()
    ensures Delimited(FOUR) && Delimited(PAIR) && Delimited(SOCKET) && Delimited(EVENT)
  {
  }

  /** The closing brace of a text that is otherwise plain, after a printed tag. */
  lemma CloseIs(s: string, p: nat, e: Entry, w: string)
    requires Ok(e) && At(s, p, EntryText(e)) && Body(e) == w + "}" && Plain(w)
    ensures Strchr(s, p, '}') == p + |EntryText(e)| - 1
  {
    hide Body, Plain, Digits;
    TagText(Tag(e));
    hide Printf, DigitChar;
    DigitIs(Tag(e));
    PlainNoBrace(w);
    var head := ['{', DigitChar(Tag(e)), ','];
    assert EntryText(e) == (head + w) + ['}'];
    StrchrIs(s, p, head + w, '}');
  }

  /** Formats closed by a brace. */
  lemma ClosedParsed(s: string, p: nat, e: Entry, fmt: Format, vals: seq<int>)
    requires Ok(e) && At(s, p, EntryText(e)) && Fits(fmt, vals) && Delimited(fmt) && Body(e) == Printf(fmt, vals)
    requires fmt != [] && fmt[|fmt| - 1].1 == '}' && forall k :: 0 <= k < |fmt| - 1 ==> fmt[k].1 == ','
    ensures Sscanf(s, p + 3, fmt) == vals && Strchr(s, p, '}') == p + |EntryText(e)| - 1
  {
    hide EntryText, Body, At, Sscanf, Printf, Plain, Fits, Delimited;
    HeadParsed(s, p, e);
    ScanPrinted(s, p + 3, fmt, vals);
    PlainPrintf(fmt, vals);
    var w := Printf(fmt, vals);
    assert w == w[..|w| - 1] + "}";
    CloseIs(s, p, e, w[..|w| - 1]);
  }

  /** A printed file, pipe or socket pair entry parses back. */
  lemma SimpleParsed(s: string, p: nat, e: Entry)
    requires Ok(e) && (e.FileEntry? || e.PipeEntry? || e.SocketPairEntry?) && At(s, p, EntryText(e))
    ensures p < |s| && ParseEntry(s, p) == Some((e, p)) && Strchr(s, p, '}') == p + |EntryText(e)| - 1
  {
    hide EntryText, At, Sscanf, Printf, Plain, Delimited;
    HeadParsed(s, p, e);
    Formats();
    match e
    case FileEntry(fd, how, flags, index) => ClosedParsed(s, p, e, FOUR, [fd, how, flags, index]);
    case PipeEntry(fd, how, flags, ofd) => ClosedParsed(s, p, e, FOUR, [fd, how, flags, ofd]);
    case SocketPairEntry(fd, how, ofd) => ClosedParsed(s, p, e, PAIR, [fd, how, ofd]);
  }

  // ---- sockets

  lemma {:induction false} Bin2HexDigits(b: seq<int>)
    requires BytesOk(b)
    ensures |Bin2Hex(b)| == 2 * |b| && forall k :: 0 <= k < |Bin2Hex(b)| ==> DigitOf(Bin2Hex(b)[k]) >= 0
  {
    hide DigitChar, DigitOf;
    if b != [] {
      Bin2HexDigits(b[1..]);
      DigitIs(b[0] / 16);
      DigitIs(b[0] % 16);
    }
  }

  /** km_hex2bin inverts km_bin2hex. */
  lemma {:induction false} HexInverse(s: string, i: nat, b: seq<int>)
    requires BytesOk(b) && At(s, i, Bin2Hex(b) + "}")
    ensures Hex2Bin(s, i) == b
    decreases |b|
  {
    hide DigitChar, DigitOf, At;
    if b == [] {
      assert "" + "}" == "}";
      AtHead(s, i, "}");
      assert DigitOf('}') < 0 by {
        Brace();
      }
    } else {
      var h, l, rest := DigitChar(b[0] / 16), DigitChar(b[0] % 16), Bin2Hex(b[1..]) + "}";
      assert Bin2Hex(b) + "}" == [h] + ([l] + rest);
      AtJoin(s, i, [h], [l] + rest);
      AtJoin(s, i + 1, [l], rest);
      AtHead(s, i, [h]);
      AtHead(s, i + 1, [l]);
      DigitIs(b[0] / 16);
      DigitIs(b[0] % 16);
      HexInverse(s, i + 2, b[1..]);
      assert b == [b[0]] + b[1..];
    }
  }

  lemma Brace()
    ensures DigitOf('}') < 0 && DigitOf('{') < 0 && DigitOf(',') < 0
  {
  }

  /** Walking back from the brace stops at the address. */
  lemma BackIs(s: string, q: nat, w: string, hex: string)
    requires |w| > 0 && w[|w| - 1] == ',' && (forall k :: 0 <= k < |hex| ==> DigitOf(hex[k]) >= 0)
    requires At(s, q, w) && At(s, q + |w|, hex)
    ensures q + |w| + |hex| <= |s| && BackToComma(s, q, q + |w| + |hex|) == q + |w|
  {
    var m, k := q + |w|, q + |w| + |hex|;
    assert s[m - 1] == s[q..m][|w| - 1] == ',';
    forall j | m <= j < k
      ensures s[j] != ','
    {
      assert s[j] == hex[j - m];
      Brace();
    }
    var r := BackToComma(s, q, k);
  }

  /** The address field, and the brace after it. */
  lemma AddressParsed(s: string, q: nat, w: string, addr: seq<int>)
    requires BytesOk(addr) && |w| > 0 && w[|w| - 1] == ',' && Plain(w[..|w| - 1]) && At(s, q, w + (Bin2Hex(addr) + "}"))
    ensures Plain(w + Bin2Hex(addr)) && q < |s|
    ensures var k := Strchr(s, q, '}'); q < k < |s| && Hex2Bin(s, BackToComma(s, q, k)) == addr
  {
    hide At, Plain, DigitOf, Bin2Hex, Hex2Bin, BackToComma, BytesOk;
    var hex := Bin2Hex(addr);
    AtJoin(s, q, w, hex + "}");
    AtJoin(s, q + |w|, hex, "}");
    AtHead(s, q + |w| + |hex|, "}");
    Bin2HexDigits(addr);
    PlainSocket(w, hex);
    PlainNoBrace(w + hex);
    assert w + (hex + "}") == (w + hex) + ['}'];
    StrchrIs(s, q, w + hex, '}');
    BackIs(s, q, w, hex);
    HexInverse(s, q + |w|, addr);
  }

  lemma SocketParsed(s: string, p: nat, e: Entry)
    requires Ok(e) && e.SocketEntry? && At(s, p, EntryText(e))
    ensures p < |s| && ParseEntry(s, p) == Some((e, p)) && Strchr(s, p, '}') == p + |EntryText(e)| - 1
  {
    hide EntryText, At, Sscanf, Printf, Plain, Delimited, DigitOf, Bin2Hex, Hex2Bin, BackToComma, BytesOk;
    var q, vals := p + 3, [e.fd, e.how, e.state, e.backlog, e.ofd];
    HeadParsed(s, p, e);
    Formats();
    var w, hex := Printf(SOCKET, vals), Bin2Hex(e.addr);
    assert Body(e) == w + (hex + "}");
    hide Body, Fits;
    AtJoin(s, q, w, hex + "}");
    ScanPrinted(s, q, SOCKET, vals);
    PlainPrintf(SOCKET, vals);
    AddressParsed(s, q, w, e.addr);
    Joined(w, hex, "}");
    CloseIs(s, p, e, w + hex);
  }

  lemma PlainSocket(w: string, hex: string)
    requires |w| > 0 && w[|w| - 1] == ',' && Plain(w[..|w| - 1]) && forall k :: 0 <= k < |hex| ==> DigitOf(hex[k]) >= 0
    ensures Plain(w + hex)
  {
    hide DigitOf;
    var v := w[..|w| - 1];
    assert w == v + ",";
    PlainComma();
    PlainJoin(v, ",");
    PlainJoin(w, hex);
  }

  // ---- events

  /** One event: its numbers, and the brace that closes it. */
  lemma EventParsed(s: string, q: nat, e: Event)
    requires EventOk(e) && At(s, q, EventText(e))
    ensures q + 2 <= |s| && s[q] == ',' && s[q + 1] == '{' && Sscanf(s, q + 2, EVENT) == [e.fd, e.mask, e.data]
    ensures Strchr(s, q + 1, '}') == q + |EventText(e)| - 1 && q + |EventText(e)| <= |s|
  {
    hide Sscanf, Printf, Plain;
    var vals := [e.fd, e.mask, e.data];
    var w := Printf(EVENT, vals);
    AtJoin(s, q, ",{", w);
    AtJoin(s, q, ",", "{");
    assert ",{" == "," + "{";
    AtHead(s, q, ",");
    AtHead(s, q + 1, "{");
    Formats();
    hide Delimited, At, InRange;
    ScanPrinted(s, q + 2, EVENT, vals);
    PlainPrintf(EVENT, vals);
    var v := w[..|w| - 1];
    assert w == v + "}" && "{" + w == ("{" + v) + ['}'];
    PlainNoBrace(v);
    AtJoin(s, q + 1, "{", w);
    StrchrIs(s, q + 1, "{" + v, '}');
    assert q + |EventText(e)| <= |s| by {
      AtEnd(s, q + 2, w);
    }
  }

  /** Printed events parse back in order. */
  lemma {:induction false} EventsParsed(s: string, q: nat, es: seq<Event>)
    requires EventsOk(es) && q <= |s| && At(s, q, EventsText(es) + "}")
    ensures ParseEvents(s, q) == Some((es, q + |EventsText(es)|)) && CharAt(s, q + |EventsText(es)|) == '}'
    decreases |es|
  {
    hide EventText, At, Sscanf;
    if es == [] {
      assert "" + "}" == "}";
      AtHead(s, q, "}");
    } else {
      var w, rest := EventText(es[0]), EventsText(es[1..]) + "}";
      Joined(w, EventsText(es[1..]), "}");
      AtJoin(s, q, w, rest);
      EventParsed(s, q, es[0]);
      EventsParsed(s, q + |w|, es[1..]);
      assert es == [es[0]] + es[1..];
    }
  }

  lemma EventsStart(es: seq<Event>)
    requires EventsOk(es) && es != []
    ensures |EventsText(es)| >= 2 && EventsText(es)[..2] == ",{"
  {
  }

  lemma PlainEpoll(fd: int, flags: int)
    requires Int32(fd) && InRange(Hex, flags)
    ensures Plain(EpollText(fd, flags))
  {
    hide Plain, PrintNumber;
    PlainNumber(Dec, fd);
    PlainNumber(Hex, flags);
    PlainComma();
    PlainJoin(PrintNumber(Dec, fd), ",");
    PlainJoin(PrintNumber(Dec, fd) + ",", PrintNumber(Hex, flags));
  }

  /** Descriptor and flags of an event entry; a comma or the end of the text follows. */
  lemma EpollParsed(s: string, q: nat, fd: int, flags: int)
    requires Int32(fd) && InRange(Hex, flags) && At(s, q, EpollText(fd, flags))
    requires CharAt(s, q + |EpollText(fd, flags)|) in {',', '\0'}
    ensures Sscanf(s, q, EPOLL) == [fd, flags]
  {
    hide At, PrintNumber, ScanNumber, DigitOf;
    var a, b := PrintNumber(Dec, fd), PrintNumber(Hex, flags);
    AtJoin(s, q, a + ",", b);
    AtJoin(s, q, a, ",");
    AtHead(s, q + |a|, ",");
    Commas();
    NumberIs(s, q, Dec, fd);
    NumberIs(s, q + |a| + 1, Hex, flags);
    assert EPOLL[1..] == [(Hex, ',')] && EPOLL[1..][1..] == [];
  }

  lemma Commas()
    ensures DigitOf(',') < 0 && DigitOf('\0') < 0
  {
  }

  lemma FindBraceIs(s: string, q: nat, w: string)
    requires q <= |s| && At(s, q, w) && Plain(w) && CharAt(s, q + |w|) == ',' && CharAt(s, q + |w| + 1) == '{'
    ensures FindBrace(s, q) == q + |w| + 1 && q + |w| + 1 < |s|
  {
    PlainNoBrace(w);
    hide Plain;
    assert forall j :: q <= j < q + |w| ==> s[j] == w[j - q];
  }

  /** Descriptor, flags and events, closed by a brace. */
  lemma EpollEventsParsed(s: string, q: nat, fd: int, flags: int, es: seq<Event>)
    requires Int32(fd) && InRange(Hex, flags) && EventsOk(es) && es != [] && 0 < q <= |s|
    requires At(s, q, EpollText(fd, flags) + (EventsText(es) + "}"))
    ensures var end := q + |EpollText(fd, flags)| + |EventsText(es)|;
            ParseEpoll(s, q) == Some((EventEntry(fd, flags, es), end)) && CharAt(s, end) == '}' && end < |s|
  {
    hide At, Sscanf, EpollText, EventsText, EventsOk, ParseEvents;
    var w, t := EpollText(fd, flags), EventsText(es);
    AtJoin(s, q, w, t + "}");
    AtEnd(s, q + |w|, t + "}");
    EventsComma(s, q + |w|, es);
    EpollParsed(s, q, fd, flags);
    PlainEpoll(fd, flags);
    FindBraceIs(s, q, w);
    EventsParsed(s, q + |w|, es);
  }

  lemma EventsComma(s: string, i: nat, es: seq<Event>)
    requires EventsOk(es) && es != [] && At(s, i, EventsText(es) + "}")
    ensures CharAt(s, i) == ',' && CharAt(s, i + 1) == '{'
  {
    hide At, EventsText, EventsOk;
    var t := EventsText(es);
    EventsStart(es);
    var rest := t[2..] + "}";
    assert t + "}" == "," + ("{" + rest);
    AtJoin(s, i, ",", "{" + rest);
    AtHead(s, i, ",");
    AtHead(s, i + 1, "{" + rest);
  }

  lemma EpollTag(s: string, p: nat)
    requires p + 3 <= |s| && s[p] == '{' && Sscanf(s, p + 1, TAG) == [4] && Strchr(s, p, ',') == p + 2
    ensures ParseEntry(s, p) == ParseEpoll(s, p + 3)
  {
    hide Sscanf, ParseEpoll;
  }

  lemma EventBody(e: Entry)
    requires Ok(e) && e.EventEntry? && e.events != []
    ensures Int32(e.fd) && InRange(Hex, e.flags) && EventsOk(e.events)
    ensures Body(e) == EpollText(e.fd, e.flags) + (EventsText(e.events) + "}")
    ensures |EntryText(e)| == 4 + |EpollText(e.fd, e.flags)| + |EventsText(e.events)|
  {
    hide EpollText, EventsText, EventsOk;
    EntryLength(e);
  }

  lemma EventEntryParsed(s: string, p: nat, e: Entry)
    requires Ok(e) && e.EventEntry? && e.events != [] && At(s, p, EntryText(e))
    ensures p < |s| && p + |EntryText(e)| <= |s| && ParseEntry(s, p) == Some((e, p + |EntryText(e)| - 1))
    ensures CharAt(s, p + |EntryText(e)| - 1) == '}'
  {
    hide EntryText, At, Sscanf, EpollText, EventsText, EventsOk, ParseEpoll, ParseEntry, Body, Ok, InRange, Int32;
    HeadParsed(s, p, e);
    EventBody(e);
    EpollTag(s, p);
    EpollEventsParsed(s, p + 3, e.fd, e.flags, e.events);
  }

  /** Without events and without a closing brace, what follows is taken for an event or missed. */
  lemma EpollEmpty(s: string, q: nat, w: string)
    requires 0 < q && At(s, q, w) && Plain(w)
    requires q + |w| == |s| || (CharAt(s, q + |w|) == ',' && CharAt(s, q + |w| + 1) == '{')
    ensures q <= |s|
    ensures ParseEpoll(s, q) == None || (ParseEpoll(s, q).value.0.EventEntry? && ParseEpoll(s, q).value.0.events != [])
  {
    AtEnd(s, q, w);
    hide At, Plain, Sscanf, FindBrace, ParseEvents;
    if q + |w| == |s| {
      NoBrace(s, q, w);
    } else {
      FindBraceIs(s, q, w);
    }
  }

  lemma EntryLength(e: Entry)
    requires Ok(e)
    ensures |EntryText(e)| == 3 + |Body(e)| && EntryText(e)[0] == '{'
  {
    TagText(Tag(e));
  }

  /** An event entry without events is not parsed back. */
  lemma EmptyParsed(s: string, p: nat, e: Entry)
    requires Ok(e) && e.EventEntry? && e.events == [] && At(s, p, EntryText(e))
    requires p + |EntryText(e)| == |s| ||
             (CharAt(s, p + |EntryText(e)|) == ',' && CharAt(s, p + |EntryText(e)| + 1) == '{')
    ensures p < |s| && (ParseEntry(s, p) == None || ParseEntry(s, p).value.0 != e)
  {
    hide EntryText, At, Sscanf, EpollText, EventOk, ParseEpoll, ParseEntry;
    HeadParsed(s, p, e);
    EntryLength(e);
    EpollTag(s, p);
    var w := EpollText(e.fd, e.flags);
    assert Body(e) == w;
    hide Body;
    PlainEpoll(e.fd, e.flags);
    EpollEmpty(s, p + 3, w);
  }

  lemma NoBrace(s: string, q: nat, w: string)
    requires q + |w| == |s| && At(s, q, w) && Plain(w)
    ensures FindBrace(s, q) == |s|
  {
    PlainNoBrace(w);
    assert forall j :: q <= j < q + |w| ==> s[j] == w[j - q];
  }

  // ---- the whole text

  predicate HasEvents(e: Entry) {
    e.EventEntry? ==> e.events != []
  }

  lemma EntryParsed(s: string, p: nat, e: Entry)
    requires Ok(e) && HasEvents(e) && At(s, p, EntryText(e))
    ensures p < |s| && p + |EntryText(e)| <= |s|
    ensures var r := ParseEntry(s, p);
            r.Some? && r.value.0 == e && Strchr(s, r.value.1, '}') == p + |EntryText(e)| - 1
  {
    hide EntryText, ParseEntry;
    AtEnd(s, p, EntryText(e));
    EntryLength(e);
    if e.EventEntry? {
      EventEntryParsed(s, p, e);
    } else if e.SocketEntry? {
      SocketParsed(s, p, e);
    } else {
      SimpleParsed(s, p, e);
    }
  }

  lemma TextHead(xs: seq<Entry>)
    requires AllOk(xs) && xs != []
    ensures |Text(xs)| > 0 && Text(xs)[0] == '{'
  {
    EntryLength(xs[0]);
    hide EntryText;
  }

  /** What follows the first entry of a text. */
  lemma TextSplit(s: string, p: nat, xs: seq<Entry>)
    requires AllOk(xs) && xs != [] && At(s, p, Text(xs)) && p + |Text(xs)| == |s|
    ensures At(s, p, EntryText(xs[0]))
    ensures |xs| == 1 ==> p + |EntryText(xs[0])| == |s|
    ensures |xs| > 1 ==>
              var n := p + |EntryText(xs[0])|;
              CharAt(s, n) == ',' && CharAt(s, n + 1) == '{' && At(s, n + 1, Text(xs[1..])) &&
              n + 1 + |Text(xs[1..])| == |s|
  {
    hide EntryText, At;
    if |xs| > 1 {
      var w, rest := EntryText(xs[0]), Text(xs[1..]);
      AtJoin(s, p, w + ",", rest);
      AtJoin(s, p, w, ",");
      AtHead(s, p + |w|, ",");
      TextHead(xs[1..]);
      AtHead(s, p + |w| + 1, rest);
    }
  }

  /** Parsing the printed text gives the entries back exactly when every event entry has an event. */
  lemma {:induction false} ParseText(s: string, p: nat, xs: seq<Entry>)
    requires AllOk(xs) && p <= |s| && At(s, p, Text(xs)) && p + |Text(xs)| == |s|
    ensures Parse(s, p) == Some(xs) <==> forall k :: 0 <= k < |xs| ==> HasEvents(xs[k])
    decreases |xs|
  {
    hide EntryText, At, ParseEntry, Text, Ok;
    if xs == [] {
      assert Text([]) == "" by {
        NoText();
      }
    } else {
      TextSplit(s, p, xs);
      if HasEvents(xs[0]) {
        EntryParsed(s, p, xs[0]);
        assert xs == [xs[0]] + xs[1..];
        if |xs| > 1 {
          ParseText(s, p + |EntryText(xs[0])| + 1, xs[1..]);
        }
      } else {
        EmptyParsed(s, p, xs[0]);
      }
    }
  }

  lemma NoText()
    ensures Text([]) == ""
  {
  }

  /** Restoring what was saved. */
  lemma RoundTrip(xs: seq<Entry>)
    requires AllOk(xs)
    ensures Parse(Text(xs), 0) == Some(xs) <==> forall k :: 0 <= k < |xs| ==> HasEvents(xs[k])
  {
    hide Text, Ok;
    ParseText(Text(xs), 0, xs);
  }
}
